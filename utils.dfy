/**
 * The command-language utilities: reading and writing the joint position of
 * a waypoint, clamping it to joint limits, and turning a program into an
 * empty "skeleton seed" of the same shape.
 */
module Utils {
  import opened CommandLanguage

  // ---------------------------------------------------------------------------
  // Joint positions
  // ---------------------------------------------------------------------------

  /**
   * The joint position of a joint or state waypoint; every other kind of
   * waypoint throws "Unsupported waypoint type.".
   */
  function GetJointPosition(wp: Waypoint): (r: Outcome<seq<real>>)
    ensures r.Value? <==> HasJointPosition(wp)
    ensures r.Value? ==> r.value == wp.position
    ensures r.Exception? ==> r.what == "Unsupported waypoint type."
  {
    if wp.JointWp? then Value(wp.position)
    else if wp.StateWp? then Value(wp.position)
    else Exception("Unsupported waypoint type.")
  }

  /** A `Waypoint&`: the caller's waypoint, which the operations below update in place. */
  class WaypointRef {
    var value: Waypoint

    constructor (wp: Waypoint)
      ensures value == wp
    {
      value := wp;
    }
  }

  /**
   * Overwrites the joint position of a joint or state waypoint and reports
   * true; any other waypoint is left alone and false is reported.
   */
  method SetJointPosition(wp: WaypointRef, position: seq<real>) returns (ok: bool)
    modifies wp
    ensures ok <==> HasJointPosition(old(wp.value))
    ensures ok ==> GetJointPosition(wp.value) == Value(position)
    ensures ok ==> wp.value == old(wp.value).(position := position)
    ensures !ok ==> wp.value == old(wp.value)
  {
    match wp.value {
    case JointWp(names, _) =>
      wp.value := JointWp(names, position);
    case StateWp(names, _, velocity, acceleration, time) =>
      wp.value := StateWp(names, position, velocity, acceleration, time);
    case _ =>
      return false;
    }
    return true;
  }

  /** Reading back what was just written gives the written vector. */
  lemma SetThenGet(wp: Waypoint, position: seq<real>)
    requires HasJointPosition(wp)
    ensures GetJointPosition(wp.(position := position)) == Value(position)
  {
  }

  /** Writing back what was just read changes nothing. */
  lemma GetThenSet(wp: Waypoint)
    requires HasJointPosition(wp)
    ensures wp.(position := GetJointPosition(wp).value) == wp
  {
  }

  // ---------------------------------------------------------------------------
  // Joint limits
  // ---------------------------------------------------------------------------

  /** One row of the n x 2 limits matrix: column 0 is the lower, column 1 the upper limit. */
  datatype Limit = Limit(lower: real, upper: real)

  function Max(a: real, b: real): real { if a < b then b else a }

  function Min(a: real, b: real): real { if b < a then b else a }

  /** The element-wise `cwiseMax` with the lower limits followed by `cwiseMin` with the upper limits. */
  function Clamp(x: seq<real>, limits: seq<Limit>): (r: seq<real>)
    requires |limits| == |x|
    ensures |r| == |x|
  {
    seq(|x|, i requires 0 <= i < |x| => Min(Max(x[i], limits[i].lower), limits[i].upper))
  }

  /** Every element lies between its lower and its upper limit. */
  predicate WithinLimits(x: seq<real>, limits: seq<Limit>)
    requires |limits| == |x|
  {
    forall i :: 0 <= i < |x| ==> limits[i].lower <= x[i] <= limits[i].upper
  }

  /** Every lower limit is at most its upper limit. */
  predicate ConsistentLimits(limits: seq<Limit>)
  {
    forall i :: 0 <= i < |limits| ==> limits[i].lower <= limits[i].upper
  }

  /** With consistent limits, the clamped vector is within them. */
  lemma ClampWithinLimits(x: seq<real>, limits: seq<Limit>)
    requires |limits| == |x| && ConsistentLimits(limits)
    ensures WithinLimits(Clamp(x, limits), limits)
  {
  }

  /**
   * An element already within its limits is kept, so a vector within its
   * limits is a fixed point of the clamp; with consistent limits the fixed
   * points are exactly those vectors.
   */
  lemma ClampKeepsWithin(x: seq<real>, limits: seq<Limit>)
    requires |limits| == |x|
    ensures forall i :: 0 <= i < |x| && limits[i].lower <= x[i] <= limits[i].upper ==> Clamp(x, limits)[i] == x[i]
    ensures WithinLimits(x, limits) ==> Clamp(x, limits) == x
    ensures ConsistentLimits(limits) ==> (WithinLimits(x, limits) <==> Clamp(x, limits) == x)
  {
    if ConsistentLimits(limits) && Clamp(x, limits) == x {
      forall i | 0 <= i < |x| ensures limits[i].lower <= x[i] <= limits[i].upper {
        assert Clamp(x, limits)[i] == x[i];
      }
    }
  }

  /** Clamping twice is clamping once, even when a lower limit exceeds its upper limit. */
  lemma ClampIdempotent(x: seq<real>, limits: seq<Limit>)
    requires |limits| == |x|
    ensures Clamp(Clamp(x, limits), limits) == Clamp(x, limits)
  {
  }

  /**
   * Clamps the joint position of a joint or state waypoint to `limits`. When
   * the number of limit rows differs from the position's length the waypoint
   * is left alone and false is reported; a waypoint of any other kind is left
   * alone and true is reported. The waypoint is written only when some
   * element is outside its limits.
   */
  method ClampToJointLimits(wp: WaypointRef, limits: seq<Limit>) returns (ok: bool)
    modifies wp
    ensures ok <==> !HasJointPosition(old(wp.value)) || |limits| == |old(wp.value).position|
    ensures !ok || !HasJointPosition(old(wp.value)) ==> wp.value == old(wp.value)
    ensures ok && HasJointPosition(old(wp.value)) ==>
              wp.value == old(wp.value).(position := Clamp(old(wp.value).position, limits))
    ensures ok && HasJointPosition(old(wp.value)) && WithinLimits(old(wp.value).position, limits) ==>
              wp.value == old(wp.value)
  {
    if HasJointPosition(wp.value) {
      var cmdPos := GetJointPosition(wp.value).value;
      if |limits| != |cmdPos| {
        return false;
      }
      ClampKeepsWithin(cmdPos, limits);
      var adjustPosition := false;
      if exists i :: 0 <= i < |cmdPos| && limits[i].lower > cmdPos[i] {
        adjustPosition := true;
      }
      if exists i :: 0 <= i < |cmdPos| && limits[i].upper < cmdPos[i] {
        adjustPosition := true;
      }
      if adjustPosition {
        var newPosition := Clamp(cmdPos, limits);
        ok := SetJointPosition(wp, newPosition);
        return;
      }
      assert WithinLimits(cmdPos, limits);
    }
    return true;
  }

  // ---------------------------------------------------------------------------
  // Skeleton seed
  // ---------------------------------------------------------------------------

  /**
   * What the seed rewrite makes of one instruction: a plan instruction becomes
   * an empty composite with its profile, description and manipulator; a
   * composite keeps its own attributes and has each child rewritten in place;
   * anything else is kept.
   */
  function SkeletonOf(i: Instruction): Instruction
  {
    match i
    case Composite(p, d, m, o, cs) =>
      Composite(p, d, m, o, seq(|cs|, k requires 0 <= k < |cs| => SkeletonOf(cs[k])))
    case Plan(_, p, d, m) => Composite(p, d, m, DefaultOrder, [])
    case Other(_, _) => i
  }

  /**
   * Rewrites every child of `composite` in place, recursing into nested
   * composites, and gives back the rewritten composite.
   */
  method GenerateSkeletonSeedHelper(composite: CompositeInstruction) returns (seeded: CompositeInstruction)
    ensures seeded == SkeletonOf(composite)
    decreases composite
  {
    var children := composite.children;
    var k := 0;
    while k < |children|
      invariant 0 <= k <= |children| == |composite.children|
      invariant forall m :: 0 <= m < k ==> children[m] == SkeletonOf(composite.children[m])
      invariant forall m :: k <= m < |children| ==> children[m] == composite.children[m]
    {
      var i := children[k];
      if i.Composite? {
        i := GenerateSkeletonSeedHelper(i);
      } else if i.Plan? {
        i := Composite(i.profile, i.description, i.info, DefaultOrder, []);
      }
      children := children[k := i];
      k := k + 1;
    }
    seeded := composite.(children := children);
  }

  /** Nested child counts: the shape of an instruction tree. Leaves have no children. */
  datatype Shape = Shape(children: seq<Shape>)

  function ShapeOf(i: Instruction): Shape
  {
    match i
    case Composite(_, _, _, _, cs) => Shape(seq(|cs|, k requires 0 <= k < |cs| => ShapeOf(cs[k])))
    case _ => Shape([])
  }

  /** No plan instruction at any depth. */
  predicate PlanFree(i: Instruction)
  {
    match i
    case Composite(_, _, _, _, cs) => forall k :: 0 <= k < |cs| ==> PlanFree(cs[k])
    case Plan(_, _, _, _) => false
    case Other(_, _) => true
  }

  /** The rewrite keeps the child count at every level. */
  lemma {:induction false} SkeletonKeepsShape(i: Instruction)
    ensures ShapeOf(SkeletonOf(i)) == ShapeOf(i)
  {
    match i
    case Composite(p, d, m, o, cs) =>
      forall k | 0 <= k < |cs| ensures ShapeOf(SkeletonOf(cs[k])) == ShapeOf(cs[k]) {
        SkeletonKeepsShape(cs[k]);
      }
    case Plan(_, _, _, _) =>
    case Other(_, _) =>
  }

  /** The rewrite leaves no plan instruction anywhere. */
  lemma {:induction false} SkeletonIsPlanFree(i: Instruction)
    ensures PlanFree(SkeletonOf(i))
  {
    match i
    case Composite(p, d, m, o, cs) =>
      forall k | 0 <= k < |cs| ensures PlanFree(SkeletonOf(cs[k])) {
        SkeletonIsPlanFree(cs[k]);
      }
    case Plan(_, _, _, _) =>
    case Other(_, _) =>
  }

  /** A tree without plan instructions is left exactly as it is. */
  lemma {:induction false} PlanFreeIsFixpoint(i: Instruction)
    requires PlanFree(i)
    ensures SkeletonOf(i) == i
  {
    match i
    case Composite(p, d, m, o, cs) =>
      forall k | 0 <= k < |cs| ensures SkeletonOf(cs[k]) == cs[k] {
        PlanFreeIsFixpoint(cs[k]);
      }
      assert seq(|cs|, k requires 0 <= k < |cs| => SkeletonOf(cs[k])) == cs;
    case Other(_, _) =>
  }

  /** Seeding a seed changes nothing. */
  lemma SkeletonIdempotent(i: Instruction)
    ensures SkeletonOf(SkeletonOf(i)) == SkeletonOf(i)
  {
    SkeletonIsPlanFree(i);
    PlanFreeIsFixpoint(SkeletonOf(i));
  }

  /**
   * Node by node: at every path, a plan instruction of the original becomes
   * an empty composite with the same profile, description and manipulator,
   * another non-composite is kept as it was, a composite keeps its attributes
   * and its number of children, and a path leaving the original leaves the
   * seed too.
   */
  lemma {:induction false} SkeletonAt(i: Instruction, path: seq<nat>)
    ensures match At(i, path)
      case None => At(SkeletonOf(i), path) == None
      case Some(Plan(_, p, d, m)) => At(SkeletonOf(i), path) == Some(Composite(p, d, m, DefaultOrder, []))
      case Some(Other(kind, d)) => At(SkeletonOf(i), path) == Some(Other(kind, d))
      case Some(Composite(p, d, m, o, cs)) =>
        && At(SkeletonOf(i), path).Some?
        && At(SkeletonOf(i), path).value.Composite?
        && At(SkeletonOf(i), path).value.(children := cs) == Composite(p, d, m, o, cs)
        && |At(SkeletonOf(i), path).value.children| == |cs|
    decreases |path|
  {
    if path != [] && i.Composite? && path[0] < |i.children| {
      SkeletonAt(i.children[path[0]], path[1..]);
    }
  }

  /**
   * Seeds a copy of `composite`: the caller's value is not touched, the
   * result has no plan instruction left and the same shape as the input.
   */
  method GenerateSkeletonSeed(composite: CompositeInstruction) returns (seed: CompositeInstruction)
    ensures seed == SkeletonOf(composite)
    ensures PlanFree(seed) && ShapeOf(seed) == ShapeOf(composite)
  {
    var copy := composite;
    seed := GenerateSkeletonSeedHelper(copy);
    SkeletonIsPlanFree(composite);
    SkeletonKeepsShape(composite);
  }
}
