/**
 * The command-language values that the planning utilities and the raster
 * process manager work on: waypoints, instructions and the composite
 * instruction tree. The type-erased `Instruction` and `Waypoint` wrappers of
 * the original become closed datatypes, so every `isXxx(...)` test becomes a
 * discriminator and every cast a field access.
 */
module CommandLanguage {

  /** A value or the exception the original throws instead of returning. */
  datatype Outcome<+T> = Value(value: T) | Exception(what: string)

  datatype Option<+T> = None | Some(value: T)

  /** The order attribute of a composite; only `Unordered` is ever tested for. */
  datatype Order = Ordered | Unordered | OrderedAndReversible

  /** Which manipulator an instruction targets; carried along, never inspected. */
  datatype ManipulatorInfo = ManipulatorInfo(manipulator: string, workingFrame: string, tcp: string)

  /** A joint-space vector, a full joint state, a Cartesian pose, or no waypoint. */
  datatype Waypoint =
    | JointWp(jointNames: seq<string>, position: seq<real>)
    | StateWp(jointNames: seq<string>, position: seq<real>, velocity: seq<real>,
              acceleration: seq<real>, time: real)
    | CartesianWp(pose: seq<real>)
    | NullWp

  /** The two waypoint kinds that carry a joint position vector. */
  predicate HasJointPosition(wp: Waypoint)
  {
    wp.JointWp? || wp.StateWp?
  }

  /**
   * An instruction: a composite (an ordered or unordered group of child
   * instructions with a profile, a description and a manipulator), a plan
   * instruction (a planning directive towards one waypoint), or any other kind
   * (move, wait, null, ...), which the code here only copies.
   */
  datatype Instruction =
    | Composite(profile: string, description: string, info: ManipulatorInfo,
                order: Order, children: seq<Instruction>)
    | Plan(waypoint: Waypoint, profile: string, description: string, info: ManipulatorInfo)
    | Other(kind: string, description: string)

  /** The C++ `CompositeInstruction` type. */
  type CompositeInstruction = i: Instruction | i.Composite?
    witness Composite("", "", ManipulatorInfo("", "", ""), Ordered, [])

  /** The order a default-constructed `CompositeInstruction` carries. */
  const DefaultOrder: Order := Ordered

  /**
   * The node reached from `i` by following the child indices in `path`, or
   * `None` when the path leaves the tree.
   */
  function At(i: Instruction, path: seq<nat>): Option<Instruction>
    decreases |path|
  {
    if path == [] then Some(i)
    else if i.Composite? && path[0] < |i.children| then At(i.children[path[0]], path[1..])
    else None
  }
}
