/** The simulation state the leaf behaviours act on: the robot and the list of
    plants. Both are created once by the driver and shared by every leaf. */
module Garden {
  import opened Wrappers

  /** The multi-tick job a leaf has committed the robot to (`active_task`). */
  datatype Task = Charging | Refilling | Watering

  datatype Point = Point(x: real, y: real)

  /** Position and heading (radians) of the robot. */
  datatype Pose = Pose(x: real, y: real, theta: real)

  /** One plant record: position, thirst (0 to 100) and the time it was last
      watered, if ever. */
  datatype Plant = Plant(x: real, y: real, thirst: real, lastWatered: Option<real>)

  /** The robot fields the behaviours read and write. `target` is the index, in
      the plant list, of the plant being serviced. */
  datatype RobotState = RobotState(
    pose: Pose,
    battery: real,
    water: real,
    target: Option<nat>,
    activeTask: Option<Task>,
    action: string)

  datatype World = World(robot: RobotState, plants: seq<Plant>)

  /** The target always names one of the plants. */
  predicate TargetInRange(r: RobotState, plants: seq<Plant>) {
    r.target.Some? ==> r.target.value < |plants|
  }

  predicate WorldValid(w: World) {
    TargetInRange(w.robot, w.plants)
  }

  /** Battery, water and every thirst lie between 0 and 100. */
  predicate Bounded(w: World) {
    && 0.0 <= w.robot.battery <= 100.0
    && 0.0 <= w.robot.water <= 100.0
    && forall i :: 0 <= i < |w.plants| ==> 0.0 <= w.plants[i].thirst <= 100.0
  }

  /** The robot, whose fields the leaf behaviours update in place. */
  class Robot {
    var x: real
    var y: real
    var theta: real
    var battery: real
    var water: real
    var target: Option<nat>
    var activeTask: Option<Task>
    var action: string

    function State(): RobotState
      reads this
    {
      RobotState(Pose(x, y, theta), battery, water, target, activeTask, action)
    }

    /** A robot at (x, y), facing angle 0, fully charged and full of water,
        with no target and no task. */
    constructor (x: real, y: real)
      ensures State() == RobotState(Pose(x, y, 0.0), 100.0, 100.0, None, None, "Idle")
    {
      this.x, this.y := x, y;
      theta := 0.0;
      battery := 100.0;
      water := 100.0;
      target := None;
      action := "Idle";
      activeTask := None;
    }
  }
}
