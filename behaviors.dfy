/** The leaf behaviours of the watering robot. Each leaf's tick is given twice:
    as a step function on the state values, which states what the tick does,
    and as a class holding references to the shared robot and plant list, whose
    Tick method updates them in place and is proved to follow that function. */
module Behaviors {
  import opened Wrappers
  import opened BehaviorTree
  import opened Garden

  /** Thirst from which a plant needs water (`NEED_THIRST`). */
  const NeedThirst: real := 30.0
  /** A full battery or tank. */
  const Full: real := 100.0
  const ChargeRate: real := 1.5
  const RefillRate: real := 2.0
  const WaterUse: real := 0.6
  const ThirstRelief: real := 2.0
  /** Thirst at or below which watering is finished. */
  const Quenched: real := 5.0

  function Min(a: real, b: real): real { if a <= b then a else b }
  function Max(a: real, b: real): real { if a >= b then a else b }

  /** What a leaf tick returns, with the state it leaves behind. */
  datatype Step<S> = Step(status: Status, next: S)

  /** The outcome of one call of the robot's steering step: it has arrived
      (within tolerance; it does not move), or it turned or drove to a new pose. */
  datatype Arrival = Arrived | Stepped(pose: Pose)

  /** The steering step `move_towards(target, tolerance)`, given as an oracle. */
  type Mover = (Pose, Point, real) -> Arrival

  /** `active_task` after a leaf claims `task`: set only if nothing was claimed. */
  function Claim(current: Option<Task>, task: Task): (r: Option<Task>)
    ensures current.Some? ==> r == current
    ensures current.None? ==> r == Some(task)
  {
    if current.None? then Some(task) else current
  }

  // ---------------------------------------------------------------- MoveTo

  /** One MoveTo tick, where `target` is what the target provider yields now. */
  function MoveToStep(r: RobotState, target: Option<Point>, tolerance: real, move: Mover): (s: Step<RobotState>)
    ensures s.status == Failure <==> target.None?
    ensures s.status == Success <==> target.Some? && move(r.pose, target.value, tolerance).Arrived?
    // no provider value, or arrival: the robot does not move at all
    ensures s.status != Running ==> s.next == r
    // otherwise it takes the steering step, which changes only position and heading
    ensures s.status == Running ==> s.next == r.(pose := move(r.pose, target.value, tolerance).pose)
  {
    match target
    case None => Step(Failure, r)
    case Some(p) =>
      match move(r.pose, p, tolerance)
      case Arrived => Step(Success, r)
      case Stepped(q) => Step(Running, r.(pose := q))
  }

  // ------------------------------------------------------ Recharge, Refill

  /** One Recharge tick. */
  function RechargeStep(r: RobotState): (s: Step<RobotState>)
    ensures s.status != Failure
    ensures s.next.battery == Min(Full, r.battery + ChargeRate) && s.next.battery <= Full
    ensures s.status == Success <==> s.next.battery == Full
    ensures s.status == Success ==> s.next.activeTask == None && s.next.target == None
    ensures s.status == Running ==> s.next.activeTask == Claim(r.activeTask, Charging) && s.next.target == r.target
    ensures s.next.pose == r.pose && s.next.water == r.water && s.next.action == "Recharging"
  {
    var battery := Min(Full, r.battery + ChargeRate);
    var charging := r.(activeTask := Claim(r.activeTask, Charging), action := "Recharging", battery := battery);
    if battery >= Full then Step(Success, charging.(activeTask := None, target := None))
    else Step(Running, charging)
  }

  /** One Refill tick. */
  function RefillStep(r: RobotState): (s: Step<RobotState>)
    ensures s.status != Failure
    ensures s.next.water == Min(Full, r.water + RefillRate) && s.next.water <= Full
    ensures s.status == Success <==> s.next.water == Full
    ensures s.status == Success ==> s.next.activeTask == None && s.next.target == None
    ensures s.status == Running ==> s.next.activeTask == Claim(r.activeTask, Refilling) && s.next.target == r.target
    ensures s.next.pose == r.pose && s.next.battery == r.battery && s.next.action == "Refilling Water"
  {
    var water := Min(Full, r.water + RefillRate);
    var refilling := r.(activeTask := Claim(r.activeTask, Refilling), action := "Refilling Water", water := water);
    if water >= Full then Step(Success, refilling.(activeTask := None, target := None))
    else Step(Running, refilling)
  }

  /** The state after up to n Recharge ticks in a row, stopping at the first
      that does not return RUNNING. */
  function RechargeTicks(r: RobotState, n: nat): Step<RobotState>
    decreases n
  {
    var s := RechargeStep(r);
    if n <= 1 || s.status != Running then s else RechargeTicks(s.next, n - 1)
  }

  /** Recharge has no failing path: ticked often enough it reaches a full
      battery and succeeds, clearing the task and the target. */
  lemma {:induction false} RechargeCompletes(r: RobotState, n: nat)
    requires n >= 1 && r.battery + ChargeRate * (n as real) >= Full
    ensures RechargeTicks(r, n).status == Success
    ensures RechargeTicks(r, n).next.battery == Full
    ensures RechargeTicks(r, n).next.activeTask == None && RechargeTicks(r, n).next.target == None
    decreases n
  {
    var s := RechargeStep(r);
    if n > 1 && s.status == Running {
      assert s.next.battery == r.battery + ChargeRate;
      RechargeCompletes(s.next, n - 1);
    }
  }

  /** The state after up to n Refill ticks in a row, stopping at the first
      that does not return RUNNING. */
  function RefillTicks(r: RobotState, n: nat): Step<RobotState>
    decreases n
  {
    var s := RefillStep(r);
    if n <= 1 || s.status != Running then s else RefillTicks(s.next, n - 1)
  }

  /** Refill has no failing path: ticked often enough it fills the tank and
      succeeds, clearing the task and the target. */
  lemma {:induction false} RefillCompletes(r: RobotState, n: nat)
    requires n >= 1 && r.water + RefillRate * (n as real) >= Full
    ensures RefillTicks(r, n).status == Success
    ensures RefillTicks(r, n).next.water == Full
    ensures RefillTicks(r, n).next.activeTask == None && RefillTicks(r, n).next.target == None
    decreases n
  {
    var s := RefillStep(r);
    if n > 1 && s.status == Running {
      assert s.next.water == r.water + RefillRate;
      RefillCompletes(s.next, n - 1);
    }
  }

  // ---------------------------------------------------------- FindDryPlant

  predicate Dry(p: Plant) {
    p.thirst >= NeedThirst
  }

  /** Plant k is dry, no plant among the first n is thirstier, and every plant
      before k is strictly less thirsty (the first maximum in list order). */
  predicate FirstMostThirsty(plants: seq<Plant>, n: nat, k: nat) {
    && k < n <= |plants|
    && Dry(plants[k])
    && (forall j :: 0 <= j < n ==> plants[j].thirst <= plants[k].thirst)
    && (forall j :: 0 <= j < k ==> plants[j].thirst < plants[k].thirst)
  }

  /** The left-to-right scan behind `max(dry, key=thirst)` over the dry plants:
      `best` is the choice among the first i plants; a later plant replaces it
      only when strictly thirstier. */
  function ScanDry(plants: seq<Plant>, i: nat, best: Option<nat>): (r: Option<nat>)
    requires i <= |plants|
    requires best.None? ==> forall j :: 0 <= j < i ==> !Dry(plants[j])
    requires best.Some? ==> FirstMostThirsty(plants, i, best.value)
    ensures r.None? <==> forall j :: 0 <= j < |plants| ==> !Dry(plants[j])
    ensures r.Some? ==> FirstMostThirsty(plants, |plants|, r.value)
    decreases |plants| - i
  {
    if i == |plants| then best
    else if Dry(plants[i]) && (best.None? || plants[i].thirst > plants[best.value].thirst) then
      assert forall j :: 0 <= j < i ==> plants[j].thirst < plants[i].thirst by {
        forall j | 0 <= j < i
          ensures plants[j].thirst < plants[i].thirst
        {
          if best.Some? {
            assert plants[j].thirst <= plants[best.value].thirst;
          } else {
            assert !Dry(plants[j]);
          }
        }
      }
      ScanDry(plants, i + 1, Some(i))
    else
      ScanDry(plants, i + 1, best)
  }

  /** The plant FindDryPlant chooses: the first of the thirstiest dry plants,
      or none when no plant is dry. */
  function MostThirsty(plants: seq<Plant>): (r: Option<nat>)
    ensures r.None? <==> forall j :: 0 <= j < |plants| ==> !Dry(plants[j])
    ensures r.Some? ==> FirstMostThirsty(plants, |plants|, r.value)
  {
    ScanDry(plants, 0, None)
  }

  /** One FindDryPlant tick. Plants are only read. */
  function FindDryPlantStep(r: RobotState, plants: seq<Plant>): (s: Step<RobotState>)
    requires TargetInRange(r, plants)
    ensures TargetInRange(s.next, plants)
    ensures s.status != Running
    // only the target and the task marker can change
    ensures s.next == r.(target := s.next.target, activeTask := s.next.activeTask)
    // a target that is still dry is kept
    ensures r.target.Some? && Dry(plants[r.target.value]) ==> s.status == Success && s.next.target == r.target
    // failure exactly when no plant is dry, and then the target is dropped
    ensures s.status == Failure <==> forall j :: 0 <= j < |plants| ==> !Dry(plants[j])
    ensures s.status == Failure ==> s.next == r.(target := None)
    // otherwise the new target is the first thirstiest plant, and the robot commits to watering
    ensures s.status == Success && !(r.target.Some? && Dry(plants[r.target.value])) ==>
              s.next.target.Some? && FirstMostThirsty(plants, |plants|, s.next.target.value)
    ensures s.status == Success ==>
              s.next.target.Some? && Dry(plants[s.next.target.value]) && s.next.activeTask == Claim(r.activeTask, Watering)
  {
    if r.target.Some? && Dry(plants[r.target.value]) then
      Step(Success, r.(activeTask := Claim(r.activeTask, Watering)))
    else
      match MostThirsty(plants)
      case None => Step(Failure, r.(target := None))
      case Some(k) => Step(Success, r.(target := Some(k), activeTask := Claim(r.activeTask, Watering)))
  }

  // ----------------------------------------------------------------- Water

  /** One Water tick at time `now`. */
  function WaterStep(w: World, now: real): (s: Step<World>)
    requires WorldValid(w)
    ensures WorldValid(s.next) && |s.next.plants| == |w.plants|
    // no target: nothing happens
    ensures w.robot.target.None? ==> s == Step(Failure, w)
    // a target: the tank drains, and no plant but the target changes
    ensures w.robot.target.Some? ==>
              && s.next.robot.water == Max(0.0, w.robot.water - WaterUse)
              && s.next.robot.pose == w.robot.pose && s.next.robot.battery == w.robot.battery
              && s.next.robot.action == "Watering"
              && forall j :: 0 <= j < |w.plants| && j != w.robot.target.value ==> s.next.plants[j] == w.plants[j]
    // done when the target's thirst falls to 5 or below: snapped to 0, stamped, released
    ensures w.robot.target.Some? ==>
              var t := w.robot.target.value;
              (s.status == Success <==> Max(0.0, w.plants[t].thirst - ThirstRelief) <= Quenched)
    ensures s.status == Success ==>
              && w.robot.target.Some?
              && s.next.plants[w.robot.target.value] == w.plants[w.robot.target.value].(thirst := 0.0, lastWatered := Some(now))
              && s.next.robot.target == None && s.next.robot.activeTask == None
    // otherwise the target's thirst drops by 2 (not below 0), and the target is kept
    ensures w.robot.target.Some? && s.status != Success ==>
              var t := w.robot.target.value;
              && s.next.plants[t] == w.plants[t].(thirst := Max(0.0, w.plants[t].thirst - ThirstRelief))
              && s.next.robot.target == w.robot.target
    // out of water only matters when watering is not done; it releases the task
    ensures w.robot.target.Some? && s.status != Success ==>
              (s.status == Failure <==> s.next.robot.water <= 0.0)
    ensures w.robot.target.Some? && s.status == Failure ==> s.next.robot.activeTask == None
    ensures s.status == Running ==> s.next.robot.activeTask == w.robot.activeTask
  {
    match w.robot.target
    case None => Step(Failure, w)
    case Some(t) =>
      var robot := w.robot.(action := "Watering", water := Max(0.0, w.robot.water - WaterUse));
      var thirst := Max(0.0, w.plants[t].thirst - ThirstRelief);
      if thirst <= Quenched then
        Step(Success, World(robot.(activeTask := None, target := None),
                            w.plants[t := w.plants[t].(thirst := 0.0, lastWatered := Some(now))]))
      else
        var plants := w.plants[t := w.plants[t].(thirst := thirst)];
        if robot.water <= 0.0 then Step(Failure, World(robot.(activeTask := None), plants))
        else Step(Running, World(robot, plants))
  }

  // ------------------------------------------------------ AllPlantsWatered

  /** One AllPlantsWatered tick. */
  function AllPlantsWateredStep(plants: seq<Plant>): (s: Status)
    ensures s != Running
    ensures s == Success <==> forall j :: 0 <= j < |plants| ==> plants[j].thirst < NeedThirst
  {
    if forall j :: 0 <= j < |plants| ==> plants[j].thirst < NeedThirst then Success else Failure
  }

  /** The garden counts as watered exactly when FindDryPlant finds nothing to do. */
  lemma WateredIffNothingToFind(r: RobotState, plants: seq<Plant>)
    requires TargetInRange(r, plants)
    ensures AllPlantsWateredStep(plants) == Success <==> FindDryPlantStep(r, plants).status == Failure
  {
  }

  // -------------------------------------------------------------- examples

  /** A robot at the origin with the given battery, water and target, and no task. */
  function Sample(battery: real, water: real, target: Option<nat>): RobotState {
    RobotState(Pose(0.0, 0.0, 0.0), battery, water, target, None, "Idle")
  }

  function Pot(thirst: real): Plant {
    Plant(0.0, 0.0, thirst, None)
  }

  /** Of plants with thirst 10, 35 and 40 the one with thirst 40 is chosen; a
      held target whose thirst has fallen to 25 is dropped for it. */
  lemma FindDryPlantExamples()
    ensures FindDryPlantStep(Sample(50.0, 50.0, None), [Pot(10.0), Pot(35.0), Pot(40.0)])
         == Step(Success, Sample(50.0, 50.0, Some(2)).(activeTask := Some(Watering)))
    ensures FindDryPlantStep(Sample(50.0, 50.0, Some(0)), [Pot(25.0), Pot(35.0), Pot(40.0)])
         == Step(Success, Sample(50.0, 50.0, Some(2)).(activeTask := Some(Watering)))
  {
    var a := [Pot(10.0), Pot(35.0), Pot(40.0)];
    assert ScanDry(a, 3, Some(2)) == Some(2);
    assert ScanDry(a, 1, None) == ScanDry(a, 2, Some(1));
    var b := [Pot(25.0), Pot(35.0), Pot(40.0)];
    assert ScanDry(b, 3, Some(2)) == Some(2);
    assert ScanDry(b, 1, None) == ScanDry(b, 2, Some(1));
  }

  /** Watering a plant at thirst 6 brings it to 4, which finishes the job. */
  lemma WaterFinishesExample(now: real)
    ensures var s := WaterStep(World(Sample(50.0, 50.0, Some(0)), [Pot(6.0)]), now);
            && s.status == Success
            && s.next.plants == [Plant(0.0, 0.0, 0.0, Some(now))]
            && s.next.robot.target == None && s.next.robot.activeTask == None
  {
  }

  /** With 0.5 water left the tank runs dry before the plant is done: FAILURE,
      task released, target kept. */
  lemma WaterRunsDryExample(now: real)
    ensures var w := World(Sample(50.0, 0.5, Some(0)).(activeTask := Some(Watering)), [Pot(20.0)]);
            var s := WaterStep(w, now);
            && s.status == Failure
            && s.next.robot.water == 0.0 && s.next.plants == [Pot(18.0)]
            && s.next.robot.activeTask == None && s.next.robot.target == Some(0)
  {
  }

  /** A battery at 99 is full after one Recharge tick. */
  lemma RechargeExample()
    ensures RechargeStep(Sample(99.0, 50.0, Some(1)))
         == Step(Success, Sample(100.0, 50.0, None).(action := "Recharging"))
  {
  }

  // ------------------------------------------------- the leaves as objects

  /** Drives the robot towards what `targetGetter` yields, re-read every tick. */
  class MoveTo {
    const robot: Robot
    const plants: array<Plant>
    const targetGetter: (RobotState, seq<Plant>) -> Option<Point>
    const tolerance: real

    constructor (robot: Robot, plants: array<Plant>, targetGetter: (RobotState, seq<Plant>) -> Option<Point>, tolerance: real := 6.0)
      ensures this.robot == robot && this.plants == plants
      ensures this.targetGetter == targetGetter && this.tolerance == tolerance
    {
      this.robot := robot;
      this.plants := plants;
      this.targetGetter := targetGetter;
      this.tolerance := tolerance;
    }

    method Tick(move: Mover) returns (status: Status)
      modifies robot
      ensures Step(status, robot.State())
           == MoveToStep(old(robot.State()), targetGetter(old(robot.State()), plants[..]), tolerance, move)
    {
      var tgt := targetGetter(robot.State(), plants[..]);
      if tgt.None? {
        return Failure;
      }
      var arrival := move(robot.State().pose, tgt.value, tolerance);
      if arrival.Arrived? {
        return Success;
      }
      robot.x, robot.y, robot.theta := arrival.pose.x, arrival.pose.y, arrival.pose.theta;
      return Running;
    }
  }

  class Recharge {
    const robot: Robot

    constructor (robot: Robot)
      ensures this.robot == robot
    {
      this.robot := robot;
    }

    method Tick() returns (status: Status)
      modifies robot
      ensures Step(status, robot.State()) == RechargeStep(old(robot.State()))
    {
      if robot.activeTask.None? {
        robot.activeTask := Some(Charging);
      }
      robot.action := "Recharging";
      robot.battery := Min(Full, robot.battery + ChargeRate);
      if robot.battery >= Full {
        robot.activeTask := None;
        robot.target := None;
        return Success;
      }
      return Running;
    }
  }

  class Refill {
    const robot: Robot

    constructor (robot: Robot)
      ensures this.robot == robot
    {
      this.robot := robot;
    }

    method Tick() returns (status: Status)
      modifies robot
      ensures Step(status, robot.State()) == RefillStep(old(robot.State()))
    {
      if robot.activeTask.None? {
        robot.activeTask := Some(Refilling);
      }
      robot.action := "Refilling Water";
      robot.water := Min(Full, robot.water + RefillRate);
      if robot.water >= Full {
        robot.activeTask := None;
        robot.target := None;
        return Success;
      }
      return Running;
    }
  }

  class FindDryPlant {
    const robot: Robot
    const plants: array<Plant>

    constructor (robot: Robot, plants: array<Plant>)
      ensures this.robot == robot && this.plants == plants
    {
      this.robot := robot;
      this.plants := plants;
    }

    method Tick() returns (status: Status)
      requires TargetInRange(robot.State(), plants[..])
      modifies robot
      ensures TargetInRange(robot.State(), plants[..])
      ensures Step(status, robot.State()) == FindDryPlantStep(old(robot.State()), plants[..])
    {
      if robot.target.Some? {
        if plants[robot.target.value].thirst >= NeedThirst {
          if robot.activeTask.None? {
            robot.activeTask := Some(Watering);
          }
          return Success;
        } else {
          robot.target := None;
        }
      }
      var chosen := MostThirsty(plants[..]);
      if chosen.None? {
        return Failure;
      }
      robot.target := chosen;
      if robot.activeTask.None? {
        robot.activeTask := Some(Watering);
      }
      return Success;
    }
  }

  class Water {
    const robot: Robot
    const plants: array<Plant>

    constructor (robot: Robot, plants: array<Plant>)
      ensures this.robot == robot && this.plants == plants
    {
      this.robot := robot;
      this.plants := plants;
    }

    /** `now` is the clock reading stamped on a plant when watering finishes. */
    method Tick(now: real) returns (status: Status)
      requires TargetInRange(robot.State(), plants[..])
      modifies robot, plants
      ensures TargetInRange(robot.State(), plants[..])
      ensures Step(status, World(robot.State(), plants[..]))
           == WaterStep(World(old(robot.State()), old(plants[..])), now)
    {
      if robot.target.None? {
        return Failure;
      }
      var t := robot.target.value;
      robot.action := "Watering";
      robot.water := Max(0.0, robot.water - WaterUse);
      plants[t] := plants[t].(thirst := Max(0.0, plants[t].thirst - ThirstRelief));
      if plants[t].thirst <= Quenched {
        plants[t] := plants[t].(thirst := 0.0);
        plants[t] := plants[t].(lastWatered := Some(now));
        assert plants[..] == old(plants[..])[t := old(plants[t]).(thirst := 0.0, lastWatered := Some(now))];
        robot.activeTask := None;
        robot.target := None;
        return Success;
      }
      if robot.water <= 0.0 {
        robot.activeTask := None;
        return Failure;
      }
      return Running;
    }
  }

  class AllPlantsWatered {
    const plants: array<Plant>

    constructor (plants: array<Plant>)
      ensures this.plants == plants
    {
      this.plants := plants;
    }

    method Tick() returns (status: Status)
      ensures status == AllPlantsWateredStep(plants[..])
    {
      if forall j :: 0 <= j < plants.Length ==> plants[j].thirst < NeedThirst {
        return Success;
      }
      return Failure;
    }
  }
}
