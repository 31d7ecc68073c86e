/** The robot's root policy as one behavior tree, and a tick of a whole tree.
    Here a tree is a value: each composite carries its own cursor, and a tick
    returns the status, the tree with its updated cursors and the new world.
    The leaves act through the step functions of module Behaviors. */
module Policy {
  import opened Wrappers
  import opened BehaviorTree
  import opened Garden
  import Behaviors

  /** The charging and water stations, at (120, HEIGHT - 120) and
      (WIDTH - 140, HEIGHT - 120) in a 1000 x 600 garden. */
  const ChargingStation: Point := Point(120.0, 480.0)
  const WaterStation: Point := Point(860.0, 480.0)
  /** The arrival radius MoveTo uses unless told otherwise. */
  const DefaultTolerance: real := 6.0
  /** Battery or water below this level counts as low. */
  const LowLevel: real := 20.0

  /** The predicates of the policy's Condition nodes. */
  datatype Check = LowBattery | LowWater

  /** The target providers of the policy's MoveTo nodes. */
  datatype Goal = ToCharger | ToWaterStation | ToTarget

  datatype Leaf =
    | MoveToLeaf(goal: Goal, tolerance: real)
    | RechargeLeaf
    | RefillLeaf
    | FindDryPlantLeaf
    | WaterLeaf
    | AllPlantsWateredLeaf

  datatype Node =
    | Composite(kind: Kind, kids: seq<Node>, current: nat)
    | Repeater(child: Node)
    | Condition(check: Check)
    | Action(leaf: Leaf)

  /** What a tick needs from outside the tree: the clock reading and the
      robot's steering step. */
  datatype Env = Env(now: real, move: Behaviors.Mover)

  datatype NodeStep = NodeStep(status: Status, node: Node, world: World)

  /** A pass over a composite's children: its status, the children afterwards,
      the cursor it leaves, the new world, and the statuses of the children it
      ticked, in order. */
  datatype KidsStep = KidsStep(status: Status, kids: seq<Node>, cursor: nat, world: World, results: seq<Status>)

  function Holds(check: Check, r: RobotState): bool {
    match check
    case LowBattery => r.battery < LowLevel
    case LowWater => r.water < LowLevel
  }

  /** What a MoveTo's target provider yields: a station, or the position of
      the target plant when there is one. */
  function GoalPoint(goal: Goal, w: World): Option<Point>
    requires WorldValid(w)
  {
    match goal
    case ToCharger => Some(ChargingStation)
    case ToWaterStation => Some(WaterStation)
    case ToTarget =>
      match w.robot.target
      case None => None
      case Some(t) => Some(Point(w.plants[t].x, w.plants[t].y))
  }

  function LeafTick(leaf: Leaf, w: World, env: Env): (s: Behaviors.Step<World>)
    requires WorldValid(w)
    ensures WorldValid(s.next) && |s.next.plants| == |w.plants|
  {
    match leaf
    case MoveToLeaf(goal, tolerance) =>
      var m := Behaviors.MoveToStep(w.robot, GoalPoint(goal, w), tolerance, env.move);
      Behaviors.Step(m.status, w.(robot := m.next))
    case RechargeLeaf =>
      var m := Behaviors.RechargeStep(w.robot);
      Behaviors.Step(m.status, w.(robot := m.next))
    case RefillLeaf =>
      var m := Behaviors.RefillStep(w.robot);
      Behaviors.Step(m.status, w.(robot := m.next))
    case FindDryPlantLeaf =>
      var m := Behaviors.FindDryPlantStep(w.robot, w.plants);
      Behaviors.Step(m.status, w.(robot := m.next))
    case WaterLeaf =>
      Behaviors.WaterStep(w, env.now)
    case AllPlantsWateredLeaf =>
      Behaviors.Step(Behaviors.AllPlantsWateredStep(w.plants), w)
  }

  /** One tick of a tree. */
  function Tick(n: Node, w: World, env: Env): (t: NodeStep)
    requires WorldValid(w)
    ensures WorldValid(t.world) && |t.world.plants| == |w.plants|
    // a composite keeps its children, and its cursor is off 0 only while RUNNING
    ensures n.Composite? ==>
              && t.node.Composite? && t.node.kind == n.kind && |t.node.kids| == |n.kids|
              && (t.node.current != 0 ==> t.status == Running && t.node.current < |n.kids|)
    ensures n.Repeater? ==> t.node.Repeater? && t.status == Running
    // leaves and conditions hold no state of their own
    ensures n.Condition? || n.Action? ==> t.node == n
    decreases n, 1
  {
    match n
    case Composite(kind, kids, current) =>
      var r := TickKids(kind, kids, current, w, env);
      NodeStep(r.status, Composite(kind, r.kids, r.cursor), r.world)
    case Repeater(child) =>
      var c := Tick(child, w, env);
      NodeStep(RepeaterTick(c.status), Repeater(c.node), c.world)
    case Condition(check) =>
      NodeStep(ConditionTick(Holds(check, w.robot)), n, w)
    case Action(leaf) =>
      var s := LeafTick(leaf, w, env);
      NodeStep(s.status, n, s.next)
  }

  /** The loop of Sequence.tick and Selector.tick, resumed at child i. */
  function TickKids(kind: Kind, kids: seq<Node>, i: nat, w: World, env: Env): (r: KidsStep)
    requires WorldValid(w)
    ensures WorldValid(r.world) && |r.world.plants| == |w.plants|
    ensures |r.kids| == |kids|
    ensures r.cursor != 0 ==> r.status == Running && r.cursor < |kids|
    ensures r.results == [] <==> i >= |kids|
    // children the pass did not reach are left as they were
    ensures forall j :: 0 <= j < |kids| && !(i <= j < i + |r.results|) ==> r.kids[j] == kids[j]
    // the record starts with what the child at i returned, and every child before
    // the last one recorded advanced; a RUNNING or decisive pass ends on that child
    ensures i < |kids| ==> r.results[0] == Tick(kids[i], w, env).status
    ensures forall k :: 0 <= k < |r.results| - 1 ==> r.results[k] == Advancing(kind)
    ensures r.status != Advancing(kind) ==> r.results != [] && r.results[|r.results| - 1] == r.status
    decreases kids, |kids| - i
  {
    if i >= |kids| then
      KidsStep(Advancing(kind), kids, 0, w, [])
    else
      var t := Tick(kids[i], w, env);
      if t.status == Running then
        KidsStep(Running, kids[i := t.node], i, t.world, [Running])
      else if t.status == Decisive(kind) then
        KidsStep(t.status, kids[i := t.node], 0, t.world, [t.status])
      else
        var rest := TickKids(kind, kids, i + 1, t.world, env);
        KidsStep(rest.status, rest.kids[i := t.node], rest.cursor, rest.world, [t.status] + rest.results)
  }

  // ------------------------------------------------------- the root policy

  function SequenceOf(kids: seq<Node>): Node {
    Composite(SequenceKind, kids, 0)
  }

  /** Back to the charger once every plant is watered. */
  function AllWateredBranch(): Node {
    SequenceOf([Action(AllPlantsWateredLeaf), Action(MoveToLeaf(ToCharger, DefaultTolerance)), Action(RechargeLeaf)])
  }

  function GoCharge(): Node {
    SequenceOf([Action(MoveToLeaf(ToCharger, DefaultTolerance)), Action(RechargeLeaf)])
  }

  function GoRefill(): Node {
    SequenceOf([Action(MoveToLeaf(ToWaterStation, DefaultTolerance)), Action(RefillLeaf)])
  }

  /** The watering branch, with its cursor at c. */
  function GoWater(c: nat): Node {
    Composite(SequenceKind, [Action(FindDryPlantLeaf), Action(MoveToLeaf(ToTarget, DefaultTolerance)), Action(WaterLeaf)], c)
  }

  /** The root: a Repeater over a Selector of four branches, highest priority first. */
  function RootPolicy(): Node {
    Repeater(Composite(SelectorKind, [
      AllWateredBranch(),
      SequenceOf([Condition(LowBattery), GoCharge()]),
      SequenceOf([Condition(LowWater), GoRefill()]),
      GoWater(0)
    ], 0))
  }

  // ---------------------------------------------------------------- lemmas

  /** Positions within a pass are numbered from the resume point i: the
      statuses the children returned, laid out by child index. */
  function Observed(n: nat, i: nat, results: seq<Status>): (o: seq<Status>)
    ensures |o| == n
    ensures forall j :: i <= j < n && j < i + |results| ==> o[j] == results[j - i]
  {
    seq(n, j requires 0 <= j < n => if i <= j < i + |results| then results[j - i] else Running)
  }

  /** The engine's pass p returns what the tree's pass r returned, leaves the
      same cursor and ticks as many children. */
  predicate Agrees(p: Pass, r: KidsStep) {
    p.status == r.status && p.cursor == r.cursor && |p.ticked| == |r.results|
  }

  /** Every composite of a tree ticks exactly as the engine's CompositePass
      says, given the statuses its children returned: the same status, the
      same cursor, and the children from the cursor on, in order, up to where
      the pass stopped. */
  lemma {:induction false} TickKidsFollowsPass(kind: Kind, kids: seq<Node>, i: nat, w: World, env: Env)
    requires WorldValid(w)
    ensures var r := TickKids(kind, kids, i, w, env);
            Agrees(CompositePass(kind, Observed(|kids|, i, r.results), i), r)
    decreases |kids| - i
  {
    var r := TickKids(kind, kids, i, w, env);
    if i < |kids| {
      var t := Tick(kids[i], w, env);
      if t.status == Running || t.status == Decisive(kind) {
        StopCase(kind, kids, i, w, env);
      } else {
        TickKidsFollowsPass(kind, kids, i + 1, t.world, env);
        AdvanceCase(kind, kids, i, w, env);
      }
    }
  }

  /** So a tick of a composite in a tree returns the status and leaves the
      cursor that the engine's pass gives for what its children returned, and
      it ticks the children from its cursor on, in order, each at most once. */
  lemma CompositeTickFollowsEngine(kind: Kind, kids: seq<Node>, cur: nat, w: World, env: Env)
    requires WorldValid(w)
    ensures var r := TickKids(kind, kids, cur, w, env);
            var t := Tick(Composite(kind, kids, cur), w, env);
            var p := CompositePass(kind, Observed(|kids|, cur, r.results), cur);
            && p.status == t.status
            && p.cursor == t.node.current
            && |p.ticked| == |r.results|
            && forall k :: 0 <= k < |r.results| ==> p.ticked[k] == cur + k
  {
    var r := TickKids(kind, kids, cur, w, env);
    var p := CompositePass(kind, Observed(|kids|, cur, r.results), cur);
    TickKidsFollowsPass(kind, kids, cur, w, env);
  }

  lemma StopCase(kind: Kind, kids: seq<Node>, i: nat, w: World, env: Env)
    requires WorldValid(w) && i < |kids|
    requires Tick(kids[i], w, env).status in {Running, Decisive(kind)}
    ensures var r := TickKids(kind, kids, i, w, env);
            Agrees(CompositePass(kind, Observed(|kids|, i, r.results), i), r)
  {
    var s := Tick(kids[i], w, env).status;
    assert Observed(|kids|, i, [s])[i] == s;
  }

  lemma AdvanceCase(kind: Kind, kids: seq<Node>, i: nat, w: World, env: Env)
    requires WorldValid(w) && i < |kids|
    requires Tick(kids[i], w, env).status !in {Running, Decisive(kind)}
    requires var t := Tick(kids[i], w, env);
             var rest := TickKids(kind, kids, i + 1, t.world, env);
             Agrees(CompositePass(kind, Observed(|kids|, i + 1, rest.results), i + 1), rest)
    ensures var r := TickKids(kind, kids, i, w, env);
            Agrees(CompositePass(kind, Observed(|kids|, i, r.results), i), r)
  {
    var t := Tick(kids[i], w, env);
    StatusesOfKind(kind, t.status);
    var rest := TickKids(kind, kids, i + 1, t.world, env);
    TickKidsAdvances(kind, kids, i, w, env);
    ObservedAdvance(kind, |kids|, i, t.status, rest.results);
  }

  lemma TickKidsAdvances(kind: Kind, kids: seq<Node>, i: nat, w: World, env: Env)
    requires WorldValid(w) && i < |kids|
    requires Tick(kids[i], w, env).status !in {Running, Decisive(kind)}
    ensures var t := Tick(kids[i], w, env);
            var rest := TickKids(kind, kids, i + 1, t.world, env);
            var r := TickKids(kind, kids, i, w, env);
            r.status == rest.status && r.cursor == rest.cursor && r.results == [t.status] + rest.results
  {
  }

  /** A pass whose first observed child advances continues with the rest. */
  lemma ObservedAdvance(kind: Kind, n: nat, i: nat, s: Status, rest: seq<Status>)
    requires i < n && s == Advancing(kind)
    ensures var p := CompositePass(kind, Observed(n, i + 1, rest), i + 1);
            var q := CompositePass(kind, Observed(n, i, [s] + rest), i);
            q.status == p.status && q.cursor == p.cursor && |q.ticked| == 1 + |p.ticked|
  {
    var o := Observed(n, i, [s] + rest);
    assert o[i] == s;
    StatusesOfKind(kind, s);
    PassFrame(kind, o, Observed(n, i + 1, rest), i + 1);
  }

  /** A composite resumed at cursor c ticks child c first, in the world as it
      was, and children before c are untouched. When child c is RUNNING the
      tick returns RUNNING at once with the cursor still on c; when it returns
      the decisive status the tick returns that status with the cursor at 0;
      otherwise the tick goes on with child c + 1 in the world child c left. */
  lemma CompositeResumes(kind: Kind, kids: seq<Node>, c: nat, w: World, env: Env)
    requires c < |kids| && WorldValid(w)
    ensures var t := Tick(Composite(kind, kids, c), w, env);
            var k := Tick(kids[c], w, env);
            && TickKids(kind, kids, c, w, env).results[0] == k.status
            && t.node.kids[..c] == kids[..c]
            && t.node.kids[c] == k.node
            && (k.status == Running ==> t == NodeStep(Running, Composite(kind, kids[c := k.node], c), k.world))
            && (k.status == Decisive(kind) ==> t == NodeStep(k.status, Composite(kind, kids[c := k.node], 0), k.world))
            && (k.status == Advancing(kind) ==>
                  var rest := TickKids(kind, kids, c + 1, k.world, env);
                  t == NodeStep(rest.status, Composite(kind, rest.kids[c := k.node], rest.cursor), rest.world))
  {
    StatusesOfKind(kind, Tick(kids[c], w, env).status);
  }

  /** A composite resumed at its last child returns what that child returns,
      leaves the world as that child left it, and keeps its cursor there only
      while the child is RUNNING. */
  lemma LastChildDecides(kind: Kind, kids: seq<Node>, w: World, env: Env)
    requires |kids| > 0 && WorldValid(w)
    ensures var c := |kids| - 1;
            var t := Tick(Composite(kind, kids, c), w, env);
            var k := Tick(kids[c], w, env);
            t == NodeStep(k.status, Composite(kind, kids[c := k.node], if k.status == Running then c else 0), k.world)
  {
    var c := |kids| - 1;
    var k := Tick(kids[c], w, env);
    StatusesOfKind(kind, k.status);
    CompositeResumes(kind, kids, c, w, env);
  }

  /** The Repeater ticks its child once and reports RUNNING. */
  lemma RepeaterTicksChildOnce(child: Node, w: World, env: Env)
    requires WorldValid(w)
    ensures var c := Tick(child, w, env);
            Tick(Repeater(child), w, env) == NodeStep(Running, Repeater(c.node), c.world)
  {
  }

  /** A Condition reports SUCCESS exactly when its predicate holds and changes nothing. */
  lemma ConditionHasNoEffect(check: Check, w: World, env: Env)
    requires WorldValid(w)
    ensures Tick(Condition(check), w, env)
         == NodeStep(if Holds(check, w.robot) then Success else Failure, Condition(check), w)
  {
  }

  lemma LeafKeepsBounded(leaf: Leaf, w: World, env: Env)
    requires WorldValid(w) && Bounded(w)
    ensures Bounded(LeafTick(leaf, w, env).next)
  {
    if leaf.WaterLeaf? && w.robot.target.Some? {
      var t := w.robot.target.value;
      var s := Behaviors.WaterStep(w, env.now);
      assert forall j :: 0 <= j < |w.plants| && j != t ==> s.next.plants[j] == w.plants[j];
    }
  }

  /** A tick of any tree keeps battery, water and every thirst within 0 to 100. */
  lemma {:induction false} TickKeepsBounded(n: Node, w: World, env: Env)
    requires WorldValid(w) && Bounded(w)
    ensures Bounded(Tick(n, w, env).world)
    decreases n, 1
  {
    match n
    case Composite(kind, kids, current) =>
      TickKidsKeepsBounded(kind, kids, current, w, env);
    case Repeater(child) =>
      TickKeepsBounded(child, w, env);
    case Condition(_) =>
    case Action(leaf) =>
      LeafKeepsBounded(leaf, w, env);
  }

  lemma {:induction false} TickKidsKeepsBounded(kind: Kind, kids: seq<Node>, i: nat, w: World, env: Env)
    requires WorldValid(w) && Bounded(w)
    ensures Bounded(TickKids(kind, kids, i, w, env).world)
    decreases kids, |kids| - i
  {
    if i < |kids| {
      var t := Tick(kids[i], w, env);
      TickKeepsBounded(kids[i], w, env);
      if t.status != Running && t.status != Decisive(kind) {
        TickKidsKeepsBounded(kind, kids, i + 1, t.world, env);
      }
    }
  }

  /** The tree contains the leaf. */
  predicate Contains(n: Node, leaf: Leaf)
    decreases n
  {
    match n
    case Composite(_, kids, _) => exists k :: 0 <= k < |kids| && Contains(kids[k], leaf)
    case Repeater(child) => Contains(child, leaf)
    case Condition(_) => false
    case Action(l) => l == leaf
  }

  /** Only a Recharge leaf changes the battery: a tree without one leaves it as it was. */
  lemma {:induction false} BatteryOnlyByRecharge(n: Node, w: World, env: Env)
    requires WorldValid(w) && !Contains(n, RechargeLeaf)
    ensures Tick(n, w, env).world.robot.battery == w.robot.battery
    decreases n, 1
  {
    match n
    case Composite(kind, kids, current) =>
      KidsBatteryOnlyByRecharge(kind, kids, current, w, env);
    case Repeater(child) =>
      BatteryOnlyByRecharge(child, w, env);
    case Condition(_) =>
    case Action(leaf) =>
  }

  lemma {:induction false} KidsBatteryOnlyByRecharge(kind: Kind, kids: seq<Node>, i: nat, w: World, env: Env)
    requires WorldValid(w) && forall k :: 0 <= k < |kids| ==> !Contains(kids[k], RechargeLeaf)
    ensures TickKids(kind, kids, i, w, env).world.robot.battery == w.robot.battery
    decreases kids, |kids| - i
  {
    if i < |kids| {
      var t := Tick(kids[i], w, env);
      BatteryOnlyByRecharge(kids[i], w, env);
      if t.status != Running && t.status != Decisive(kind) {
        KidsBatteryOnlyByRecharge(kind, kids, i + 1, t.world, env);
      }
    }
  }

  /** Only a Water leaf changes the plants: a tree without one leaves them as they were. */
  lemma {:induction false} PlantsOnlyByWater(n: Node, w: World, env: Env)
    requires WorldValid(w) && !Contains(n, WaterLeaf)
    ensures Tick(n, w, env).world.plants == w.plants
    decreases n, 1
  {
    match n
    case Composite(kind, kids, current) =>
      KidsPlantsOnlyByWater(kind, kids, current, w, env);
    case Repeater(child) =>
      PlantsOnlyByWater(child, w, env);
    case Condition(_) =>
    case Action(leaf) =>
  }

  lemma {:induction false} KidsPlantsOnlyByWater(kind: Kind, kids: seq<Node>, i: nat, w: World, env: Env)
    requires WorldValid(w) && forall k :: 0 <= k < |kids| ==> !Contains(kids[k], WaterLeaf)
    ensures TickKids(kind, kids, i, w, env).world.plants == w.plants
    decreases kids, |kids| - i
  {
    if i < |kids| {
      var t := Tick(kids[i], w, env);
      PlantsOnlyByWater(kids[i], w, env);
      if t.status != Running && t.status != Decisive(kind) {
        KidsPlantsOnlyByWater(kind, kids, i + 1, t.world, env);
      }
    }
  }

  /** While the watering branch is RUNNING under the root Selector, nothing
      else runs, whatever the battery and water levels (a battery that has
      become low included): the higher-priority branches are not ticked and
      stay as they were, the world changes exactly as the watering branch
      changes it, the battery is not recharged, and the Selector stays on the
      watering branch. */
  lemma WateringIsNotPreempted(branches: seq<Node>, c: nat, w: World, env: Env)
    requires |branches| == 4 && branches[3] == GoWater(c)
    requires WorldValid(w)
    requires Tick(branches[3], w, env).status == Running
    ensures var g := Tick(branches[3], w, env);
            var t := Tick(Repeater(Composite(SelectorKind, branches, 3)), w, env);
            && t.world == g.world
            && t.node.child == Composite(SelectorKind, branches[3 := g.node], 3)
            && t.world.robot.battery == w.robot.battery
  {
    var g := GoWater(c);
    forall k | 0 <= k < |g.kids|
      ensures !Contains(g.kids[k], RechargeLeaf)
    {
    }
    BatteryOnlyByRecharge(g, w, env);
    LastChildDecides(SelectorKind, branches, w, env);
    CompositeResumes(SelectorKind, branches, 3, w, env);
  }

  /** With a plant still dry, the first branch fails at AllPlantsWatered and
      changes nothing. */
  lemma AllWateredBranchFails(w: World, env: Env)
    requires WorldValid(w)
    requires exists j :: 0 <= j < |w.plants| && w.plants[j].thirst >= Behaviors.NeedThirst
    ensures Tick(AllWateredBranch(), w, env) == NodeStep(Failure, AllWateredBranch(), w)
  {
    var a := AllWateredBranch();
    assert Tick(a.kids[0], w, env) == NodeStep(Failure, a.kids[0], w);
    assert a.kids[0 := a.kids[0]] == a.kids;
  }

  /** With the battery low, going to charge is RUNNING: the robot either
      steers towards the charger or, once there, recharges without reaching
      full; the plants are not touched. */
  lemma GoChargeRuns(w: World, env: Env)
    requires WorldValid(w) && w.robot.battery < LowLevel
    ensures Tick(GoCharge(), w, env).status == Running
    ensures Tick(GoCharge(), w, env).world.plants == w.plants
  {
    var g := GoCharge();
    var m := Behaviors.MoveToStep(w.robot, Some(ChargingStation), DefaultTolerance, env.move);
    if m.status == Success {
      assert Behaviors.RechargeStep(m.next).status == Running;
      assert TickKids(SequenceKind, g.kids, 1, w.(robot := m.next), env).status == Running;
    }
    forall k | 0 <= k < |g.kids|
      ensures !Contains(g.kids[k], WaterLeaf)
    {
    }
    PlantsOnlyByWater(g, w, env);
  }

  /** With the battery low, the low-battery branch passes its condition and
      stays RUNNING on going to charge. */
  lemma LowBatteryBranchRuns(w: World, env: Env)
    requires WorldValid(w) && w.robot.battery < LowLevel
    ensures var b := Tick(SequenceOf([Condition(LowBattery), GoCharge()]), w, env);
            b.status == Running && b.node.current == 1 && b.world.plants == w.plants
  {
    GoChargeRuns(w, env);
    var b := SequenceOf([Condition(LowBattery), GoCharge()]);
    var bk := TickKids(SequenceKind, b.kids, 1, w, env);
    assert bk.status == Running && bk.world.plants == w.plants;
  }

  /** The same low battery, met by the policy at a branch boundary (every cursor
      at 0) while some plant is dry, sends the robot to charge: the Selector
      passes over the first branch, which is left as it was, stops RUNNING at
      the low-battery branch, does not reach the two below it, and no plant is
      watered. */
  lemma FreshRootChargesWhenLow(w: World, env: Env)
    requires WorldValid(w) && w.robot.battery < LowLevel
    requires exists j :: 0 <= j < |w.plants| && w.plants[j].thirst >= Behaviors.NeedThirst
    ensures var top := RootPolicy().child;
            var s := Tick(top, w, env);
            var b := Tick(top.kids[1], w, env);
            && s.status == Running
            && s.node.current == 1
            && s.world == b.world
            && s.node.kids == top.kids[1 := b.node]
            && Tick(RootPolicy(), w, env) == NodeStep(Running, Repeater(s.node), s.world)
            && s.world.plants == w.plants
  {
    var top := RootPolicy().child;
    AllWateredBranchFails(w, env);
    LowBatteryBranchRuns(w, env);
    var rest := TickKids(SelectorKind, top.kids, 1, w, env);
    assert rest.status == Running && rest.cursor == 1 && rest.world.plants == w.plants;
    assert top.kids[0 := top.kids[0]] == top.kids;
  }

  /** With every plant watered, the first branch does not fail: it heads for
      the charger and recharges, and touches no plant. */
  lemma AllWateredBranchHolds(w: World, env: Env)
    requires WorldValid(w)
    requires forall j :: 0 <= j < |w.plants| ==> w.plants[j].thirst < Behaviors.NeedThirst
    ensures Tick(AllWateredBranch(), w, env).status != Failure
    ensures Tick(AllWateredBranch(), w, env).world.plants == w.plants
  {
    var a := AllWateredBranch();
    var m := Behaviors.MoveToStep(w.robot, Some(ChargingStation), DefaultTolerance, env.move);
    var after := TickKids(SequenceKind, a.kids, 1, w, env);
    assert Tick(a.kids[0], w, env) == NodeStep(Success, a.kids[0], w);
    assert Tick(a.kids[1], w, env) == NodeStep(m.status, a.kids[1], w.(robot := m.next));
    if m.status == Success {
      assert TickKids(SequenceKind, a.kids, 2, w.(robot := m.next), env).status != Failure;
    }
    assert after.status != Failure;
    forall k | 0 <= k < |a.kids|
      ensures !Contains(a.kids[k], WaterLeaf)
    {
    }
    PlantsOnlyByWater(a, w, env);
  }

  /** With every plant watered, the policy at a branch boundary takes its first
      branch whatever the battery and water levels: the Selector does not fail,
      it stops at that branch with its cursor at 0, the world is the one that
      branch leaves, the three branches below it are not reached, and no
      plant is watered. */
  lemma FreshRootReturnsWhenAllWatered(w: World, env: Env)
    requires WorldValid(w)
    requires forall j :: 0 <= j < |w.plants| ==> w.plants[j].thirst < Behaviors.NeedThirst
    ensures var top := RootPolicy().child;
            var s := Tick(top, w, env);
            var a := Tick(AllWateredBranch(), w, env);
            && s.status != Failure
            && s.status == a.status
            && s.node.current == 0
            && s.world == a.world
            && s.node.kids == top.kids[0 := a.node]
            && s.world.plants == w.plants
  {
    AllWateredBranchHolds(w, env);
    CompositeResumes(SelectorKind, RootPolicy().child.kids, 0, w, env);
  }
}
