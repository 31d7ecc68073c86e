# Garden robot behavior tree, modelled in Dafny

This project models the decision core of a garden-tending robot simulation. A
behavior tree is ticked once per frame. Its composites, Sequence and Selector,
keep a cursor and resume at it. Repeater and Condition carry no state. Its
leaves act on one shared robot and one plant list:
- MoveTo steers towards a target.
- Recharge and Refill top up the battery and the tank.
- FindDryPlant picks the thirstiest plant.
- Water waters it.
- AllPlantsWatered checks the garden.

Three layers make up the model:

- `behavior_tree.dfy` (module `BehaviorTree`): the engine.
  - `CompositePass` states what one tick of a composite does: the status it returns, where it leaves its cursor, and which children it ticks, in order.
  - A composite's children are given by what each returns when ticked (`results`). A child is ticked at most once per tick, so this sequence fixes the whole tick.
  - The classes `Sequence` and `Selector` hold the mutable cursor `current` and run the source's `while` loop. Each `Tick` is proved to equal `CompositePass`.
  - `RepeaterTick` and `ConditionTick` model the two stateless nodes.
- `garden.dfy` (module `Garden`) and `behaviors.dfy` (module `Behaviors`): the simulation state and the leaves.
  - Each leaf is a step function on state values, which states what the tick does.
  - Each leaf is also a class holding references to the shared `Robot` and the `array<Plant>`. Its `Tick` method updates them in place and is proved to follow the step function.
  - `robot.target` is an optional index into the plant array. So Water's update of "the target plant" is an update of that array element, the element the index aliases.
  - Quantities are Dafny `real`s.
- `policy.dfy` (module `Policy`): a whole-tree tick on values and the concrete root policy of `main.py`.
  - In a tree value, each composite carries its own cursor.
  - `CompositeTickFollowsEngine` proves that every composite inside a tree ticks as `CompositePass` says.
  - The lemmas about the root policy cover:
    - non-preemption of a running watering branch by a low battery;
    - charging when the battery is low at a branch boundary;
    - the all-watered branch winning when nothing is dry;
    - the frame facts "only Recharge touches the battery" and "only Water touches the plants";
    - the 0 to 100 bounds on battery, water and thirst.

`wrappers.dfy` holds the `Option` type.

Outside inputs are parameters:
- The clock reading that Water stamps on a plant is the parameter `now`.
- The robot's steering step (`Robot.move_towards`) is an oracle `Mover`. Given a pose, a point and a tolerance, it reports `Arrived`, or `Stepped` with a new pose. MoveTo may therefore change only position and heading.

## Model

| member | source | states |
|---|---|---|
| BehaviorTree.StatusesOfKind | utils/behavior_tree.py:3-6 | The three statuses are distinct. For either composite, every status is RUNNING, the decisive status (FAILURE for Sequence, SUCCESS for Selector) or the advancing one. |
| BehaviorTree.CompositePass | utils/behavior_tree.py:17-44 | A tick ticks consecutive children starting at the cursor and none below it. It ticks none exactly when the cursor is past the last child. The cursor it leaves is non-zero only when the result is RUNNING, and it then lies below the child count. A RUNNING tick leaves the cursor on the last child ticked, which returned RUNNING. |
| BehaviorTree.PassFrame | utils/behavior_tree.py:18-19 | A tick depends only on the children from the cursor on. What children below the cursor would return makes no difference on resume. |
| BehaviorTree.PassStopsAt | utils/behavior_tree.py:18-24 | The tick stops at the first child from the cursor whose status is not the advancing one. It returns that status, ticks exactly the children from the cursor to that one, and leaves the cursor there if RUNNING, else at 0. |
| BehaviorTree.PassExhausts | utils/behavior_tree.py:18-27 | If every child from the cursor on advances, all of them are ticked and the tick returns the advancing status with the cursor at 0. |
| BehaviorTree.SequenceFails | utils/behavior_tree.py:22-24 | A Sequence child returning FAILURE, after only successes, makes the Sequence fail. The cursor resets to 0 and no later child is ticked. |
| BehaviorTree.SequenceSucceeds | utils/behavior_tree.py:25-27 | If every child from the cursor on succeeds, the Sequence succeeds with the cursor at 0. An empty Sequence succeeds at once. |
| BehaviorTree.SelectorSucceeds | utils/behavior_tree.py:39-41 | A Selector child returning SUCCESS, after only failures, makes the Selector succeed. The cursor resets to 0 and no later child is ticked. |
| BehaviorTree.SelectorFails | utils/behavior_tree.py:42-44 | If every child from the cursor on fails, the Selector fails with the cursor at 0. An empty Selector fails at once. |
| BehaviorTree.RunningPassesThrough | utils/behavior_tree.py:20-21 | Under either composite, a RUNNING child makes the tick return RUNNING. The cursor stays on that child and no later child is ticked. |
| BehaviorTree.NextTickStart | utils/behavior_tree.py:17-27 | Over two consecutive ticks, the second starts at the child the first left RUNNING, and at child 0 after SUCCESS or FAILURE. |
| BehaviorTree.Sequence.constructor | utils/behavior_tree.py:13-15 | A new Sequence has its cursor at 0. |
| BehaviorTree.Sequence.Tick | utils/behavior_tree.py:17-27 | From a valid cursor, the loop returns the status, the new cursor and the children ticked that `CompositePass(SequenceKind, …)` gives from the old cursor. It keeps the cursor invariant. |
| BehaviorTree.Selector.constructor | utils/behavior_tree.py:30-32 | A new Selector has its cursor at 0. |
| BehaviorTree.Selector.Tick | utils/behavior_tree.py:34-44 | From a valid cursor, the loop returns the status, the new cursor and the children ticked that `CompositePass(SelectorKind, …)` gives from the old cursor. It keeps the cursor invariant. |
| BehaviorTree.RepeaterTick | utils/behavior_tree.py:50-52 | A Repeater returns RUNNING whatever its child returned. |
| BehaviorTree.ConditionTick | utils/behavior_tree.py:58-59 | A Condition returns SUCCESS exactly when its predicate holds, and never RUNNING. |
| Garden.Robot.constructor | utils/robot.py:5-15 | A new robot stands at the given point facing angle 0, with battery and water at 100, no target, no task and the label "Idle". |
| Behaviors.Claim | utils/behaviors.py:26-27 | A leaf claims its task only when no task is set. An existing task is kept. |
| Behaviors.MoveToStep | utils/behaviors.py:12-19 | It returns FAILURE exactly when the provider yields nothing, and SUCCESS exactly when the steering step reports arrival. In both cases the robot does not move. Otherwise it returns RUNNING, and only position and heading change, to the steering step's pose. |
| Behaviors.MoveTo.constructor | utils/behaviors.py:7-10 | The leaf keeps the robot, plant list, target provider and tolerance it is given. The tolerance defaults to 6. |
| Behaviors.MoveTo.Tick | utils/behaviors.py:12-19 | The status and the robot afterwards are those of `MoveToStep`, applied to the provider's value for the state before the tick. |
| Behaviors.RechargeStep | utils/behaviors.py:25-34 | It never fails. The battery becomes min(100, battery + 1.5), so it never exceeds 100. It returns SUCCESS exactly when the battery is 100, and then task and target are cleared. Otherwise it returns RUNNING, with "charging" claimed only if no task was set and the target kept. Position, heading and water are unchanged. The label is "Recharging". |
| Behaviors.Recharge.constructor | utils/behaviors.py:22-23 | The leaf keeps the robot it is given. |
| Behaviors.Recharge.Tick | utils/behaviors.py:25-34 | The status and the robot afterwards are those of `RechargeStep` on the robot before. |
| Behaviors.RechargeCompletes | utils/behaviors.py:29-34 | Recharge ticked n times, with battery + 1.5·n ≥ 100, ends at a full battery with SUCCESS, task and target cleared. |
| Behaviors.RefillStep | utils/behaviors.py:40-49 | It never fails. Water becomes min(100, water + 2.0), so it never exceeds 100. It returns SUCCESS exactly when the tank is full, and then task and target are cleared. Otherwise it returns RUNNING, with "refilling" claimed only if no task was set and the target kept. Position, heading and battery are unchanged. The label is "Refilling Water". |
| Behaviors.Refill.constructor | utils/behaviors.py:37-38 | The leaf keeps the robot it is given. |
| Behaviors.Refill.Tick | utils/behaviors.py:40-49 | The status and the robot afterwards are those of `RefillStep` on the robot before. |
| Behaviors.RefillCompletes | utils/behaviors.py:44-49 | Refill ticked n times, with water + 2.0·n ≥ 100, ends with a full tank and SUCCESS, task and target cleared. |
| Behaviors.ScanDry | utils/behaviors.py:65-69 | The scan finds nothing exactly when no plant has thirst ≥ 30. Otherwise it finds a dry plant that no plant exceeds in thirst and that every earlier plant is strictly below: the first maximum in list order, as Python's `max` picks. |
| Behaviors.MostThirsty | utils/behaviors.py:65-69 | The same, starting from an empty choice. |
| Behaviors.FindDryPlantStep | utils/behaviors.py:56-73 | Only target and task can change, and the target stays a valid plant index. It never returns RUNNING. A held target that is still dry is kept, with SUCCESS. It returns FAILURE exactly when no plant has thirst ≥ 30, and then only the target is cleared. A new target is the first thirstiest dry plant. On SUCCESS the target is dry and "watering" is claimed only if no task was set. |
| Behaviors.FindDryPlant.constructor | utils/behaviors.py:52-54 | The leaf keeps the robot and the plant array it is given. |
| Behaviors.FindDryPlant.Tick | utils/behaviors.py:56-73 | The status and the robot afterwards are those of `FindDryPlantStep`. It keeps the target in range. Only the robot is modified, so no plant changes. |
| Behaviors.WaterStep | utils/behaviors.py:80-95 | With no target, it returns FAILURE and nothing changes. With a target, water becomes max(0, water − 0.6), the label is "Watering", and no plant but the target changes. If the target's thirst after max(0, thirst − 2) is ≤ 5, it is set to 0 and stamped with `now`, task and target are cleared, and the result is SUCCESS; this check comes before the water check. Otherwise the target's thirst is max(0, thirst − 2) and the target is kept. Then it returns FAILURE exactly when the tank is empty, clearing the task, and RUNNING otherwise, keeping the task. |
| Behaviors.Water.constructor | utils/behaviors.py:76-78 | The leaf keeps the robot and the plant array it is given. |
| Behaviors.Water.Tick | utils/behaviors.py:80-95 | The status, robot and plant array afterwards are those of `WaterStep` on the state before. The update goes through the target index into the shared array. |
| Behaviors.AllPlantsWateredStep | utils/behaviors.py:101-104 | It returns SUCCESS exactly when every plant has thirst < 30, and FAILURE otherwise. It never returns RUNNING. |
| Behaviors.AllPlantsWatered.constructor | utils/behaviors.py:98-99 | The leaf keeps the plant array it is given. |
| Behaviors.AllPlantsWatered.Tick | utils/behaviors.py:101-104 | It returns `AllPlantsWateredStep` of the plant array and modifies nothing. |
| Behaviors.WateredIffNothingToFind | utils/behaviors.py:65-67 | The garden counts as watered exactly when FindDryPlant would fail. |
| Behaviors.FindDryPlantExamples | utils/behaviors.py:56-73 | Of thirsts 10, 35, 40 the plant at 40 is chosen. A held target at thirst 25 is dropped for it. |
| Behaviors.WaterFinishesExample | utils/behaviors.py:85-91 | A target at thirst 6 ends at 0, stamped, with SUCCESS and task and target cleared. |
| Behaviors.WaterRunsDryExample | utils/behaviors.py:92-94 | With 0.5 water and a plant at thirst 20, the tank runs dry. The result is FAILURE, the task is released, the target is kept and the thirst is 18. |
| Behaviors.RechargeExample | utils/behaviors.py:29-33 | From battery 99, one tick reaches 100 with SUCCESS and the target cleared. |
| Policy.LeafTick | utils/behaviors.py:12-104 | Every leaf tick keeps the target a valid index and the plant count unchanged. |
| Policy.Tick | utils/behavior_tree.py:17-59 | A tick of any tree keeps the target valid and the plant count unchanged. A composite keeps its kind and child count, and its cursor is non-zero only when it returns RUNNING, and then lies below the child count. A Repeater returns RUNNING. Conditions and leaves hold no state of their own. |
| Policy.TickKids | utils/behavior_tree.py:17-44 | The child loop keeps the child count. It ticks nothing exactly when resumed past the end. The cursor invariant holds. Children the pass did not reach are unchanged. The record of statuses starts with what the child at the resume point returned. Every recorded status before the last is the advancing one. A pass that returns RUNNING or the decisive status ends on the child that returned it. |
| Policy.TickKidsFollowsPass | utils/behavior_tree.py:17-44 | The tree's child loop returns the status and cursor of `CompositePass` on the statuses its children returned, and ticks as many children. |
| Policy.CompositeTickFollowsEngine | utils/behavior_tree.py:17-44 | A composite in a tree returns the status and leaves the cursor that the engine gives. It ticks the children from its cursor on, in order, each at most once. |
| Policy.CompositeResumes | utils/behavior_tree.py:18-25 | A composite resumed at cursor c first ticks child c, in the world as it was. Children before c are left as they were, and child c is replaced by its ticked self. If child c is RUNNING, the tick returns RUNNING at once with the cursor still c. If child c returns the decisive status, the tick returns it with the cursor at 0. Otherwise the tick goes on with child c + 1 in the world child c left. |
| Policy.LastChildDecides | utils/behavior_tree.py:17-44 | A composite resumed at its last child returns whatever that child returns, and leaves the world as that child left it. Its cursor stays on the child only while the child is RUNNING, and is 0 otherwise. |
| Policy.RepeaterTicksChildOnce | utils/behavior_tree.py:50-52 | A Repeater ticks its child exactly once, takes on the child's effects and returns RUNNING. |
| Policy.ConditionHasNoEffect | utils/behavior_tree.py:58-59 | A Condition returns SUCCESS exactly when its predicate holds, and changes neither the tree nor the world. |
| Policy.LeafKeepsBounded | utils/behaviors.py:29-85 | No leaf tick takes battery, water or any thirst outside 0 to 100. |
| Policy.TickKeepsBounded | utils/behavior_tree.py:17-59 | No tick of any tree takes battery, water or any thirst outside 0 to 100. |
| Policy.TickKidsKeepsBounded | utils/behavior_tree.py:17-44 | The same for a composite's pass over its children. |
| Policy.BatteryOnlyByRecharge | utils/behaviors.py:21-34 | A tree with no Recharge leaf leaves the battery as it was. |
| Policy.KidsBatteryOnlyByRecharge | utils/behavior_tree.py:17-44 | The same for a composite's pass over its children. |
| Policy.PlantsOnlyByWater | utils/behaviors.py:75-95 | A tree with no Water leaf leaves every plant as it was. |
| Policy.KidsPlantsOnlyByWater | utils/behavior_tree.py:17-44 | The same for a composite's pass over its children. |
| Policy.WateringIsNotPreempted | main.py:97-102 | The root Selector may be RUNNING on the watering branch (index 3), at any battery level, including a low one. Then the world after the tick is exactly the one the watering branch leaves. The Selector keeps its cursor on that branch. The three higher-priority branches are neither ticked nor changed, and the battery is not recharged. |
| Policy.AllWateredBranchFails | main.py:92-96 | With some plant dry, the first branch fails at AllPlantsWatered and changes nothing. |
| Policy.GoChargeRuns | main.py:85 | With the battery low, going to charge returns RUNNING and touches no plant. |
| Policy.LowBatteryBranchRuns | main.py:99 | With the battery low, the low-battery branch passes its condition and is RUNNING on going to charge, with no plant touched. |
| Policy.FreshRootChargesWhenLow | main.py:97-102 | At a branch boundary, with the battery low and some plant dry, the root Selector passes over the first branch, which is left as it was. It stops RUNNING at the low-battery branch (cursor 1), not at watering. The world is the one that branch leaves, and the refill and watering branches are neither ticked nor changed. No plant changes. |
| Policy.AllWateredBranchHolds | main.py:92-96 | With every plant watered, the first branch never fails and touches no plant. |
| Policy.FreshRootReturnsWhenAllWatered | main.py:97-102 | At a branch boundary, with every plant watered, the root Selector takes its first branch at any battery and water level. It does not fail: it returns that branch's status, with its cursor at 0. The world is the one that branch leaves, and the three branches below it are neither ticked nor changed. No plant changes. |

`Policy.RootPolicy` builds the tree of `main.py:83-102`:
- Repeater over a Selector of four branches.
- The branches are: all watered → to the charger → recharge; low battery → go charge; low water → go refill; go water.
- It uses the stations (120, 480) and (860, 480), the tolerance 6 and the level 20.

## Left out

- `Robot.move_towards` (utils/robot.py:17-39) is an oracle, `Behaviors.Mover`. Its turn-then-drive steering is floating-point trigonometry. The model keeps only what MoveTo relies on: the step reports arrival without moving, or yields a new position and heading.
- `Robot.draw`, the pygame set-up, event loop, drawing helpers and frame pacing in `main.py` are presentation.
- `create_plants` and the per-frame environment update in `main.py` (thirst growth, random jitter, clock reads) belong to the driver. They are outside the tree. In particular, the claim that thirst grows between frames is not modelled.
- `time.time()` in Water is the input `now`.
- Floats are modelled as exact reals. Rounding in the repeated additions of 1.5, 2.0, 0.6 and 2.0 is not modelled.
- The `Node` base class and Python's dynamic dispatch: the engine classes `Sequence` and `Selector` receive their children's statuses as `results`, not child objects. A heterogeneous list of child objects needs a common interface. The whole tree is therefore modelled on values, in `Policy`, where each composite carries its cursor. The tree's cursor updates are values, not state shared by reference.
- The lambdas of `main.py` become data:
  - the Condition predicates are `Policy.Check`;
  - the MoveTo target providers are `Policy.Goal`, resolved by `Policy.GoalPoint`.
  The class `Behaviors.MoveTo` takes any provider as a function of the robot state and the plants.
- `robot.target` in the source is a reference to a plant dictionary. Here it is an index. Python's truthiness test on that dictionary (`if self.robot.target`) is read as "a target is set", since a plant record is never empty.
- Policy.LeafKeepsBounded: the 0 to 100 bounds are shown to be kept, from a start within them; the initial levels come from the driver.
- Policy.TickKeepsBounded: likewise kept from a start within the bounds, not established.
- Policy.FreshRootReturnsWhenAllWatered: a low battery with nothing dry is served by the first branch (all watered, then to the charger and recharge), so the Selector's cursor stays at 0; the low-battery branch is not reached in that case, whatever one might expect from its priority.
