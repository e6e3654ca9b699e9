/**
 * The planning actions over `RobotState` (master-firmware/src/strategy/actions.h).
 *
 * Each action has a `can_run` test and a `plan_effects` update that takes the
 * state by value and returns the changed copy; both are pure. The record holds
 * only the fields these actions and the goals of RobotGoals use.
 */
module RobotActions {

  import opened Options

  datatype RobotState = RobotState(
    armsAreIndexed: bool,
    armsAreDeployed: bool,
    leverFullLeft: bool,
    leverFullRight: bool,
    blocksOnMap: seq<bool>,
    switchOn: bool,
    beeDeployed: bool)

  /** The fields of a `RobotState`; `BlocksOnMap(i)` is one entry of the block map. */
  datatype Field =
    | ArmsAreIndexed
    | ArmsAreDeployed
    | LeverFullLeft
    | LeverFullRight
    | BlocksOnMap(index: int)
    | SwitchOn
    | BeeDeployed

  /** `s` and `t` hold the same value in every field outside `fields`, and block maps of the same size. */
  predicate AgreeOutside(s: RobotState, t: RobotState, fields: set<Field>)
  {
    && (ArmsAreIndexed !in fields ==> s.armsAreIndexed == t.armsAreIndexed)
    && (ArmsAreDeployed !in fields ==> s.armsAreDeployed == t.armsAreDeployed)
    && (LeverFullLeft !in fields ==> s.leverFullLeft == t.leverFullLeft)
    && (LeverFullRight !in fields ==> s.leverFullRight == t.leverFullRight)
    && (SwitchOn !in fields ==> s.switchOn == t.switchOn)
    && (BeeDeployed !in fields ==> s.beeDeployed == t.beeDeployed)
    && |s.blocksOnMap| == |t.blocksOnMap|
    && forall i :: 0 <= i < |s.blocksOnMap| && BlocksOnMap(i) !in fields ==> s.blocksOnMap[i] == t.blocksOnMap[i]
  }

  datatype Action =
    | IndexArms
    | RetractArms
    | PickupBlocks(blocksId: int)
    | TurnSwitchOn
    | DeployTheBee

  /** `PickupBlocks` indexes the block map with its ID, which must lie inside the map. */
  predicate InRange(a: Action, s: RobotState)
  {
    a.PickupBlocks? ==> 0 <= a.blocksId < |s.blocksOnMap|
  }

  predicate CanRun(a: Action, s: RobotState)
    requires InRange(a, s)
  {
    match a
    case IndexArms => true
    case RetractArms => s.armsAreIndexed
    case PickupBlocks(id) =>
      && s.armsAreDeployed == false
      && (s.leverFullRight == false || s.leverFullLeft == false)
      && s.blocksOnMap[id] == true
    case TurnSwitchOn => s.armsAreDeployed == false
    case DeployTheBee => s.armsAreDeployed == false
  }

  /** The fields an action's planned effect may write. */
  function Writes(a: Action): set<Field>
  {
    match a
    case IndexArms => {ArmsAreIndexed}
    case RetractArms => {ArmsAreDeployed}
    case PickupBlocks(id) => {LeverFullRight, LeverFullLeft, BlocksOnMap(id)}
    case TurnSwitchOn => {ArmsAreDeployed, SwitchOn}
    case DeployTheBee => {ArmsAreDeployed, BeeDeployed}
  }

  /** The state the planner expects after running `a`; nothing outside `Writes(a)` changes. */
  function PlanEffects(a: Action, s: RobotState): (r: RobotState)
    requires InRange(a, s)
    ensures AgreeOutside(s, r, Writes(a))
  {
    match a
    case IndexArms => s.(armsAreIndexed := true)
    case RetractArms => s.(armsAreDeployed := false)
    case PickupBlocks(id) =>
      var levers := if s.leverFullRight == false then s.(leverFullRight := true) else s.(leverFullLeft := true);
      levers.(blocksOnMap := levers.blocksOnMap[id := false])
    case TurnSwitchOn => s.(armsAreDeployed := true, switchOn := true)
    case DeployTheBee => s.(armsAreDeployed := true, beeDeployed := true)
  }

  /** `IndexArms` always runs and indexes the arms. */
  lemma IndexArmsSpec(s: RobotState)
    ensures CanRun(IndexArms, s)
    ensures PlanEffects(IndexArms, s).armsAreIndexed
  {
  }

  /** `RetractArms` runs exactly when the arms are indexed and leaves them retracted. */
  lemma RetractArmsSpec(s: RobotState)
    ensures CanRun(RetractArms, s) <==> s.armsAreIndexed
    ensures !PlanEffects(RetractArms, s).armsAreDeployed
  {
  }

  /**
   * `PickupBlocks(id)` runs exactly when the arms are retracted, a lever has
   * room and the blocks are still on the map; it fills the right lever if that
   * one is empty and otherwise the left one, and takes the blocks off the map.
   */
  lemma PickupBlocksSpec(s: RobotState, id: int)
    requires 0 <= id < |s.blocksOnMap|
    ensures CanRun(PickupBlocks(id), s) <==>
              !s.armsAreDeployed && (!s.leverFullRight || !s.leverFullLeft) && s.blocksOnMap[id]
    ensures var r := PlanEffects(PickupBlocks(id), s);
            && (!s.leverFullRight ==> r.leverFullRight && r.leverFullLeft == s.leverFullLeft)
            && (s.leverFullRight ==> r.leverFullRight && r.leverFullLeft)
            && !r.blocksOnMap[id]
  {
  }

  /** `TurnSwitchOn` needs retracted arms; it deploys them and turns the switch on. */
  lemma TurnSwitchOnSpec(s: RobotState)
    ensures CanRun(TurnSwitchOn, s) <==> !s.armsAreDeployed
    ensures PlanEffects(TurnSwitchOn, s).armsAreDeployed && PlanEffects(TurnSwitchOn, s).switchOn
  {
  }

  /** `DeployTheBee` needs retracted arms; it deploys them and the bee. */
  lemma DeployTheBeeSpec(s: RobotState)
    ensures CanRun(DeployTheBee, s) <==> !s.armsAreDeployed
    ensures PlanEffects(DeployTheBee, s).armsAreDeployed && PlanEffects(DeployTheBee, s).beeDeployed
  {
  }

  // ---------------------------------------------------------------------------
  // Following a plan
  // ---------------------------------------------------------------------------

  /** The state after following `plan` from `s`, or `None` if some step cannot run where it is reached. */
  function ApplyPlan(s: RobotState, plan: seq<Action>): Option<RobotState>
    decreases |plan|
  {
    if plan == [] then Some(s)
    else if !InRange(plan[0], s) || !CanRun(plan[0], s) then None
    else ApplyPlan(PlanEffects(plan[0], s), plan[1..])
  }

  /** Number of full levers. */
  function FullLevers(s: RobotState): nat
  {
    (if s.leverFullLeft then 1 else 0) + (if s.leverFullRight then 1 else 0)
  }

  /** Every runnable pickup fills exactly one more lever. */
  lemma PickupFillsOneLever(s: RobotState, id: int)
    requires 0 <= id < |s.blocksOnMap| && CanRun(PickupBlocks(id), s)
    ensures FullLevers(PlanEffects(PickupBlocks(id), s)) == FullLevers(s) + 1
  {
  }

  /** With both levers full no pickup can run. */
  lemma NoPickupWhenLeversFull(s: RobotState, id: int)
    requires 0 <= id < |s.blocksOnMap| && FullLevers(s) == 2
    ensures !CanRun(PickupBlocks(id), s)
  {
  }

  predicate AllPickups(plan: seq<Action>)
  {
    forall k :: 0 <= k < |plan| ==> plan[k].PickupBlocks?
  }

  /**
   * A run of pickups that can all run fills one lever each, so there are at
   * most two of them: after `2 - FullLevers(s)` pickups both levers are full.
   */
  lemma {:induction false} PickupsFillLevers(s: RobotState, plan: seq<Action>)
    requires AllPickups(plan)
    requires ApplyPlan(s, plan).Some?
    ensures FullLevers(ApplyPlan(s, plan).value) == FullLevers(s) + |plan|
    ensures FullLevers(s) + |plan| <= 2
    decreases |plan|
  {
    if plan != [] {
      var id := plan[0].blocksId;
      PickupFillsOneLever(s, id);
      var s1 := PlanEffects(plan[0], s);
      assert AllPickups(plan[1..]) by {
        forall k | 0 <= k < |plan[1..]| ensures plan[1..][k].PickupBlocks? {
          assert plan[1..][k] == plan[k + 1];
        }
      }
      PickupsFillLevers(s1, plan[1..]);
    }
  }

  /** Once the levers are full after a run of pickups, no further pickup can run. */
  lemma PickupsThenNoMore(s: RobotState, plan: seq<Action>, id: int)
    requires AllPickups(plan) && ApplyPlan(s, plan).Some?
    requires |plan| == 2 - FullLevers(s)
    requires 0 <= id < |ApplyPlan(s, plan).value.blocksOnMap|
    ensures !CanRun(PickupBlocks(id), ApplyPlan(s, plan).value)
  {
    PickupsFillLevers(s, plan);
    NoPickupWhenLeversFull(ApplyPlan(s, plan).value, id);
  }
}
