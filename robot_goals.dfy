/**
 * The planning goals over `RobotState` (master-firmware/src/strategy/goals.h).
 *
 * A goal's `distance_to` counts the conditions the state does not yet meet;
 * the goal is reached at distance zero.
 */
module RobotGoals {

  import opened RobotActions

  /** A count of unmet conditions, built up one condition at a time. */
  datatype Distance = Distance(unmet: nat) {

    function ShouldBeTrue(b: bool): Distance
    {
      if b then this else Distance(unmet + 1)
    }

    function ShouldBeFalse(b: bool): Distance
    {
      if b then Distance(unmet + 1) else this
    }
  }

  datatype Goal = InitGoal | SwitchGoal | BeeGoal | PickupCubesGoal

  function DistanceTo(g: Goal, s: RobotState): (d: nat)
    ensures d == 0 <==> Reached(g, s)
  {
    match g
    case InitGoal => Distance(0).ShouldBeFalse(s.armsAreDeployed).unmet
    case SwitchGoal => Distance(0).ShouldBeTrue(s.switchOn).unmet
    case BeeGoal => Distance(0).ShouldBeTrue(s.beeDeployed).unmet
    case PickupCubesGoal => Distance(0).ShouldBeTrue(s.leverFullLeft).ShouldBeTrue(s.leverFullRight).unmet
  }

  /** What each goal asks of the state. */
  predicate Reached(g: Goal, s: RobotState)
  {
    match g
    case InitGoal => !s.armsAreDeployed
    case SwitchGoal => s.switchOn
    case BeeGoal => s.beeDeployed
    case PickupCubesGoal => s.leverFullLeft && s.leverFullRight
  }

  /** The fields a goal's distance reads. */
  function Reads(g: Goal): set<Field>
  {
    match g
    case InitGoal => {ArmsAreDeployed}
    case SwitchGoal => {SwitchOn}
    case BeeGoal => {BeeDeployed}
    case PickupCubesGoal => {LeverFullLeft, LeverFullRight}
  }

  /** `s` and `t` hold the same value in each of the scalar fields named in `fields`. */
  predicate AgreeOn(s: RobotState, t: RobotState, fields: set<Field>)
  {
    && (ArmsAreIndexed in fields ==> s.armsAreIndexed == t.armsAreIndexed)
    && (ArmsAreDeployed in fields ==> s.armsAreDeployed == t.armsAreDeployed)
    && (LeverFullLeft in fields ==> s.leverFullLeft == t.leverFullLeft)
    && (LeverFullRight in fields ==> s.leverFullRight == t.leverFullRight)
    && (SwitchOn in fields ==> s.switchOn == t.switchOn)
    && (BeeDeployed in fields ==> s.beeDeployed == t.beeDeployed)
  }

  /** A goal's distance depends on nothing but the fields it reads. */
  lemma DistanceReadsOnly(g: Goal, s: RobotState, t: RobotState)
    requires AgreeOn(s, t, Reads(g))
    ensures DistanceTo(g, s) == DistanceTo(g, t)
  {
  }

  /** The cube goal's distance is the number of levers still empty. */
  lemma PickupCubesDistance(s: RobotState)
    ensures DistanceTo(PickupCubesGoal, s) == 2 - FullLevers(s)
  {
  }

  /** Turning the switch on, from any state where it can run, reaches the switch goal. */
  lemma TurnSwitchOnReachesSwitchGoal(s: RobotState)
    requires CanRun(TurnSwitchOn, s)
    ensures DistanceTo(SwitchGoal, PlanEffects(TurnSwitchOn, s)) == 0
  {
  }

  /** Deploying the bee, from any state where it can run, reaches the bee goal. */
  lemma DeployTheBeeReachesBeeGoal(s: RobotState)
    requires CanRun(DeployTheBee, s)
    ensures DistanceTo(BeeGoal, PlanEffects(DeployTheBee, s)) == 0
  {
  }

  /** Retracting the arms reaches the initial goal; turning the switch on or deploying the bee leaves it. */
  lemma ArmMovesAndInitGoal(s: RobotState)
    ensures CanRun(RetractArms, s) ==> DistanceTo(InitGoal, PlanEffects(RetractArms, s)) == 0
    ensures DistanceTo(InitGoal, PlanEffects(TurnSwitchOn, s)) == 1
    ensures DistanceTo(InitGoal, PlanEffects(DeployTheBee, s)) == 1
  {
  }

  /** A run of `2 - FullLevers(s)` pickups that can all run reaches the cube goal. */
  lemma PickupsReachPickupCubesGoal(s: RobotState, plan: seq<Action>)
    requires AllPickups(plan) && ApplyPlan(s, plan).Some?
    requires |plan| == 2 - FullLevers(s)
    ensures DistanceTo(PickupCubesGoal, ApplyPlan(s, plan).value) == 0
  {
    PickupsFillLevers(s, plan);
    PickupCubesDistance(ApplyPlan(s, plan).value);
  }

  /** No action clears the switch, the bee or a full lever, so a reached goal other than `InitGoal` stays reached. */
  lemma ActionKeepsGoal(g: Goal, a: Action, s: RobotState)
    requires g != InitGoal && InRange(a, s)
    requires Reached(g, s)
    ensures Reached(g, PlanEffects(a, s))
  {
  }

  /** The switch, bee and cube goals stay reached along every plan that can run. */
  lemma {:induction false} ReachedGoalStaysReached(g: Goal, s: RobotState, plan: seq<Action>)
    requires g != InitGoal
    requires Reached(g, s) && ApplyPlan(s, plan).Some?
    ensures Reached(g, ApplyPlan(s, plan).value)
    decreases |plan|
  {
    if plan != [] {
      ActionKeepsGoal(g, plan[0], s);
      ReachedGoalStaysReached(g, PlanEffects(plan[0], s), plan[1..]);
    }
  }
}
