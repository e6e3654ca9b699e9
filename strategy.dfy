/**
 * The planning domain of the Debra robot and the retrying move
 * (master-firmware/src/strategy.cpp).
 *
 * `can_run`, `plan_effects` and `is_reached` are pure. `execute` updates the
 * state in place after driving the hardware; only its writes to the state
 * are modelled, and whether the approach move succeeded is its input.
 */
module Strategy {

  import opened Options

  /** An `unsigned` of the target: 32 bits, arithmetic modulo 2^32. */
  type u32 = x: int | 0 <= x < 0x1_0000_0000

  /** `x + k` in `unsigned` arithmetic. */
  function AddU32(x: u32, k: nat): u32
  {
    (x + k) % 0x1_0000_0000
  }

  /** `x - k` in `unsigned` arithmetic (Dafny's `%` never yields a negative value). */
  function SubU32(x: u32, k: nat): u32
  {
    (x - k) % 0x1_0000_0000
  }

  datatype DebraState = DebraState(
    score: u32,
    armsAreIndexed: bool,
    armsAreDeployed: bool,
    cylinderCount: u32)

  /** The member initialisers of `DebraState`. */
  const INITIAL_STATE: DebraState := DebraState(0, false, true, 0)

  datatype Field = Score | ArmsAreIndexed | ArmsAreDeployed | CylinderCount

  /** `s` and `t` hold the same value in every field outside `fields`. */
  predicate AgreeOutside(s: DebraState, t: DebraState, fields: set<Field>)
  {
    && (Score !in fields ==> s.score == t.score)
    && (ArmsAreIndexed !in fields ==> s.armsAreIndexed == t.armsAreIndexed)
    && (ArmsAreDeployed !in fields ==> s.armsAreDeployed == t.armsAreDeployed)
    && (CylinderCount !in fields ==> s.cylinderCount == t.cylinderCount)
  }

  datatype Action = IndexArms | RetractArms | CollectCylinder | DepositCylinder

  predicate CanRun(a: Action, s: DebraState)
  {
    match a
    case IndexArms => true
    case RetractArms => s.armsAreIndexed
    case CollectCylinder => !s.armsAreDeployed
    case DepositCylinder => !s.armsAreDeployed && s.cylinderCount > 0
  }

  /** The fields an action's planned effect may write. */
  function Writes(a: Action): set<Field>
  {
    match a
    case IndexArms => {ArmsAreIndexed}
    case RetractArms => {ArmsAreDeployed}
    case CollectCylinder => {CylinderCount, ArmsAreDeployed}
    case DepositCylinder => {Score, CylinderCount, ArmsAreDeployed}
  }

  /** The state the planner expects after running `a`; nothing outside `Writes(a)` changes. */
  function PlanEffects(a: Action, s: DebraState): (r: DebraState)
    ensures AgreeOutside(s, r, Writes(a))
  {
    match a
    case IndexArms => s.(armsAreIndexed := true)
    case RetractArms => s.(armsAreDeployed := false)
    case CollectCylinder => s.(cylinderCount := AddU32(s.cylinderCount, 1), armsAreDeployed := true)
    case DepositCylinder =>
      s.(score := AddU32(s.score, 10), cylinderCount := SubU32(s.cylinderCount, 1), armsAreDeployed := true)
  }

  /** `IndexArms` always runs; `RetractArms` runs exactly when the arms are indexed. */
  lemma ArmActionsSpec(s: DebraState)
    ensures CanRun(IndexArms, s) && PlanEffects(IndexArms, s).armsAreIndexed
    ensures CanRun(RetractArms, s) <==> s.armsAreIndexed
    ensures !PlanEffects(RetractArms, s).armsAreDeployed
  {
  }

  /** Collecting needs retracted arms, adds one cylinder (wrapping to 0 past 2^32 - 1) and deploys the arms. */
  lemma CollectCylinderSpec(s: DebraState)
    ensures CanRun(CollectCylinder, s) <==> !s.armsAreDeployed
    ensures s.cylinderCount < 0xFFFF_FFFF ==> PlanEffects(CollectCylinder, s).cylinderCount == s.cylinderCount + 1
    ensures s.cylinderCount == 0xFFFF_FFFF ==> PlanEffects(CollectCylinder, s).cylinderCount == 0
    ensures PlanEffects(CollectCylinder, s).armsAreDeployed
  {
  }

  /**
   * Depositing needs retracted arms and a cylinder, so the unsigned decrement
   * never wraps; it scores 10 points and deploys the arms.
   */
  lemma DepositCylinderSpec(s: DebraState)
    requires CanRun(DepositCylinder, s)
    ensures PlanEffects(DepositCylinder, s).cylinderCount == s.cylinderCount - 1
    ensures s.score < 0xFFFF_FFFF - 9 ==> PlanEffects(DepositCylinder, s).score == s.score + 10
    ensures PlanEffects(DepositCylinder, s).armsAreDeployed
  {
  }

  /** Without the `can_run` guard the decrement wraps: depositing with no cylinder leaves 2^32 - 1 of them. */
  lemma DepositWithoutCylinderWraps(s: DebraState)
    requires s.cylinderCount == 0
    ensures !CanRun(DepositCylinder, s)
    ensures PlanEffects(DepositCylinder, s).cylinderCount == 0xFFFF_FFFF
  {
  }

  predicate InitGoalReached(s: DebraState)
  {
    s.armsAreDeployed == false
  }

  predicate GameGoalReached(s: DebraState)
  {
    s.score > 0 && !s.armsAreDeployed
  }

  /** The game goal asks for a score and retracted arms, so it implies the initial goal; the initial state meets neither. */
  lemma GoalsSpec(s: DebraState)
    ensures GameGoalReached(s) <==> s.score > 0 && InitGoalReached(s)
    ensures !InitGoalReached(INITIAL_STATE) && !GameGoalReached(INITIAL_STATE)
  {
  }

  // ---------------------------------------------------------------------------
  // Following a plan
  // ---------------------------------------------------------------------------

  /** The state after following `plan` from `s`, or `None` if some step cannot run where it is reached. */
  function ApplyPlan(s: DebraState, plan: seq<Action>): Option<DebraState>
    decreases |plan|
  {
    if plan == [] then Some(s)
    else if !CanRun(plan[0], s) then None
    else ApplyPlan(PlanEffects(plan[0], s), plan[1..])
  }

  /** Number of occurrences of `a` in `plan`. */
  function Count(plan: seq<Action>, a: Action): nat
  {
    if plan == [] then 0 else (if plan[0] == a then 1 else 0) + Count(plan[1..], a)
  }

  /** Splits off the first action of a plan in a count. */
  lemma CountCons(plan: seq<Action>, a: Action)
    requires plan != []
    ensures Count(plan, a) == (if plan[0] == a then 1 else 0) + Count(plan[1..], a)
  {
  }

  /**
   * Along any plan that can run, no cylinder is deposited that was not held
   * at the start or collected on the way, and the cylinder count follows the
   * collects and deposits (while it stays below 2^32).
   */
  lemma {:induction false} PlanCylinderBalance(s: DebraState, plan: seq<Action>)
    requires ApplyPlan(s, plan).Some?
    requires s.cylinderCount + Count(plan, CollectCylinder) < 0x1_0000_0000
    ensures Count(plan, DepositCylinder) <= s.cylinderCount + Count(plan, CollectCylinder)
    ensures ApplyPlan(s, plan).value.cylinderCount ==
              s.cylinderCount + Count(plan, CollectCylinder) - Count(plan, DepositCylinder)
    decreases |plan|
  {
    if plan != [] {
      CountCons(plan, CollectCylinder);
      CountCons(plan, DepositCylinder);
      var s1 := PlanEffects(plan[0], s);
      assert s1.cylinderCount == s.cylinderCount + (if plan[0] == CollectCylinder then 1 else 0)
                                 - (if plan[0] == DepositCylinder then 1 else 0);
      PlanCylinderBalance(s1, plan[1..]);
    }
  }

  /** Adding to a value already reduced modulo 2^32 gives the same residue. */
  lemma AddAfterWrap(x: int, y: int)
    ensures ((x % 0x1_0000_0000) + y) % 0x1_0000_0000 == (x + y) % 0x1_0000_0000
  {
    var m := 0x1_0000_0000;
    var q := x / m;
    assert x == q * m + x % m;
    assert (x % m) + y == (x + y) - q * m;
    assert ((x + y) - q * m) % m == (x + y) % m by {
      var z := x + y;
      assert z - q * m == (z / m - q) * m + z % m;
    }
  }

  /** Along any plan that can run, the score grows by 10 per deposit, modulo 2^32. */
  lemma {:induction false} PlanScore(s: DebraState, plan: seq<Action>)
    requires ApplyPlan(s, plan).Some?
    ensures ApplyPlan(s, plan).value.score == (s.score + 10 * Count(plan, DepositCylinder)) % 0x1_0000_0000
    decreases |plan|
  {
    if plan != [] {
      CountCons(plan, DepositCylinder);
      var s1 := PlanEffects(plan[0], s);
      var n := Count(plan[1..], DepositCylinder);
      PlanScore(s1, plan[1..]);
      if plan[0] == DepositCylinder {
        AddAfterWrap(s.score + 10, 10 * n);
        assert s.score + 10 * Count(plan, DepositCylinder) == s.score + 10 + 10 * n;
      } else {
        assert s1.score == s.score;
      }
    }
  }

  /** From the initial state, indexing then retracting the arms reaches the initial goal; retracting first cannot run. */
  lemma InitPlanReachesInitGoal()
    ensures ApplyPlan(INITIAL_STATE, [RetractArms]).None?
    ensures ApplyPlan(INITIAL_STATE, [IndexArms, RetractArms]).Some?
    ensures InitGoalReached(ApplyPlan(INITIAL_STATE, [IndexArms, RetractArms]).value)
  {
    assert [IndexArms, RetractArms][1..] == [RetractArms];
  }

  // ---------------------------------------------------------------------------
  // Executing actions
  // ---------------------------------------------------------------------------

  /** The strategy's state, which `execute` updates in place. */
  class Robot {
    var state: DebraState

    constructor ()
      ensures state == INITIAL_STATE
    {
      state := INITIAL_STATE;
    }

    /**
     * `execute` of an action. `approachSucceeded` is what `strategy_goto_avoid`
     * returned for the moves that make one (collecting and depositing).
     * On success the state becomes exactly the planned effect; a failed
     * approach only marks the arms deployed.
     */
    method Execute(a: Action, approachSucceeded: bool) returns (ok: bool)
      modifies this
      ensures ok == (a.IndexArms? || a.RetractArms? || approachSucceeded)
      ensures ok ==> state == PlanEffects(a, old(state))
      ensures !ok ==> state == old(state).(armsAreDeployed := true)
    {
      match a {
        case IndexArms =>
          state := state.(armsAreIndexed := true);
          return true;
        case RetractArms =>
          state := state.(armsAreDeployed := false);
          return true;
        case CollectCylinder =>
          if !approachSucceeded {
            state := state.(armsAreDeployed := true);
            return false;
          }
          state := state.(cylinderCount := AddU32(state.cylinderCount, 1));
          state := state.(armsAreDeployed := true);
          return true;
        case DepositCylinder =>
          if !approachSucceeded {
            state := state.(armsAreDeployed := true);
            return false;
          }
          state := state.(score := AddU32(state.score, 10));
          state := state.(cylinderCount := SubU32(state.cylinderCount, 1));
          state := state.(armsAreDeployed := true);
          return true;
      }
    }
  }

  // ---------------------------------------------------------------------------
  // strategy_goto_avoid_retry
  // ---------------------------------------------------------------------------

  /**
   * Tries the move until it succeeds, at most `numRetries + 1` times when
   * `numRetries` is not negative and without bound otherwise.
   * `gotoAvoid(k)` is the result of the `k`-th call of `strategy_goto_avoid`;
   * `attempts` is the number of calls made.
   */
  method GotoAvoidRetry(numRetries: int, gotoAvoid: nat -> bool) returns (finished: bool, attempts: nat)
    requires numRetries < 0 ==> exists k: nat :: gotoAvoid(k)
    ensures 1 <= attempts
    ensures finished == gotoAvoid(attempts - 1)
    ensures forall k :: 0 <= k < attempts - 1 ==> !gotoAvoid(k)
    ensures numRetries >= 0 ==> attempts <= numRetries + 1
    ensures numRetries >= 0 && !finished ==> attempts == numRetries + 1
    ensures numRetries < 0 ==> finished
  {
    ghost var success: nat :| numRetries < 0 ==> gotoAvoid(success);
    finished := false;
    var counter := 0;
    while !finished
      invariant !finished ==> forall k :: 0 <= k < counter ==> !gotoAvoid(k)
      invariant finished ==> 1 <= counter && gotoAvoid(counter - 1) && forall k :: 0 <= k < counter - 1 ==> !gotoAvoid(k)
      invariant numRetries >= 0 ==> counter <= numRetries + 1
      invariant numRetries >= 0 && !finished ==> counter <= numRetries
      invariant numRetries < 0 ==> counter <= success + 1
      invariant numRetries < 0 && !finished ==> counter <= success
      decreases (if numRetries >= 0 then numRetries + 1 else success + 1) - counter, !finished
    {
      finished := gotoAvoid(counter);
      counter := counter + 1;
      if numRetries >= 0 && counter > numRetries {
        break;
      }
    }
    attempts := counter;
  }
}
