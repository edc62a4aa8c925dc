/** The stage sequence of the greeting app: each completed screen hands over
    to the next one, and the dashboard is the last stop. */
module Stages {
  import opened Lists

  /** The `AppStage` union, in the order its declaration lists the members. */
  datatype Stage = Landing | Game | Gallery | Notes | Proposal | Dashboard

  /** The order in which the screens are shown. */
  const Order: seq<Stage> := [Landing, Proposal, Game, Gallery, Notes, Dashboard]

  /** `nextStage`: look the stage up in the order and move one step on,
      unless it is already the last one. */
  function NextStage(stage: Stage): Stage
  {
    var i := IndexOf(Order, stage);
    if i < |Order| - 1 then Order[i + 1] else stage
  }

  /** Every stage occurs in the order exactly once. */
  lemma OrderIsComplete(stage: Stage)
    ensures stage in Order
    ensures Distinct(Order)
    ensures multiset(Order)[stage] == 1
  {
  }

  /** The lookup never fails, and it finds the stage at its own position. */
  lemma {:induction false} IndexOfOrder(k: nat)
    requires k < |Order|
    ensures IndexOf(Order, Order[k]) == k
  {
    OrderIsComplete(Order[k]);
  }

  /** Each stage but the last moves to its successor in the order. */
  lemma NextIsSuccessor(k: nat)
    requires k < |Order| - 1
    ensures NextStage(Order[k]) == Order[k + 1]
  {
    IndexOfOrder(k);
  }

  /** The dashboard is where the journey ends: the step leaves it in place,
      and it is the only stage the step leaves in place. */
  lemma DashboardIsFixedPoint(stage: Stage)
    ensures NextStage(stage) == stage <==> stage == Dashboard
  {
    OrderIsComplete(stage);
    var k := IndexOf(Order, stage);
    IndexOfOrder(k);
    if k < |Order| - 1 {
      NextIsSuccessor(k);
    }
  }

  /** The position of a stage in the order. */
  function Position(stage: Stage): (r: nat)
    ensures r < |Order| && Order[r] == stage
  {
    OrderIsComplete(stage);
    IndexOf(Order, stage)
  }

  /** A step never goes back, and goes forward by exactly one unless at the end. */
  lemma StepAdvances(stage: Stage)
    ensures Position(NextStage(stage)) == if stage == Dashboard then Position(stage) else Position(stage) + 1
  {
    var k := Position(stage);
    IndexOfOrder(k);
    if k < |Order| - 1 {
      NextIsSuccessor(k);
      IndexOfOrder(k + 1);
    }
  }

  /** `n` steps of `nextStage`. */
  function Steps(stage: Stage, n: nat): Stage
    decreases n
  {
    if n == 0 then stage else NextStage(Steps(stage, n - 1))
  }

  /** From the landing screen, `n <= 5` steps reach position `n`: the dashboard
      is reached after exactly five steps and not earlier. */
  lemma {:induction false} StepsFromLanding(n: nat)
    requires n <= |Order| - 1
    ensures Steps(Landing, n) == Order[n]
    ensures Steps(Landing, n) == Dashboard <==> n == |Order| - 1
  {
    if n > 0 {
      StepsFromLanding(n - 1);
      NextIsSuccessor(n - 1);
    }
    IndexOfOrder(n);
    IndexOfOrder(|Order| - 1);
  }
}
