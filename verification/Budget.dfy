/** Budgets of tasks and sub-tasks: what is reserved, spent and charged back. */
module Budget {
  import opened Prelude

  datatype Dimension = Tokens | WallTime | Steps | Approvals | Cost | Quota

  /** A cost limit of zero is no cap. */
  datatype Limits = Limits(tokens: nat, wallTime: nat, steps: nat, approvals: nat, cost: real)

  datatype Spent = Spent(tokens: nat, wallTime: nat, steps: nat, approvals: nat, cost: real, quota: real)

  const NOTHING := Spent(0, 0, 0, 0, 0.0, 0.0)

  function Clamp(fraction: real): real {
    if fraction < 0.0 then 0.0 else if fraction > 1.0 then 1.0 else fraction
  }

  function Left(limit: nat, spent: nat): nat {
    if spent >= limit then 0 else limit - spent
  }

  function Share(amount: nat, fraction: real): (r: nat)
    ensures r <= amount
  {
    ShareFits(amount as real, Clamp(fraction));
    (amount as real * Clamp(fraction)).Floor
  }

  lemma ShareFits(x: real, f: real)
    requires 0.0 <= f <= 1.0 && x >= 0.0
    ensures 0.0 <= x * f <= x
  {
    assert x * f <= x * 1.0 by { assert x * (1.0 - f) >= 0.0; }
  }

  datatype Budget = Budget(limits: Limits, spent: Spent) {
    function Exhausted(): Option<Dimension> {
      if spent.tokens >= limits.tokens then Some(Tokens)
      else if spent.wallTime >= limits.wallTime then Some(WallTime)
      else if spent.steps >= limits.steps then Some(Steps)
      else if spent.approvals >= limits.approvals then Some(Approvals)
      else if Capped() && spent.cost >= limits.cost then Some(Cost)
      else if spent.quota >= 100.0 then Some(Quota)
      else None
    }

    predicate CanContinue() { Exhausted().None? }

    predicate Capped() { limits.cost > 0.0 }

    /** A share of what is left, for a sub-task. */
    function Reserve(fraction: real): Budget {
      var left := if limits.cost - spent.cost > 0.0 then limits.cost - spent.cost else 0.0;
      Budget(
        Limits(Share(Left(limits.tokens, spent.tokens), fraction),
               Share(Left(limits.wallTime, spent.wallTime), fraction),
               Share(Left(limits.steps, spent.steps), fraction),
               Share(Left(limits.approvals, spent.approvals), fraction),
               left * Clamp(fraction)),
        NOTHING)
    }

    /** Charges what a sub-task spent; its time runs inside the parent's and is not added. */
    function Absorb(child: Spent): Budget {
      this.(spent := spent.(
        tokens := spent.tokens + child.tokens, steps := spent.steps + child.steps,
        approvals := spent.approvals + child.approvals, cost := spent.cost + child.cost,
        quota := if child.quota > spent.quota then child.quota else spent.quota))
    }

    function AfterStep(tokens: nat, elapsed: nat, cost: real): Budget {
      this.(spent := spent.(
        tokens := spent.tokens + tokens, wallTime := elapsed, steps := spent.steps + 1, cost := spent.cost + cost))
    }

    function AfterQuestion(): Budget { this.(spent := spent.(approvals := spent.approvals + 1)) }

    /** Spent no more than the limits, dimension by dimension, time and quota aside. */
    predicate Within() {
      && spent.tokens <= limits.tokens && spent.steps <= limits.steps && spent.approvals <= limits.approvals
      && (Capped() ==> spent.cost <= limits.cost)
    }
  }

  // ---- What each dimension does ----

  /** The dimension is used up: a bound is reached, or goes beyond; no cost is a cap of zero. */
  predicate UsedUp(b: Budget, d: Dimension) {
    match d
    case Tokens => b.limits.tokens <= b.spent.tokens
    case WallTime => b.limits.wallTime <= b.spent.wallTime
    case Steps => b.limits.steps <= b.spent.steps
    case Approvals => b.limits.approvals <= b.spent.approvals
    case Cost => 0.0 < b.limits.cost <= b.spent.cost
    case Quota => 100.0 <= b.spent.quota
  }

  function Rank(d: Dimension): nat {
    match d
    case Tokens => 0
    case WallTime => 1
    case Steps => 2
    case Approvals => 3
    case Cost => 4
    case Quota => 5
  }

  /** A task may go on exactly when no dimension is used up; what stops it is the first that is. */
  lemma ExhaustedIff(b: Budget)
    ensures b.CanContinue() <==> forall d: Dimension :: !UsedUp(b, d)
    ensures forall d: Dimension :: b.Exhausted() == Some(d) <==>
              UsedUp(b, d) && forall earlier: Dimension :: Rank(earlier) < Rank(d) ==> !UsedUp(b, earlier)
  {
    if b.Exhausted().Some? { assert UsedUp(b, b.Exhausted().value); }
  }

  /** The whole part of a share between nothing and all. */
  predicate IsShare(n: nat, amount: nat, fraction: real) {
    if fraction <= 0.0 then n == 0
    else if fraction >= 1.0 then n == amount
    else n as real <= amount as real * fraction < n as real + 1.0
  }

  lemma ShareIs(amount: nat, fraction: real)
    ensures IsShare(Share(amount, fraction), amount, fraction)
  {
    var x := amount as real * Clamp(fraction);
    assert x.Floor as real <= x < x.Floor as real + 1.0;
  }

  /** A sub-task starts having spent nothing, with its share of what is left on each dimension. */
  lemma ReserveIs(b: Budget, fraction: real)
    ensures
      var child := b.Reserve(fraction);
      && child.spent == Spent(0, 0, 0, 0, 0.0, 0.0)
      && IsShare(child.limits.tokens, Left(b.limits.tokens, b.spent.tokens), fraction)
      && IsShare(child.limits.wallTime, Left(b.limits.wallTime, b.spent.wallTime), fraction)
      && IsShare(child.limits.steps, Left(b.limits.steps, b.spent.steps), fraction)
      && IsShare(child.limits.approvals, Left(b.limits.approvals, b.spent.approvals), fraction)
      && (0.0 <= fraction <= 1.0 && b.spent.cost <= b.limits.cost ==>
            child.limits.cost == (b.limits.cost - b.spent.cost) * fraction)
      && (fraction >= 1.0 && b.spent.cost <= b.limits.cost ==> child.limits.cost == b.limits.cost - b.spent.cost)
      && (fraction <= 0.0 || b.limits.cost <= b.spent.cost ==> child.limits.cost == 0.0)
  {
    ShareIs(Left(b.limits.tokens, b.spent.tokens), fraction);
    ShareIs(Left(b.limits.wallTime, b.spent.wallTime), fraction);
    ShareIs(Left(b.limits.steps, b.spent.steps), fraction);
    ShareIs(Left(b.limits.approvals, b.spent.approvals), fraction);
    hide Share; hide IsShare; hide Left;
    if fraction >= 1.0 && b.spent.cost <= b.limits.cost {
      assert (b.limits.cost - b.spent.cost) * 1.0 == b.limits.cost - b.spent.cost;
    }
  }

  /** What is left and what was spent make up the limit, unless more was spent. */
  lemma LeftIs(limit: nat, spent: nat)
    ensures if spent <= limit then Left(limit, spent) + spent == limit else Left(limit, spent) == 0
  {
  }

  /** A sub-task's time is not added to its parent's, and of two quotas the higher counts. */
  lemma AbsorbIs(b: Budget, child: Spent)
    ensures
      var after := b.Absorb(child);
      && after.limits == b.limits && after.spent.wallTime == b.spent.wallTime
      && after.spent.quota >= b.spent.quota && after.spent.quota >= child.quota
      && (after.spent.quota == b.spent.quota || after.spent.quota == child.quota)
  {
  }

  // ---- What a task and its sub-tasks do ----

  /** The life of a task: its steps, its questions, and its sub-tasks one after the other, each
      charged back before anything else happens. */
  datatype Life =
    | Stop
    | Step(tokens: nat, elapsed: nat, cost: real, rest: Life)
    | Question(rest: Life)
    | Child(fraction: real, child: Life, rest: Life)

  function Run(b: Budget, life: Life): Budget
    decreases life
  {
    match life
    case Stop => b
    case Step(tokens, elapsed, cost, rest) => Run(b.AfterStep(tokens, elapsed, cost), rest)
    case Question(rest) => Run(b.AfterQuestion(), rest)
    case Child(fraction, child, rest) => Run(b.Absorb(Run(b.Reserve(fraction), child).spent), rest)
  }

  datatype Total = Total(tokens: nat, steps: nat, approvals: nat, cost: real) {
    function Plus(other: Total): Total {
      Total(tokens + other.tokens, steps + other.steps, approvals + other.approvals, cost + other.cost)
    }
  }

  /** Everything the task and all its descendants did themselves. */
  function Sum(life: Life): Total {
    match life
    case Stop => Total(0, 0, 0, 0.0)
    case Step(tokens, _, cost, rest) => Total(tokens, 1, 0, cost).Plus(Sum(rest))
    case Question(rest) => Total(0, 0, 1, 0.0).Plus(Sum(rest))
    case Child(_, child, rest) => Sum(child).Plus(Sum(rest))
  }

  /** What a budget says was spent is what the whole tree did, no more and no less. */
  lemma {:induction false} NothingUncounted(b: Budget, life: Life)
    ensures
      var after := Run(b, life).spent;
      && after.tokens == b.spent.tokens + Sum(life).tokens
      && after.steps == b.spent.steps + Sum(life).steps
      && after.approvals == b.spent.approvals + Sum(life).approvals
      && after.cost == b.spent.cost + Sum(life).cost
    ensures Run(b, life).limits == b.limits
    decreases life
  {
    match life
    case Stop =>
    case Step(tokens, elapsed, cost, rest) => NothingUncounted(b.AfterStep(tokens, elapsed, cost), rest);
    case Question(rest) => NothingUncounted(b.AfterQuestion(), rest);
    case Child(fraction, child, rest) =>
      NothingUncounted(b.Reserve(fraction), child);
      NothingUncounted(b.Absorb(Run(b.Reserve(fraction), child).spent), rest);
  }

  /** The time the task itself showed at its last step, if it made one. */
  function LastTime(life: Life): Option<nat> {
    match life
    case Stop => None
    case Step(_, elapsed, _, rest) => if LastTime(rest).None? then Some(elapsed) else LastTime(rest)
    case Question(rest) => LastTime(rest)
    case Child(_, _, rest) => LastTime(rest)
  }

  /** A budget's time is its own task's, whatever its sub-tasks took. */
  lemma {:induction false} TimeIsItsOwn(b: Budget, life: Life)
    ensures Run(b, life).spent.wallTime == LastTime(life).GetOr(b.spent.wallTime)
    decreases life
  {
    match life
    case Stop =>
    case Step(tokens, elapsed, cost, rest) => TimeIsItsOwn(b.AfterStep(tokens, elapsed, cost), rest);
    case Question(rest) => TimeIsItsOwn(b.AfterQuestion(), rest);
    case Child(fraction, child, rest) => TimeIsItsOwn(b.Absorb(Run(b.Reserve(fraction), child).spent), rest);
  }

  // ---- Children that stay within their limits ----

  /** A child of a capped budget is capped exactly when some cost is left and some share is given. */
  lemma ChildCappedIff(b: Budget, fraction: real)
    ensures b.Reserve(fraction).Capped() <==> b.spent.cost < b.limits.cost && fraction > 0.0
  {
    var left, f := b.limits.cost - b.spent.cost, Clamp(fraction);
    if left > 0.0 {
      if f > 0.0 { assert left * f > 0.0; }
    }
  }

  /** Every step and question leaves the one who makes it within his own limits, in the task and in
      every descendant, and no child is made when the cost cap is reached. */
  predicate Obeys(b: Budget, life: Life)
    decreases life
  {
    match life
    case Stop => true
    case Step(tokens, elapsed, cost, rest) =>
      b.AfterStep(tokens, elapsed, cost).Within() && Obeys(b.AfterStep(tokens, elapsed, cost), rest)
    case Question(rest) => b.AfterQuestion().Within() && Obeys(b.AfterQuestion(), rest)
    case Child(fraction, child, rest) =>
      && (b.Capped() ==> b.spent.cost < b.limits.cost)
      && Obeys(b.Reserve(fraction), child)
      && Obeys(b.Absorb(Run(b.Reserve(fraction), child).spent), rest)
  }

  lemma ReserveFits(b: Budget, fraction: real)
    ensures
      var child := b.Reserve(fraction).limits;
      && child.tokens <= Left(b.limits.tokens, b.spent.tokens)
      && child.steps <= Left(b.limits.steps, b.spent.steps)
      && child.approvals <= Left(b.limits.approvals, b.spent.approvals)
  {
    hide Share;
  }

  lemma ReservedCostFits(b: Budget, fraction: real)
    ensures b.spent.cost <= b.limits.cost ==>
              0.0 <= b.Reserve(fraction).limits.cost <= b.limits.cost - b.spent.cost
  {
    hide Share;
    var left := if b.limits.cost - b.spent.cost > 0.0 then b.limits.cost - b.spent.cost else 0.0;
    var f := Clamp(fraction);
    assert 0.0 <= f <= 1.0;
    hide Clamp;
    ShareFits(left, f);
  }

  lemma NoShareIsNothing(b: Budget, fraction: real)
    requires fraction <= 0.0
    ensures b.Reserve(fraction).limits == Limits(0, 0, 0, 0, 0.0)
  {
    assert Clamp(fraction) == 0.0;
    assert forall x: nat :: Share(x, fraction) == 0;
  }

  /** Who may make neither a step nor a question spends nothing, and neither do his children. */
  lemma {:induction false} NothingFromNothing(b: Budget, life: Life)
    requires b.limits.steps == 0 && b.limits.approvals == 0 && Obeys(b, life)
    ensures Sum(life) == Total(0, 0, 0, 0.0)
    decreases life
  {
    hide Share;
    match life
    case Stop =>
    case Step(_, _, _, _) =>
    case Question(_) =>
    case Child(fraction, child, rest) =>
      ReserveFits(b, fraction);
      NothingFromNothing(b.Reserve(fraction), child);
      NothingFromNothing(b.Absorb(Run(b.Reserve(fraction), child).spent), rest);
  }

  /** A task may use up all it has, in one step if it may make one; and so may the sub-task that got it all. */
  lemma AllMayBeUsed(b: Budget)
    requires b.spent == NOTHING && b.limits.steps > 0 && b.limits.cost >= 0.0
    ensures
      var cost := if b.Capped() then b.limits.cost else 0.0;
      var whole := Step(b.limits.tokens, 0, cost, Stop);
      && b.Within() && Obeys(b, whole) && Sum(whole) == Total(b.limits.tokens, 1, 0, cost)
      && Obeys(b, Child(1.0, whole, Stop)) && Sum(Child(1.0, whole, Stop)) == Sum(whole)
  {
    hide Budget.Reserve;
    WholeShare(b);
  }

  lemma WholeShare(b: Budget)
    requires b.spent == NOTHING && b.limits.cost >= 0.0
    ensures b.Reserve(1.0) == b
  {
    ReserveIs(b, 1.0);
    hide Budget.Reserve;
  }

  /** If each stays within his own limits, so does the whole tree within the root's. */
  lemma {:induction false} TreeWithinRoot(b: Budget, life: Life)
    requires b.Within() && Obeys(b, life)
    ensures Run(b, life).Within()
    ensures Sum(life).tokens <= b.limits.tokens - b.spent.tokens
    ensures Sum(life).steps <= b.limits.steps - b.spent.steps
    ensures Sum(life).approvals <= b.limits.approvals - b.spent.approvals
    ensures b.Capped() ==> Sum(life).cost <= b.limits.cost - b.spent.cost
    decreases life
  {
    NothingUncounted(b, life);
    match life
    case Stop =>
    case Step(tokens, elapsed, cost, rest) => TreeWithinRoot(b.AfterStep(tokens, elapsed, cost), rest);
    case Question(rest) => TreeWithinRoot(b.AfterQuestion(), rest);
    case Child(fraction, child, rest) =>
      var given := b.Reserve(fraction);
      ReserveFits(b, fraction);
      ReservedCostFits(b, fraction);
      ChildCappedIff(b, fraction);
      NothingUncounted(given, child);
      if fraction <= 0.0 {
        NoShareIsNothing(b, fraction);
        NothingFromNothing(given, child);
      } else {
        TreeWithinRoot(given, child);
      }
      TreeWithinRoot(b.Absorb(Run(given, child).spent), rest);
  }

  // ---- Children that stop once exhausted ----

  /** Nothing is started, in the task or a descendant, once a dimension is exhausted; one step takes
      at most `tokens` and `cost`. */
  predicate Guarded(b: Budget, life: Life, tokens: nat, cost: real)
    decreases life
  {
    match life
    case Stop => true
    case Step(t, elapsed, c, rest) =>
      b.CanContinue() && t <= tokens && 0.0 <= c <= cost && Guarded(b.AfterStep(t, elapsed, c), rest, tokens, cost)
    case Question(rest) => b.CanContinue() && Guarded(b.AfterQuestion(), rest, tokens, cost)
    case Child(fraction, child, rest) =>
      && b.CanContinue()
      && Guarded(b.Reserve(fraction), child, tokens, cost)
      && Guarded(b.Absorb(Run(b.Reserve(fraction), child).spent), rest, tokens, cost)
  }

  predicate NearlyWithin(b: Budget, tokens: nat, cost: real) {
    && b.spent.tokens <= b.limits.tokens + tokens
    && b.spent.steps <= b.limits.steps && b.spent.approvals <= b.limits.approvals
    && (b.Capped() ==> b.spent.cost <= b.limits.cost + cost)
  }

  /** Stopping once exhausted, the whole tree overshoots its root by at most one step, however many
      tasks it has: overshoots do not add up. Steps and questions never overshoot. */
  lemma {:induction false} OvershootIsOneStep(b: Budget, life: Life, tokens: nat, cost: real)
    requires cost >= 0.0 && NearlyWithin(b, tokens, cost) && Guarded(b, life, tokens, cost)
    ensures NearlyWithin(Run(b, life), tokens, cost)
    ensures Run(b, life).limits == b.limits
    ensures
      var after := Run(b, life).spent;
      && after.tokens <= b.limits.tokens + tokens
      && after.steps <= b.limits.steps && after.approvals <= b.limits.approvals
      && (b.limits.cost > 0.0 ==> after.cost <= b.limits.cost + cost)
    decreases life
  {
    match life
    case Stop =>
    case Step(t, elapsed, c, rest) => OvershootIsOneStep(b.AfterStep(t, elapsed, c), rest, tokens, cost);
    case Question(rest) => OvershootIsOneStep(b.AfterQuestion(), rest, tokens, cost);
    case Child(fraction, child, rest) =>
      ChildCappedIff(b, fraction);
      ReserveFits(b, fraction);
      ReservedCostFits(b, fraction);
      if fraction <= 0.0 {
        NoShareIsNothing(b, fraction);
        assert child == Stop;
      } else {
        OvershootIsOneStep(b.Reserve(fraction), child, tokens, cost);
      }
      OvershootIsOneStep(b.Absorb(Run(b.Reserve(fraction), child).spent), rest, tokens, cost);
  }

  /** The overshoot is real: a step may take more than what is left. */
  lemma OneStepMayOvershoot(tokens: nat) returns (b: Budget, life: Life)
    requires tokens > 0
    ensures b.spent == NOTHING && b.limits.tokens == 1 && Guarded(b, life, tokens, 0.0)
    ensures Run(b, life).spent.tokens == b.limits.tokens + tokens - 1
  {
    b := Budget(Limits(1, 1, 1, 1, 0.0), NOTHING);
    life := Step(tokens, 0, 0.0, Stop);
  }

  /** A parent whose cost cap is just reached gives an uncapped child: within his own limits the
      child takes the parent beyond any cost. */
  lemma ReachedCapIsLifted(cost: real) returns (b: Budget, life: Life)
    requires cost > 0.0
    ensures b.Capped() && b.Within() && b.spent.cost == b.limits.cost
    ensures life.Child? && Run(b.Reserve(life.fraction), life.child).Within()
    ensures Run(b, life).spent.cost == b.limits.cost + cost
  {
    b := Budget(Limits(10, 10, 10, 10, 1.0), Spent(0, 0, 0, 0, 1.0, 0.0));
    life := Child(1.0, Step(0, 0, cost, Stop), Stop);
    assert b.Reserve(1.0).limits.steps == 10;
    assert !b.Reserve(1.0).Capped();
  }
}
