/** The life cycle of a task: states, steps, sub-tasks, and what sub-tasks charge back. */
module Task {
  import opened Prelude
  import opened Budget

  datatype State = Pending | Planned | Running | WaitingApproval | Paused | Done | Failed | Cancelled | RolledBack {
    predicate Terminal() { Done? || Failed? || Cancelled? || RolledBack? }

    function AllowedNext(): set<State> {
      match this
      case Pending => {Planned, Cancelled, Failed}
      case Planned => {Running, Cancelled, Failed}
      case Running => {WaitingApproval, Paused, Done, Failed, Cancelled}
      case WaitingApproval => {Running, Cancelled, Failed}
      case Paused => {Running, Cancelled}
      case Done => {RolledBack}
      case _ => {}
    }

    predicate CanMoveTo(next: State) { next in AllowedNext() }
  }

  const MAX_DEPTH: nat := 3

  datatype TaskError = BadTransition(from: State, to: State) | Exhausted(dimension: Dimension) | DepthExceeded(max: nat)

  datatype ModelUsage = ModelUsage(turns: nat, tokensIn: nat, tokensOut: nat) {
    function Plus(other: ModelUsage): ModelUsage {
      ModelUsage(turns + other.turns, tokensIn + other.tokensIn, tokensOut + other.tokensOut)
    }
  }

  const NO_USAGE := ModelUsage(0, 0, 0)

  function UsageOf(usage: map<string, ModelUsage>, model: string): ModelUsage {
    if model in usage then usage[model] else NO_USAGE
  }

  /** `now` is `before` with the accounts of `child` added, except those still `left`. */
  ghost predicate Merged(before: map<string, ModelUsage>, child: map<string, ModelUsage>, left: set<string>,
                         now: map<string, ModelUsage>) {
    forall m :: UsageOf(now, m) ==
      if m in left then UsageOf(before, m) else UsageOf(before, m).Plus(UsageOf(child, m))
  }

  lemma PlusNothing(u: ModelUsage)
    ensures u.Plus(NO_USAGE) == u
  {
  }

  lemma NothingMerged(before: map<string, ModelUsage>, child: map<string, ModelUsage>)
    ensures Merged(before, child, child.Keys, before)
  {
    hide ModelUsage.Plus;
    forall m
      ensures UsageOf(before, m) ==
        if m in child.Keys then UsageOf(before, m) else UsageOf(before, m).Plus(UsageOf(child, m))
    {
      PlusNothing(UsageOf(before, m));
    }
  }

  lemma MergeOne(before: map<string, ModelUsage>, child: map<string, ModelUsage>, left: set<string>,
                 now: map<string, ModelUsage>, model: string)
    requires Merged(before, child, left, now) && model in left && model in child
    ensures Merged(before, child, left - {model}, now[model := UsageOf(now, model).Plus(child[model])])
  {
    hide ModelUsage.Plus;
    var after := now[model := UsageOf(now, model).Plus(child[model])];
    forall m
      ensures UsageOf(after, m) ==
        if m in left - {model} then UsageOf(before, m) else UsageOf(before, m).Plus(UsageOf(child, m))
    {
      if m != model { assert UsageOf(after, m) == UsageOf(now, m); }
    }
  }

  /** From where each state is reached. */
  lemma ReachedFrom(from: State, to: State)
    ensures from.CanMoveTo(to) <==>
              match to
              case Pending => false
              case Planned => from.Pending?
              case Running => from.Planned? || from.WaitingApproval? || from.Paused?
              case WaitingApproval => from.Running?
              case Paused => from.Running?
              case Done => from.Running?
              case Failed => from.Pending? || from.Planned? || from.Running? || from.WaitingApproval?
              case Cancelled =>
                from.Pending? || from.Planned? || from.Running? || from.WaitingApproval? || from.Paused?
              case RolledBack => from.Done?
  {
  }

  /** A state is an end exactly when nothing but a rollback follows it. */
  lemma TerminalIff(s: State)
    ensures s.Terminal() <==> forall next: State :: s.CanMoveTo(next) ==> next.RolledBack?
  {
    assert !s.Terminal() ==> s.CanMoveTo(Cancelled);
  }

  // ---- Histories ----

  /** A history starts pending and moves only as states allow. */
  ghost predicate Legal(history: seq<State>) {
    && history != [] && history[0] == Pending
    && forall i :: 0 < i < |history| ==> history[i - 1].CanMoveTo(history[i])
  }

  lemma Follows(history: seq<State>, i: nat)
    requires Legal(history) && i + 1 < |history|
    ensures history[i].CanMoveTo(history[i + 1]) && !history[i + 1].Pending?
  {
  }

  /** Once cancelled, failed or rolled back nothing follows; once done only a rollback does. */
  ghost predicate Final(history: seq<State>) {
    forall i: nat :: i < |history| && history[i].Terminal() ==> Ends(history, i)
  }

  ghost predicate Ends(history: seq<State>, i: nat)
    requires i < |history|
  {
    if history[i].Done? then |history| <= i + 2 && forall j :: i < j < |history| ==> history[j].RolledBack?
    else |history| == i + 1
  }

  /** A history as the daemon leaves it: `moves` states by transitions, then failures written directly,
      when a mission's last record is refused, when it panics or when the service restarts. */
  ghost predicate Told(history: seq<State>, moves: nat) {
    && moves <= |history| && Legal(history[..moves])
    && forall i :: moves <= i < |history| ==> history[i].Failed?
  }

  /** Transitions alone are final. */
  lemma LegalIsFinal(history: seq<State>)
    requires Legal(history)
    ensures Final(history)
  {
    forall i: nat | i < |history| && history[i].Terminal() ensures Ends(history, i) {
      if i + 1 < |history| {
        Follows(history, i);
        if i + 2 < |history| { Follows(history, i + 1); }
      }
    }
  }

  /** What the daemon leaves is final exactly when no failure was written directly, or one only, on a
      task that had not ended. */
  lemma FinalIff(history: seq<State>, moves: nat)
    requires Told(history, moves)
    ensures Final(history) <==>
              moves == |history| || (moves + 1 == |history| && !history[moves - 1].Terminal())
  {
    var legal := history[..moves];
    LegalIsFinal(legal);
    assert legal[moves - 1] == history[moves - 1];
    if moves == |history| {
      assert legal == history;
    } else if moves + 1 == |history| && !history[moves - 1].Terminal() {
      forall i: nat | i < |history| && history[i].Terminal() ensures Ends(history, i) {
        if i < moves { EndedBefore(legal, i); }
      }
    } else if history[moves - 1].Terminal() {
      assert !Ends(history, moves - 1) by { assert history[moves].Failed?; }
    } else {
      assert history[moves].Terminal() && !Ends(history, moves);
    }
  }

  lemma EndedBefore(history: seq<State>, i: nat)
    requires Legal(history) && i < |history| && history[i].Terminal()
    ensures history[|history| - 1].Terminal()
  {
    LegalIsFinal(history);
    assert Ends(history, i);
  }

  lemma {:induction false} LegalWasPlanned(history: seq<State>, i: nat)
    requires Legal(history) && i < |history|
    requires !history[i].Pending? && !history[i].Failed? && !history[i].Cancelled?
    ensures |history| > 1 && history[1].Planned?
    ensures history[i].Planned? ==> i == 1
    ensures !history[i].Planned? ==> i >= 2 && history[2].Running?
  {
    if i > 0 {
      Follows(history, i - 1);
      if i > 1 {
        Follows(history, i - 2);
        LegalWasPlanned(history, i - 1);
      }
    }
  }

  /** A task that is neither pending, failed nor cancelled was planned first, and ran next, direct
      failures or not. */
  lemma ActiveWasPlanned(history: seq<State>, moves: nat, i: nat)
    requires Told(history, moves) && i < |history|
    requires !history[i].Pending? && !history[i].Failed? && !history[i].Cancelled?
    ensures |history| > 1 && history[1].Planned?
    ensures history[i].Planned? ==> i == 1
    ensures !history[i].Planned? ==> i >= 2 && history[2].Running?
  {
    LegalWasPlanned(history[..moves], i);
  }

  lemma MoveKeepsTold(history: seq<State>, next: State)
    requires Told(history, |history|) && history != [] && history[|history| - 1].CanMoveTo(next)
    ensures Told(history + [next], |history| + 1)
  {
    assert history[..|history|] == history;
    assert (history + [next])[..|history| + 1] == history + [next];
  }

  lemma DirectFailureLegalIff(history: seq<State>)
    requires Told(history, |history|) && history != []
    ensures Legal(history + [Failed]) <==> history[|history| - 1].CanMoveTo(Failed)
  {
    assert history[..|history|] == history;
    var longer := history + [Failed];
    if Legal(longer) { Follows(longer, |history| - 1); }
  }

  // ---- Tasks ----

  class Task {
    const id: string
    var parent: Option<string>
    var depth: nat
    var state: State
    var budget: Budget
    var reason: Option<string>
    var history: seq<State>
    /** How many states of the history were reached by transitions. */
    ghost var moves: nat
    var usage: map<string, ModelUsage>

    ghost predicate Valid()
      reads this
    {
      && Told(history, moves) && history != [] && state == history[|history| - 1]
      && (parent.None? ==> depth == 0)
      && depth <= MAX_DEPTH
    }

    constructor (id: string, budget: Budget)
      ensures Valid() && this.id == id && this.budget == budget
      ensures parent.None? && state == Pending && history == [Pending] && moves == 1 && usage == map[] && reason.None?
    {
      this.id, this.budget := id, budget;
      parent, depth, state, reason := None, 0, Pending, None;
      history, usage := [Pending], map[];
      moves := 1;
    }

    /** A child takes its budget out of what is left to its parent. */
    method SpawnChild(id: string, fraction: real) returns (r: Result<Task, TaskError>)
      requires Valid()
      ensures r.Ok? <==> depth < 3
      ensures r.Err? ==> r.error == DepthExceeded(3)
      ensures r.Ok? ==>
                && fresh(r.value) && r.value.Valid() && r.value.id == id
                && r.value.parent == Some(this.id) && r.value.depth == depth + 1
                && r.value.budget == budget.Reserve(fraction)
                && r.value.usage == map[] && r.value.state == Pending
    {
      if depth + 1 > MAX_DEPTH {
        return Err(DepthExceeded(MAX_DEPTH));
      }
      var child := new Task(id, budget.Reserve(fraction));
      child.parent := Some(this.id);
      child.depth := depth + 1;
      r := Ok(child);
    }

    method Transition(next: State, why: Option<string>) returns (error: Option<TaskError>)
      requires Valid()
      modifies `state, `history, `moves, `reason
      ensures Valid()
      ensures error.None? <==> old(state).CanMoveTo(next)
      ensures error.Some? ==> unchanged(this) && error.value == BadTransition(state, next)
      ensures error.None? ==> state == next && history == old(history) + [next] && moves == |history|
      ensures reason == if error.None? && next.Terminal() then why else old(reason)
    {
      if !state.CanMoveTo(next) {
        return Some(BadTransition(state, next));
      }
      assert moves == |history|;
      MoveKeepsTold(history, next);
      state := next;
      history := history + [next];
      moves := moves + 1;
      if next.Terminal() {
        reason := why;
      }
      error := None;
    }

    /** A failure written without a transition. */
    method FailDirectly(why: string)
      requires Valid()
      modifies `state, `history, `reason
      ensures Valid()
      ensures state == Failed && history == old(history) + [Failed] && reason == Some(why)
    {
      assert (history + [Failed])[..moves] == history[..moves];
      state := Failed;
      reason := Some(why);
      history := history + [Failed];
    }

    /** The end of a mission: one transition, refused or not, then a direct failure if its last record
        was not taken. A running mission keeps a final history exactly if it was. */
    method Conclude(stopped: bool, error: Option<string>, recorded: bool)
      requires Valid()
      modifies `state, `history, `moves, `reason
      ensures Valid()
      ensures
        var next := if stopped then Cancelled else if error.None? then Done else Failed;
        history == old(history) + (if old(state).CanMoveTo(next) then [next] else [])
                                + (if recorded then [] else [Failed])
      ensures old(state).Running? ==> (Final(history) <==> recorded)
    {
      var next := if stopped then Cancelled else if error.None? then Done else Failed;
      var why := if stopped && error.Some? then Some("cancelled by the user") else error;
      var _ := Transition(next, why);
      if !recorded {
        FailDirectly("last record not confirmed");
      }
      FinalIff(history, moves);
    }

    /** A mission found under way when the service starts: its failure is written directly. The
        history stays final, and is one of transitions only if the mission was not paused. */
    method FailAtRestart()
      requires Valid()
      modifies `state, `history, `reason
      ensures Valid()
      ensures history == old(history) + if old(state).Running? || old(state).WaitingApproval? || old(state).Paused?
                                        then [Failed] else []
      ensures old(moves) == |old(history)| ==> Final(history) && (Legal(history) <==> !old(state).Paused?)
    {
      FinalIff(history, moves);
      if state.Running? || state.WaitingApproval? || state.Paused? {
        if moves == |history| { DirectFailureLegalIff(history); }
        FailDirectly("service restarted during the mission");
        FinalIff(history, moves);
      } else {
        assert history[..|history|] == history;
      }
    }

    /** Counts the step, then says which dimension it exhausted. */
    method RecordStep(tokens: nat, elapsed: nat, cost: real) returns (error: Option<TaskError>)
      modifies `budget
      ensures budget == old(budget).AfterStep(tokens, elapsed, cost)
      ensures error.None? <==> budget.CanContinue()
      ensures error.Some? ==> error.value == Exhausted(budget.Exhausted().value)
    {
      budget := budget.AfterStep(tokens, elapsed, cost);
      error := if budget.Exhausted().Some? then Some(Exhausted(budget.Exhausted().value)) else None;
    }

    method RecordApproval() returns (error: Option<TaskError>)
      modifies `budget
      ensures budget == old(budget).AfterQuestion()
      ensures error.None? <==> budget.spent.approvals < budget.limits.approvals
      ensures error.Some? ==> error.value == Exhausted(Approvals)
    {
      budget := budget.AfterQuestion();
      error := if budget.spent.approvals >= budget.limits.approvals then Some(Exhausted(Approvals)) else None;
    }

    method ChargeModel(model: string, tokensIn: nat, tokensOut: nat)
      modifies `usage
      ensures UsageOf(usage, model) == UsageOf(old(usage), model).Plus(ModelUsage(1, tokensIn, tokensOut))
      ensures forall m :: m != model ==> UsageOf(usage, m) == UsageOf(old(usage), m)
    {
      usage := usage[model := UsageOf(usage, model).Plus(ModelUsage(1, tokensIn, tokensOut))];
    }

    /** Charges a sub-task's account to this task's, model by model. */
    method AbsorbUsage(child: map<string, ModelUsage>)
      modifies `usage
      ensures Merged(old(usage), child, {}, usage)
    {
      hide Merged;
      var left := child.Keys;
      NothingMerged(usage, child);
      while left != {}
        invariant left <= child.Keys && Merged(old(usage), child, left, usage)
        decreases |left|
      {
        var model :| model in left;
        MergeOne(old(usage), child, left, usage, model);
        usage := usage[model := UsageOf(usage, model).Plus(child[model])];
        left := left - {model};
      }
    }

    /** Charges a finished sub-task to this task: its budget and its models. */
    method AbsorbChild(child: Task)
      requires child != this
      modifies `budget, `usage
      ensures budget == old(budget).Absorb(child.budget.spent)
      ensures Merged(old(usage), child.usage, {}, usage)
    {
      budget := budget.Absorb(child.budget.spent);
      AbsorbUsage(child.usage);
    }
  }

  // ---- The runtime's family of tasks ----

  /** What linking changes of a task. */
  datatype Link = Link(parent: Option<string>, depth: nat, budget: Budget)

  datatype LinkError = Unknown(id: string) | TooDeep

  /** A sub-task is one deeper than its parent, and none is deeper than three. */
  ghost predicate Ranked(tasks: map<string, Link>) {
    forall t :: t in tasks ==> RankedAt(tasks, t)
  }

  ghost predicate RankedAt(tasks: map<string, Link>, t: string)
    requires t in tasks
  {
    && tasks[t].depth <= MAX_DEPTH
    && match tasks[t].parent
       case None => tasks[t].depth == 0
       case Some(p) => p in tasks && tasks[t].depth == tasks[p].depth + 1
  }

  function Linked(tasks: map<string, Link>, child: string, parent: string, fraction: real): Link
    requires parent in tasks
  {
    Link(Some(parent), tasks[parent].depth + 1, tasks[parent].budget.Reserve(fraction))
  }

  /** Linking keeps depths right exactly when the child is not its own parent and its own children, if
      it has any, already are one below its new depth. */
  lemma LinkKeepsRanksIff(tasks: map<string, Link>, child: string, parent: string, fraction: real)
    requires Ranked(tasks) && child in tasks && parent in tasks && tasks[parent].depth < 3
    ensures Ranked(tasks[child := Linked(tasks, child, parent, fraction)]) <==>
              && parent != child
              && forall t :: t in tasks && t != child && tasks[t].parent == Some(child) ==>
                   tasks[t].depth == tasks[parent].depth + 2
  {
    var tasks' := tasks[child := Linked(tasks, child, parent, fraction)];
    assert RankedAt(tasks, child) && RankedAt(tasks, parent);
    assert RankedAt(tasks', child) <==> parent != child;
    forall t | t in tasks && t != child
      ensures RankedAt(tasks', t) <==> (tasks[t].parent == Some(child) ==> tasks[t].depth == tasks[parent].depth + 2)
    {
      assert RankedAt(tasks, t);
    }
  }

  /** How many parents are above a task. */
  function Above(tasks: map<string, Link>, t: string, fuel: nat): nat
    decreases fuel
  {
    if t !in tasks || tasks[t].parent.None? || fuel == 0 then 0
    else 1 + Above(tasks, tasks[t].parent.value, fuel - 1)
  }

  /** The recorded depth is the number of parents above, so no chain is longer than three. */
  lemma {:induction false} DepthIsChainLength(tasks: map<string, Link>, t: string, fuel: nat)
    requires Ranked(tasks) && t in tasks && fuel >= tasks[t].depth
    ensures Above(tasks, t, fuel) == tasks[t].depth <= 3
    decreases fuel
  {
    assert RankedAt(tasks, t);
    if tasks[t].parent.Some? { DepthIsChainLength(tasks, tasks[t].parent.value, fuel - 1); }
  }

  class Family {
    var tasks: map<string, Link>

    constructor ()
      ensures tasks == map[]
    {
      tasks := map[];
    }

    method LinkChild(child: string, parent: string, fraction: real) returns (error: Option<LinkError>)
      modifies this
      ensures parent !in old(tasks) ==> error == Some(Unknown(parent))
      ensures parent in old(tasks) && old(tasks)[parent].depth >= 3 ==> error == Some(TooDeep)
      ensures parent in old(tasks) && old(tasks)[parent].depth < 3 && child !in old(tasks) ==>
                error == Some(Unknown(child))
      ensures error.Some? ==> tasks == old(tasks)
      ensures error.None? ==>
                && parent in old(tasks) && child in old(tasks) && old(tasks)[parent].depth < 3
                && var above := old(tasks)[parent];
                   tasks == old(tasks)[child := Link(Some(parent), above.depth + 1, above.budget.Reserve(fraction))]
    {
      if parent !in tasks {
        return Some(Unknown(parent));
      }
      if tasks[parent].depth + 1 > MAX_DEPTH {
        return Some(TooDeep);
      }
      if child !in tasks {
        return Some(Unknown(child));
      }
      tasks := tasks[child := Linked(tasks, child, parent, fraction)];
      error := None;
    }
  }
}
