/** What holds of the approval queue over every run. */
module ApprovalRuns {
  import opened Prelude
  import opened Approvals

  datatype Op =
    | Ask(request: Request, id: string, now: Time, pick: Option<string>)
    | Decide(id: string, ruling: Ruling, scope: Scope, now: Time, ruleId: string)
    | Reason(id: string, reason: string)
    | Sweep(now: Time)
    | DropRule(id: string)
    | DropTask(task: string)

  predicate Enabled(s: State, op: Op) {
    op.Ask? && FirstAnswering(s.rules, Fresh(op.request, op.id, op.now), op.now).None? ==>
      IsPick(s.once, Fresh(op.request, op.id, op.now), op.pick)
  }

  function Step(s: State, op: Op): State
    requires Enabled(s, op)
  {
    match op
    case Ask(request, id, now, pick) => RequestStep(s, request, id, now, pick).0
    case Decide(id, ruling, scope, now, ruleId) => ResolveStep(s, id, ruling, scope, now, ruleId).0
    case Reason(id, reason) => ExplainStep(s, id, reason).0
    case Sweep(now) => ExpireStep(s, now)
    case DropRule(id) => s.(rules := WithoutRule(s.rules, id))
    case DropTask(task) => s.(rules := WithoutTask(s.rules, task))
  }

  /** The states a sequence of operations goes through. */
  predicate IsRun(states: seq<State>, ops: seq<Op>) {
    && |states| == |ops| + 1
    && forall i :: 0 <= i < |ops| ==> Enabled(states[i], ops[i]) && states[i + 1] == Step(states[i], ops[i])
  }

  /** The identifiers given to requests so far. */
  function Used(ops: seq<Op>): set<string> {
    set op <- ops | op.Ask? :: op.id
  }

  /** Every request gets an identifier no earlier request had. */
  predicate FreshIds(ops: seq<Op>) {
    forall i :: 0 <= i < |ops| && ops[i].Ask? ==> ops[i].id !in Used(ops[..i])
  }

  // ---- The invariant ----

  ghost predicate Sound(s: State, used: set<string>) {
    && s.pending.Keys !! s.resolved.Keys
    && s.pending.Keys <= used
    && s.resolved.Keys <= used
    && (forall id <- s.pending :: s.pending[id].state == Pending)
    && (forall id <- s.resolved :: s.resolved[id].state.Resolved?)
    && (forall id <- s.once :: id in s.resolved && s.once[id] == s.resolved[id])
  }

  function UsedAfter(used: set<string>, op: Op): set<string> {
    if op.Ask? then used + {op.id} else used
  }

  lemma StepKeepsSound(s: State, used: set<string>, op: Op)
    requires Sound(s, used) && Enabled(s, op)
    requires op.Ask? ==> op.id !in used
    ensures Sound(Step(s, op), UsedAfter(used, op))
  {
  }

  /** What may happen to the status of one identifier already in use. */
  predicate StatusMoves(before: Option<Approval>, after: Option<Approval>) {
    match (before, after)
    case (_, None) => true
    case (None, Some(_)) => false
    case (Some(a), Some(b)) =>
      if a.state == Pending
      then b.(state := Pending, reason := None) == a.(reason := None) && (b.state == Pending || b.state.Resolved?)
      else b == a
  }

  lemma StepMovesStatus(s: State, used: set<string>, op: Op, id: string)
    requires Sound(s, used) && Enabled(s, op)
    requires op.Ask? ==> op.id !in used
    requires id in used
    ensures StatusMoves(Status(s, id), Status(Step(s, op), id))
  {
  }

  lemma UsedGrows(ops: seq<Op>, i: nat)
    requires i < |ops|
    ensures Used(ops[..i + 1]) == UsedAfter(Used(ops[..i]), ops[i])
  {
    assert ops[..i + 1] == ops[..i] + [ops[i]];
    forall id ensures id in Used(ops[..i + 1]) <==> id in UsedAfter(Used(ops[..i]), ops[i]) {
      if id in Used(ops[..i + 1]) {
        var op :| op in ops[..i + 1] && op.Ask? && op.id == id;
      }
      if id in Used(ops[..i]) {
        var op :| op in ops[..i] && op.Ask? && op.id == id;
        assert op in ops[..i + 1];
      }
      if ops[i].Ask? && id == ops[i].id { assert ops[i] in ops[..i + 1]; }
    }
  }

  lemma {:induction false} RunKeepsSound(states: seq<State>, ops: seq<Op>, n: nat)
    requires IsRun(states, ops) && states[0] == EMPTY && FreshIds(ops) && n <= |ops|
    ensures Sound(states[n], Used(ops[..n]))
  {
    if n == 0 {
      assert ops[..0] == [];
    } else {
      RunKeepsSound(states, ops, n - 1);
      StepKeepsSound(states[n - 1], Used(ops[..n - 1]), ops[n - 1]);
      UsedGrows(ops, n - 1);
    }
  }

  /** Decisions are final. In every run with fresh identifiers, an identifier once seen goes from
      pending to at most one decision, which never changes afterwards, or is forgotten for good. */
  lemma {:induction false} DecisionsAreFinal(states: seq<State>, ops: seq<Op>, i: nat, j: nat, id: string)
    requires IsRun(states, ops) && states[0] == EMPTY && FreshIds(ops)
    requires i <= j <= |ops| && id in Used(ops[..i])
    ensures StatusMoves(Status(states[i], id), Status(states[j], id))
    decreases j - i
  {
    if i < j {
      RunKeepsSound(states, ops, i);
      StepMovesStatus(states[i], Used(ops[..i]), ops[i], id);
      UsedGrows(ops, i);
      DecisionsAreFinal(states, ops, i + 1, j, id);
    } else {
      RunKeepsSound(states, ops, i);
    }
  }

  // ---- Paying for irreversible actions ----

  datatype Call = Call(task: string, action: string, target: string)

  function CallOf(r: Request): Call { Call(r.task, r.action, r.target) }

  /** An irreversible request on this call is answered Allow at once. */
  predicate AllowsAtOnce(s: State, op: Op, call: Call)
    requires Enabled(s, op)
  {
    && op.Ask?
    && op.request.irreversible
    && CallOf(op.request) == call
    && RequestStep(s, op.request, op.id, op.now, op.pick).1.state == Resolved(Allow)
  }

  /** A human allows a pending request on this call. */
  predicate HumanAllows(s: State, op: Op, call: Call) {
    && op.Decide?
    && op.ruling == Allow
    && op.id in s.pending
    && CallOf(s.pending[op.id].request) == call
  }

  /** It is allowed by consuming a permission whose own request was, or was not, irreversible. */
  predicate PaidBy(s: State, op: Op, call: Call, irreversible: bool)
    requires Enabled(s, op)
  {
    && AllowsAtOnce(s, op, call)
    && op.pick.Some? && op.pick.value in s.once
    && s.once[op.pick.value].request.irreversible == irreversible
  }

  /** A human gives a one-time permission on this call, for such a request. */
  predicate GivesOnce(s: State, op: Op, call: Call, irreversible: bool) {
    && HumanAllows(s, op, call)
    && s.pending[op.id].request.irreversible == irreversible
    && EffectiveScope(s.pending[op.id], Allow, op.scope) == Once
  }

  function AnsweredAllow(states: seq<State>, ops: seq<Op>, call: Call, n: nat): nat
    requires IsRun(states, ops) && n <= |ops|
  {
    if n == 0 then 0
    else AnsweredAllow(states, ops, call, n - 1) + if AllowsAtOnce(states[n - 1], ops[n - 1], call) then 1 else 0
  }

  function Paid(states: seq<State>, ops: seq<Op>, call: Call, irreversible: bool, n: nat): nat
    requires IsRun(states, ops) && n <= |ops|
  {
    if n == 0 then 0
    else
      Paid(states, ops, call, irreversible, n - 1)
      + if PaidBy(states[n - 1], ops[n - 1], call, irreversible) then 1 else 0
  }

  function Given(states: seq<State>, ops: seq<Op>, call: Call, irreversible: bool, n: nat): nat
    requires IsRun(states, ops) && n <= |ops|
  {
    if n == 0 then 0
    else
      Given(states, ops, call, irreversible, n - 1)
      + if GivesOnce(states[n - 1], ops[n - 1], call, irreversible) then 1 else 0
  }

  /** The unconsumed one-time permissions for this call, given for such requests. */
  function Credit(s: State, call: Call, irreversible: bool): set<string> {
    set id <- s.once | (&& CallOf(s.once[id].request) == call
                        && s.once[id].state == Resolved(Allow)
                        && s.once[id].request.irreversible == irreversible)
  }

  lemma DecidePays(s: State, op: Op, call: Call, irreversible: bool)
    requires op.Decide? && Enabled(s, op)
    ensures |Credit(Step(s, op), call, irreversible)|
            <= |Credit(s, call, irreversible)| + (if GivesOnce(s, op, call, irreversible) then 1 else 0)
  {
    if op.id in s.pending {
      var s' := ResolveStep(s, op.id, op.ruling, op.scope, op.now, op.ruleId).0;
      assert s'.once == s.once || s'.once == s.once[op.id := s.pending[op.id].(state := Resolved(op.ruling))];
      var limit := Credit(s, call, irreversible) + if GivesOnce(s, op, call, irreversible) then {op.id} else {};
      assert Credit(s', call, irreversible) <= limit;
      SubsetSize(Credit(s', call, irreversible), limit);
    }
  }

  lemma AskPays(s: State, op: Op, call: Call, irreversible: bool)
    requires op.Ask? && Enabled(s, op)
    ensures |Credit(Step(s, op), call, irreversible)| + (if PaidBy(s, op, call, irreversible) then 1 else 0)
            <= |Credit(s, call, irreversible)|
  {
    var s' := RequestStep(s, op.request, op.id, op.now, op.pick).0;
    if PaidBy(s, op, call, irreversible) {
      IrreversibleConsumesOnePermission(s, op, call);
      assert Credit(s', call, irreversible) <= Credit(s, call, irreversible) - {op.pick.value};
      SubsetSize(Credit(s', call, irreversible), Credit(s, call, irreversible) - {op.pick.value});
    } else {
      assert s'.once == s.once || (op.pick.Some? && s'.once == s.once - {op.pick.value});
      assert Credit(s', call, irreversible) <= Credit(s, call, irreversible);
      SubsetSize(Credit(s', call, irreversible), Credit(s, call, irreversible));
    }
  }

  lemma StepPays(s: State, op: Op, call: Call, irreversible: bool)
    requires Enabled(s, op)
    ensures |Credit(Step(s, op), call, irreversible)| + (if PaidBy(s, op, call, irreversible) then 1 else 0)
            <= |Credit(s, call, irreversible)| + (if GivesOnce(s, op, call, irreversible) then 1 else 0)
  {
    match op
    case Ask(_, _, _, _) => AskPays(s, op, call, irreversible);
    case Decide(_, _, _, _, _) => DecidePays(s, op, call, irreversible);
    case Sweep(now) =>
      assert Credit(ExpireStep(s, now), call, irreversible) <= Credit(s, call, irreversible);
      SubsetSize(Credit(ExpireStep(s, now), call, irreversible), Credit(s, call, irreversible));
    case _ =>
      assert Step(s, op).once == s.once;
      assert Credit(Step(s, op), call, irreversible) == Credit(s, call, irreversible);
  }

  lemma {:induction false} PaidWithCredit(states: seq<State>, ops: seq<Op>, call: Call, irreversible: bool, n: nat)
    requires IsRun(states, ops) && states[0] == EMPTY && n <= |ops|
    ensures Paid(states, ops, call, irreversible, n) + |Credit(states[n], call, irreversible)|
            <= Given(states, ops, call, irreversible, n)
  {
    if n == 0 {
      assert Credit(EMPTY, call, irreversible) == {};
    } else {
      PaidWithCredit(states, ops, call, irreversible, n - 1);
      StepPays(states[n - 1], ops[n - 1], call, irreversible);
    }
  }

  /** Every permission consumed was given for one kind of request or the other. */
  lemma {:induction false} PaidOneWay(states: seq<State>, ops: seq<Op>, call: Call, n: nat)
    requires IsRun(states, ops) && n <= |ops|
    ensures AnsweredAllow(states, ops, call, n) ==
            Paid(states, ops, call, true, n) + Paid(states, ops, call, false, n)
  {
    if n > 0 {
      PaidOneWay(states, ops, call, n - 1);
      if AllowsAtOnce(states[n - 1], ops[n - 1], call) {
        IrreversibleConsumesOnePermission(states[n - 1], ops[n - 1], call);
      }
    }
  }

  /** In every run, and for every task, action and target, irreversible requests allowed without
      asking never outnumber the one-time permissions a human gave on that very call. */
  lemma IrreversibleIsPaidFor(states: seq<State>, ops: seq<Op>, call: Call)
    requires IsRun(states, ops) && states[0] == EMPTY
    ensures AnsweredAllow(states, ops, call, |ops|)
            <= Given(states, ops, call, true, |ops|) + Given(states, ops, call, false, |ops|)
  {
    PaidOneWay(states, ops, call, |ops|);
    PaidWithCredit(states, ops, call, true, |ops|);
    PaidWithCredit(states, ops, call, false, |ops|);
  }

  lemma {:induction false} NoneGiven(states: seq<State>, ops: seq<Op>, call: Call, irreversible: bool, n: nat)
    requires IsRun(states, ops) && n <= |ops|
    ensures Given(states, ops, call, irreversible, n) == 0 <==>
            forall i :: 0 <= i < n ==> !GivesOnce(states[i], ops[i], call, irreversible)
  {
    hide GivesOnce; hide IsRun; hide Step;
    if n > 0 { NoneGiven(states, ops, call, irreversible, n - 1); }
  }

  /** Where no one-time permission is given for a reversible request on a call, irreversible ones
      are paid by permissions given for irreversible requests alone. */
  lemma IrreversiblePaidByItsOwn(states: seq<State>, ops: seq<Op>, call: Call)
    requires IsRun(states, ops) && states[0] == EMPTY
    requires forall i :: 0 <= i < |ops| ==> !GivesOnce(states[i], ops[i], call, false)
    ensures AnsweredAllow(states, ops, call, |ops|) <= Given(states, ops, call, true, |ops|)
  {
    IrreversibleIsPaidFor(states, ops, call);
    NoneGiven(states, ops, call, false, |ops|);
  }

  /** An irreversible request is allowed at once only by consuming a one-time permission given for
      the same call: the permission disappears, and no standing rule was involved. */
  lemma IrreversibleConsumesOnePermission(s: State, op: Op, call: Call)
    requires Enabled(s, op) && AllowsAtOnce(s, op, call)
    ensures FirstAnswering(s.rules, Fresh(op.request, op.id, op.now), op.now).None?
    ensures op.pick.Some? && op.pick.value in Credit(s, call, s.once[op.pick.value].request.irreversible)
    ensures Step(s, op) == s.(once := s.once - {op.pick.value})
  {
  }

  /** When an irreversible request is allowed at once: no rule answers, and the oldest one-time
      decision kept for the call is a permission. */
  lemma IrreversibleAllowedIff(s: State, op: Op)
    requires Enabled(s, op) && op.Ask? && op.request.irreversible
    ensures AllowsAtOnce(s, op, CallOf(op.request)) <==>
              && FirstAnswering(s.rules, Fresh(op.request, op.id, op.now), op.now).None?
              && op.pick.Some? && s.once[op.pick.value].state == Resolved(Allow)
  {
  }

  /** The queue does not look at reversibility when it consumes: a permission given for a reversible
      request pays an irreversible one exactly when it is the oldest decision kept for the call and
      no rule answers. */
  lemma ReversiblePaysIrreversibleIff(s: State, op: Op)
    requires Enabled(s, op) && op.Ask? && op.request.irreversible
    ensures PaidBy(s, op, CallOf(op.request), false) <==>
              && FirstAnswering(s.rules, Fresh(op.request, op.id, op.now), op.now).None?
              && op.pick.Some? && s.once[op.pick.value].state == Resolved(Allow)
              && !s.once[op.pick.value].request.irreversible
  {
    IrreversibleAllowedIff(s, op);
  }

  lemma StepLeavesGone(s: State, op: Op, id: string)
    requires Enabled(s, op) && id !in s.once && id !in s.pending
    requires op.Ask? ==> op.id != id
    ensures id !in Step(s, op).once && id !in Step(s, op).pending
  {
  }

  /** A consumed or forgotten one-time decision never comes back. */
  lemma {:induction false} ConsumedOnce(states: seq<State>, ops: seq<Op>, i: nat, j: nat, id: string)
    requires IsRun(states, ops) && states[0] == EMPTY && FreshIds(ops)
    requires i <= j <= |ops| && id in Used(ops[..i])
    requires id !in states[i].once && id !in states[i].pending
    ensures id !in states[j].once
    decreases j - i
  {
    if i < j {
      UsedGrows(ops, i);
      assert ops[i].Ask? ==> ops[i].id != id;
      StepLeavesGone(states[i], ops[i], id);
      ConsumedOnce(states, ops, i + 1, j, id);
    }
  }

  /** No standing permission is born from an irreversible request. */
  lemma StandingAllowIsReversible(s: State, op: Op)
    requires Enabled(s, op)
    ensures forall r <- Step(s, op).rules ::
      || r in s.rules
      || (&& op.Decide? && op.id in s.pending
          && r.ruling == op.ruling
          && (r.ruling == Allow ==> !s.pending[op.id].request.irreversible))
  {
  }

  /** It happens: asked reversibly, allowed once, asked again irreversibly. */
  lemma ReversiblePermissionPaysIrreversible()
    ensures
      var r := Request("task:1", "agent", "tool.call", "pay", "", false, false);
      var s1 := RequestStep(EMPTY, r, "a", 0, None).0;
      var s2 := ResolveStep(s1, "a", Allow, Once, 1, "x").0;
      var again := Ask(r.(irreversible := true), "b", 2, Some("a"));
      Enabled(s2, again) && PaidBy(s2, again, CallOf(r), false)
  {
  }

  // ---- How long a decision can be read ----

  /** At a sweep, a decided request is still readable exactly if it was *created* less than the
      retention time ago, however recently it was decided. */
  lemma RetentionCountsFromCreation(s: State, id: string, ruling: Ruling, scope: Scope, decided: Time,
                                    ruleId: string, now: Time)
    requires id in s.pending
    ensures
      var s' := ExpireStep(ResolveStep(s, id, ruling, scope, decided, ruleId).0, now);
      Status(s', id).Some? <==> now < s.pending[id].created + RESOLVED_TTL
  {
  }

  // ---- Standing decisions ----

  /** At step `i` a human decides a pending request for its whole task or for its agent. Allowing
      something irreversible is never such a decision. */
  predicate Stands(states: seq<State>, ops: seq<Op>, i: nat)
    requires IsRun(states, ops)
  {
    && i < |ops| && ops[i].Decide? && ops[i].id in states[i].pending
    && !ops[i].scope.Once? && !(ops[i].ruling == Allow && Asked(states, ops, i).irreversible)
  }

  /** The request decided at step `i`. */
  function Asked(states: seq<State>, ops: seq<Op>, i: nat): Request
    requires IsRun(states, ops) && i < |ops| && ops[i].Decide? && ops[i].id in states[i].pending
  {
    states[i].pending[ops[i].id].request
  }

  /** Its rule was removed before step `n`: alone, or with those of its task. */
  predicate Removed(states: seq<State>, ops: seq<Op>, i: nat, n: nat)
    requires IsRun(states, ops) && Stands(states, ops, i) && n <= |ops|
  {
    exists k :: i < k < n && Removes(ops[k], ops[i], Asked(states, ops, i))
  }

  predicate Removes(op: Op, decision: Op, asked: Request)
    requires decision.Decide?
  {
    op == DropRule(decision.ruleId) || (decision.scope.ForTask? && op == DropTask(asked.task))
  }

  /** A decision on the one request speaks for another on the same action and target, of the same task,
      or of the same agent before its days are over; and never allows something irreversible. */
  predicate SpeaksFor(decision: Op, asked: Request, request: Request, now: Time)
    requires decision.Decide?
  {
    && asked.action == request.action && asked.target == request.target
    && (match decision.scope
        case Once => false
        case ForTask => asked.task == request.task
        case ForAgent(days) => asked.agent == request.agent && now < decision.now + days * 86_400 * SECOND)
    && !(decision.ruling == Allow && request.irreversible)
  }

  function RuleOf(decision: Op, asked: Request): StandingRule
    requires decision.Decide? && !decision.scope.Once?
  {
    match decision.scope
    case ForTask =>
      StandingRule(decision.ruleId, decision.ruling, asked.action, asked.target, Some(asked.task), None, None)
    case ForAgent(days) =>
      StandingRule(decision.ruleId, decision.ruling, asked.action, asked.target, None, Some(asked.agent),
                   Some(decision.now + days * DAY))
  }

  lemma AnswersIffSpeaksFor(decision: Op, asked: Request, request: Request, id: string, now: Time)
    requires decision.Decide? && !decision.scope.Once?
    ensures Answers(RuleOf(decision, asked), Fresh(request, id, now), now) <==> SpeaksFor(decision, asked, request, now)
  {
  }

  /** The rules are those of the standing decisions that were not removed. */
  ghost predicate RulesStand(states: seq<State>, ops: seq<Op>, n: nat)
    requires IsRun(states, ops) && n <= |ops|
  {
    && (forall r <- states[n].rules :: exists i: nat :: i < n && Made(states, ops, i, n, r))
    && (forall i: nat :: i < n && Stands(states, ops, i) && !Removed(states, ops, i, n) ==>
          RuleOf(ops[i], Asked(states, ops, i)) in states[n].rules)
  }

  ghost predicate Made(states: seq<State>, ops: seq<Op>, i: nat, n: nat, rule: StandingRule)
    requires IsRun(states, ops) && n <= |ops|
  {
    Stands(states, ops, i) && !Removed(states, ops, i, n) && rule == RuleOf(ops[i], Asked(states, ops, i))
  }

  lemma RemovedGrows(states: seq<State>, ops: seq<Op>, i: nat, n: nat)
    requires IsRun(states, ops) && Stands(states, ops, i) && i < n < |ops|
    ensures Removed(states, ops, i, n + 1) <==>
              Removed(states, ops, i, n) || Removes(ops[n], ops[i], Asked(states, ops, i))
    ensures !Removed(states, ops, i, i + 1)
  {
  }

  /** What one operation does to the rules. */
  lemma StepRules(s: State, op: Op, rule: StandingRule)
    requires Enabled(s, op)
    ensures
      var made := op.Decide? && op.id in s.pending && !op.scope.Once?
                  && !(op.ruling == Allow && s.pending[op.id].request.irreversible)
                  && rule == RuleOf(op, s.pending[op.id].request);
      var gone := (op.DropRule? && rule.id == op.id) || (op.DropTask? && rule.task == Some(op.task));
      rule in Step(s, op).rules <==> (rule in s.rules && !gone) || made
  {
  }

  lemma RemovesItsRule(op: Op, decision: Op, asked: Request)
    requires decision.Decide? && !decision.scope.Once?
    ensures
      var rule := RuleOf(decision, asked);
      Removes(op, decision, asked) <==>
        (op.DropRule? && rule.id == op.id) || (op.DropTask? && rule.task == Some(op.task))
  {
  }

  lemma {:induction false} RunRulesStand(states: seq<State>, ops: seq<Op>, n: nat)
    requires IsRun(states, ops) && states[0] == EMPTY && n <= |ops|
    ensures RulesStand(states, ops, n)
  {
    hide Step; hide Enabled; hide Removed; hide Removes; hide RuleOf;
    if n > 0 {
      RunRulesStand(states, ops, n - 1);
      var s, op := states[n - 1], ops[n - 1];
      forall r <- states[n].rules ensures exists i: nat :: i < n && Made(states, ops, i, n, r) {
        StepRules(s, op, r);
        if r in s.rules && !((op.DropRule? && r.id == op.id) || (op.DropTask? && r.task == Some(op.task))) {
          var i: nat :| i < n - 1 && Made(states, ops, i, n - 1, r);
          RemovesItsRule(op, ops[i], Asked(states, ops, i));
          RemovedGrows(states, ops, i, n - 1);
          assert Made(states, ops, i, n, r);
        } else {
          NotYetRemoved(states, ops, n - 1);
          assert Made(states, ops, n - 1, n, r);
        }
      }
      forall i: nat | i < n && Stands(states, ops, i) && !Removed(states, ops, i, n)
        ensures RuleOf(ops[i], Asked(states, ops, i)) in states[n].rules
      {
        StepRules(s, op, RuleOf(ops[i], Asked(states, ops, i)));
        if i < n - 1 {
          RemovesItsRule(op, ops[i], Asked(states, ops, i));
          RemovedGrows(states, ops, i, n - 1);
        }
      }
    }
  }

  lemma NotYetRemoved(states: seq<State>, ops: seq<Op>, i: nat)
    requires IsRun(states, ops) && i < |ops| && Stands(states, ops, i)
    ensures !Removed(states, ops, i, i + 1)
  {
  }

  /** A request is answered at once, no one-time decision being consumed, exactly when some standing
      decision of the run, not removed since, speaks for it; and then as such a decision was made. */
  lemma StandingAnswerIff(states: seq<State>, ops: seq<Op>, n: nat)
    requires IsRun(states, ops) && states[0] == EMPTY && n < |ops| && ops[n].Ask?
    ensures
      var op := ops[n];
      var (s', answer) := RequestStep(states[n], op.request, op.id, op.now, op.pick);
      && (answer.state.Resolved? && s'.once == states[n].once <==>
            exists i: nat :: i < n && SpeaksAt(states, ops, i, n, op.request, op.now))
      && (answer.state.Resolved? && s'.once == states[n].once ==>
            s' == states[n] && exists i: nat ::
              i < n && SpeaksAt(states, ops, i, n, op.request, op.now) && answer.state == Resolved(ops[i].ruling))
  {
    hide Stands; hide Removed; hide SpeaksFor; hide RuleOf; hide Step;
    var op := ops[n];
    var a := Fresh(op.request, op.id, op.now);
    RunRulesStand(states, ops, n);
    var first := FirstAnswering(states[n].rules, a, op.now);
    if first.Some? {
      var i: nat :| i < n && Made(states, ops, i, n, first.value);
      RuleSpeaks(states, ops, i, n, first.value, op.request, op.id, op.now);
    } else {
      forall i: nat | i < n ensures !SpeaksAt(states, ops, i, n, op.request, op.now) {
        if SpeaksAt(states, ops, i, n, op.request, op.now) {
          SpokenRuleAnswers(states, ops, i, n, op.request, op.id, op.now);
        }
      }
      assert Enabled(states[n], op);
      if op.pick.Some? { assert op.pick.value !in states[n].once - {op.pick.value}; }
    }
  }

  ghost predicate SpeaksAt(states: seq<State>, ops: seq<Op>, i: nat, n: nat, request: Request, now: Time)
    requires IsRun(states, ops) && n <= |ops|
  {
    && Stands(states, ops, i) && !Removed(states, ops, i, n)
    && SpeaksFor(ops[i], Asked(states, ops, i), request, now)
  }

  lemma RuleSpeaks(states: seq<State>, ops: seq<Op>, i: nat, n: nat, rule: StandingRule, request: Request,
                   id: string, now: Time)
    requires IsRun(states, ops) && n <= |ops| && Made(states, ops, i, n, rule)
    requires Answers(rule, Fresh(request, id, now), now)
    ensures SpeaksAt(states, ops, i, n, request, now) && rule.ruling == ops[i].ruling
  {
    AnswersIffSpeaksFor(ops[i], Asked(states, ops, i), request, id, now);
  }

  lemma SpokenRuleAnswers(states: seq<State>, ops: seq<Op>, i: nat, n: nat, request: Request, id: string, now: Time)
    requires IsRun(states, ops) && i < n <= |ops| && RulesStand(states, ops, n)
    requires SpeaksAt(states, ops, i, n, request, now)
    ensures exists r <- states[n].rules :: Answers(r, Fresh(request, id, now), now)
  {
    AnswersIffSpeaksFor(ops[i], Asked(states, ops, i), request, id, now);
    assert RuleOf(ops[i], Asked(states, ops, i)) in states[n].rules;
  }

  lemma {:induction false} FirstAnsweringGrows(
    rules: seq<StandingRule>, more: seq<StandingRule>, a: Approval, now: Time)
    requires FirstAnswering(rules, a, now).Some?
    ensures FirstAnswering(rules + more, a, now) == FirstAnswering(rules, a, now)
  {
    if !Answers(rules[0], a, now) {
      FirstAnsweringGrows(rules[1..], more, a, now);
      assert (rules + more)[1..] == rules[1..] + more;
    }
  }

  /** A standing answer is not overruled by later decisions: while no rule is removed, the oldest that
      speaks for a request answers it. */
  lemma {:induction false} NotOverruled(states: seq<State>, ops: seq<Op>, i: nat, n: nat, a: Approval, now: Time)
    requires IsRun(states, ops) && i <= n <= |ops|
    requires forall k :: i <= k < n ==> !ops[k].DropRule? && !ops[k].DropTask?
    requires FirstAnswering(states[i].rules, a, now).Some?
    ensures FirstAnswering(states[n].rules, a, now) == FirstAnswering(states[i].rules, a, now)
  {
    hide Step; hide Enabled; hide FirstAnswering;
    if i < n {
      NotOverruled(states, ops, i, n - 1, a, now);
      RulesGrow(states[n - 1], ops[n - 1]);
      var more := states[n].rules[|states[n - 1].rules|..];
      FirstAnsweringGrows(states[n - 1].rules, more, a, now);
    }
  }

  lemma RulesGrow(s: State, op: Op)
    requires Enabled(s, op) && !op.DropRule? && !op.DropTask?
    ensures s.rules <= Step(s, op).rules
    ensures Step(s, op).rules == s.rules + Step(s, op).rules[|s.rules|..]
  {
  }

  // ---- One-time answers, and waiting ----

  /** Where no rule answers, a request takes the decision of the oldest one-time one on the same task,
      action and target, which disappears; without any it waits a day for a human. */
  lemma OneTimeAnswerIff(s: State, op: Op)
    requires Enabled(s, op) && op.Ask?
    requires FirstAnswering(s.rules, Fresh(op.request, op.id, op.now), op.now).None?
    ensures
      var (s', answer) := RequestStep(s, op.request, op.id, op.now, op.pick);
      && answer.id == op.id && answer.request == op.request
      && if forall j <- s.once :: CallOf(s.once[j].request) != CallOf(op.request)
         then && answer == Approval(op.id, op.request, None, op.now, op.now + 86_400 * SECOND, Pending)
              && s' == s.(pending := s.pending[op.id := answer])
         else exists k <- s.once ::
                && CallOf(s.once[k].request) == CallOf(op.request)
                && (forall j <- s.once :: CallOf(s.once[j].request) == CallOf(op.request) ==>
                      s.once[k].created <= s.once[j].created)
                && answer.state == s.once[k].state && s' == s.(once := s.once - {k})
  {
    var a := Fresh(op.request, op.id, op.now);
    assert forall j <- s.once :: SameCall(s.once[j], a) <==> CallOf(s.once[j].request) == CallOf(op.request);
  }

  /** A request leaves the queue exactly when it is decided, or swept a day or more after it was made. */
  lemma LeavesQueueIff(s: State, op: Op, id: string)
    requires Enabled(s, op) && id in s.pending && s.pending[id].expires == s.pending[id].created + 86_400 * SECOND
    ensures id !in Step(s, op).pending <==>
              || (op.Decide? && op.id == id)
              || (op.Sweep? && s.pending[id].created + 86_400 * SECOND <= op.now)
  {
  }

  /** Every waiting request has a day. */
  lemma {:induction false} WaitingHasADay(states: seq<State>, ops: seq<Op>, n: nat)
    requires IsRun(states, ops) && states[0] == EMPTY && n <= |ops|
    ensures forall id <- states[n].pending ::
              states[n].pending[id].expires == states[n].pending[id].created + 86_400 * SECOND
  {
    hide Step; hide Enabled;
    if n > 0 {
      WaitingHasADay(states, ops, n - 1);
      StepKeepsADay(states[n - 1], ops[n - 1]);
    }
  }

  lemma StepKeepsADay(s: State, op: Op)
    requires Enabled(s, op)
    requires forall id <- s.pending :: s.pending[id].expires == s.pending[id].created + 86_400 * SECOND
    ensures forall id <- Step(s, op).pending ::
              Step(s, op).pending[id].expires == Step(s, op).pending[id].created + 86_400 * SECOND
  {
  }

  /** A one-time decision leaves exactly when a request consumes it, or at a sweep an hour or more after
      its request was made. */
  lemma OnceLeavesIff(s: State, used: set<string>, op: Op, id: string)
    requires Enabled(s, op) && Sound(s, used) && id in s.once
    ensures id !in Step(s, op).once <==>
              || (op.Ask? && FirstAnswering(s.rules, Fresh(op.request, op.id, op.now), op.now).None?
                  && op.pick == Some(id))
              || (op.Sweep? && s.once[id].created + 3600 * SECOND <= op.now)
  {
  }

  /** The reason given is what is left of the text without blanks around it, cut at four hundred
      characters, and only a request that still waits takes one. */
  lemma ReasonIs(s: State, id: string, before: string, text: string, after: string)
    requires Blank(before) && Blank(after)
    requires text != "" && !IsSpace(text[0]) && !IsSpace(text[|text| - 1])
    ensures
      var (s', r) := ExplainStep(s, id, before + text + after);
      && (r.Some? <==> id in s.pending)
      && (r.Some? ==>
            && r.value == s.pending[id].(reason := Some(text[..if |text| < 400 then |text| else 400]))
            && s' == s.(pending := s.pending[id := r.value]))
      && (r.None? ==> s' == s)
  {
    TrimSpacesIs(before, text, after);
  }

  lemma NoReason(s: State, id: string, blank: string)
    requires Blank(blank)
    ensures ExplainStep(s, id, blank) == (s, None)
  {
    TrimBlank(blank);
  }
}
