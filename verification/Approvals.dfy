/** The queue of human approvals, its standing rules and its one-time decisions. */
module Approvals {
  import opened Prelude

  datatype Scope = Once | ForTask | ForAgent(days: nat)

  datatype Ruling = Allow | Deny

  datatype ApprovalState = Pending | Resolved(ruling: Ruling) | Expired

  datatype Request = Request(
    task: string, agent: string, action: string, target: string, summary: string,
    irreversible: bool, external: bool)

  datatype Approval = Approval(
    id: string, request: Request, reason: Option<string>, created: Time, expires: Time, state: ApprovalState)

  datatype StandingRule = StandingRule(
    id: string, ruling: Ruling, action: string, target: string,
    task: Option<string>, agent: Option<string>, expires: Option<Time>)
  {
    predicate Covers(a: Approval, now: Time) {
      && (expires.Some? ==> now < expires.value)
      && action == a.request.action
      && target == a.request.target
      && match (task, agent)
         case (Some(t), _) => t == a.request.task
         case (None, Some(g)) => g == a.request.agent
         case (None, None) => false
    }
  }

  const DEFAULT_TTL: int := DAY
  const RESOLVED_TTL: int := HOUR
  const REASON_MAX_CHARS: nat := 400

  datatype State = State(
    pending: map<string, Approval>,
    rules: seq<StandingRule>,
    resolved: map<string, Approval>,
    once: map<string, Approval>)

  const EMPTY := State(map[], [], map[], map[])

  function Fresh(request: Request, id: string, now: Time): Approval {
    Approval(id, request, None, now, now + DEFAULT_TTL, Pending)
  }

  // ---- Answering a request ----

  /** A rule may answer: it covers, and does not allow something irreversible. */
  predicate Answers(rule: StandingRule, a: Approval, now: Time) {
    rule.Covers(a, now) && !(rule.ruling == Allow && a.request.irreversible)
  }

  function FirstAnswering(rules: seq<StandingRule>, a: Approval, now: Time): (r: Option<StandingRule>)
    ensures r.Some? ==> r.value in rules && Answers(r.value, a, now)
    ensures r.None? ==> forall rule <- rules :: !Answers(rule, a, now)
  {
    if rules == [] then None
    else if Answers(rules[0], a, now) then Some(rules[0])
    else FirstAnswering(rules[1..], a, now)
  }

  predicate SameCall(a: Approval, b: Approval) {
    && a.request.task == b.request.task
    && a.request.action == b.request.action
    && a.request.target == b.request.target
  }

  /** `pick` is a kept one-time decision for this very call, none of them being older; or there is
      none to pick. The order among equally old ones is not determined. */
  predicate IsPick(once: map<string, Approval>, a: Approval, pick: Option<string>) {
    match pick
    case Some(k) =>
      && k in once
      && SameCall(once[k], a)
      && forall j <- once :: SameCall(once[j], a) ==> once[k].created <= once[j].created
    case None => forall j <- once :: !SameCall(once[j], a)
  }

  /** The new state and the answer, `pick` being the decision to consume if no rule answers. */
  function RequestStep(s: State, request: Request, id: string, now: Time, pick: Option<string>): (State, Approval)
    requires FirstAnswering(s.rules, Fresh(request, id, now), now).None? ==>
               IsPick(s.once, Fresh(request, id, now), pick)
  {
    var a := Fresh(request, id, now);
    match FirstAnswering(s.rules, a, now)
    case Some(rule) => (s, a.(state := Resolved(rule.ruling)))
    case None =>
      match pick
      case Some(k) => (s.(once := s.once - {k}), a.(state := s.once[k].state))
      case None => (s.(pending := s.pending[id := a]), a)
  }

  // ---- Deciding ----

  /** An allowed irreversible action is allowed once, whatever scope was asked. */
  function EffectiveScope(a: Approval, ruling: Ruling, scope: Scope): Scope {
    if ruling == Allow && a.request.irreversible then Once else scope
  }

  function ResolveStep(s: State, id: string, ruling: Ruling, scope: Scope, now: Time,
                       ruleId: string): (State, Option<Approval>)
  {
    if id !in s.pending then (s, None)
    else
      var a := s.pending[id].(state := Resolved(ruling));
      var s' := s.(pending := s.pending - {id}, resolved := s.resolved[id := a]);
      var s'' :=
        match EffectiveScope(a, ruling, scope)
        case Once => s'.(once := s'.once[id := a])
        case ForTask =>
          s'.(rules := s'.rules + [StandingRule(
            ruleId, ruling, a.request.action, a.request.target, Some(a.request.task), None, None)])
        case ForAgent(days) =>
          s'.(rules := s'.rules + [StandingRule(
            ruleId, ruling, a.request.action, a.request.target, None, Some(a.request.agent), Some(now + days * DAY))]);
      (s'', Some(a))
  }

  function ExplainStep(s: State, id: string, reason: string): (State, Option<Approval>) {
    var motive := TrimSpaces(reason);
    if motive == [] || id !in s.pending then (s, None)
    else
      var a := s.pending[id].(reason := Some(motive[..Min(REASON_MAX_CHARS, |motive|)]));
      (s.(pending := s.pending[id := a]), Some(a))
  }

  // ---- Forgetting ----

  function Recent(m: map<string, Approval>, now: Time): map<string, Approval> {
    map id | id in m && m[id].created > now - RESOLVED_TTL :: m[id]
  }

  function Overdue(m: map<string, Approval>, now: Time): set<string> {
    set id | id in m && now >= m[id].expires
  }

  function ExpireStep(s: State, now: Time): State {
    s.(pending := s.pending - Overdue(s.pending, now),
       resolved := Recent(s.resolved, now),
       once := Recent(s.once, now))
  }

  function WithoutRule(rules: seq<StandingRule>, id: string): (kept: seq<StandingRule>)
    ensures forall r :: r in kept <==> r in rules && r.id != id
    ensures |kept| <= |rules|
    ensures |kept| == |rules| <==> forall r <- rules :: r.id != id
  {
    if rules == [] then []
    else (if rules[0].id != id then [rules[0]] else []) + WithoutRule(rules[1..], id)
  }

  function WithoutTask(rules: seq<StandingRule>, task: string): (kept: seq<StandingRule>)
    ensures forall r :: r in kept <==> r in rules && r.task != Some(task)
  {
    if rules == [] then []
    else (if rules[0].task != Some(task) then [rules[0]] else []) + WithoutTask(rules[1..], task)
  }

  function Status(s: State, id: string): Option<Approval> {
    if id in s.pending then Some(s.pending[id])
    else if id in s.resolved then Some(s.resolved[id])
    else None
  }

  /** The queue as the service holds it. Identifiers of requests and rules come from outside. */
  class Queue {
    var pending: map<string, Approval>
    var rules: seq<StandingRule>
    var resolved: map<string, Approval>
    var once: map<string, Approval>

    ghost function View(): State
      reads this
    {
      State(pending, rules, resolved, once)
    }

    constructor ()
      ensures View() == EMPTY
    {
      pending, rules, resolved, once := map[], [], map[], map[];
    }

    method Request(request: Request, id: string, now: Time) returns (answer: Approval, ghost pick: Option<string>)
      modifies this`pending, this`once
      ensures FirstAnswering(rules, Fresh(request, id, now), now).None? ==>
                IsPick(old(once), Fresh(request, id, now), pick)
      ensures (View(), answer) == RequestStep(old(View()), request, id, now, pick)
    {
      var a := Fresh(request, id, now);
      pick := None;
      var rule := FirstAnswering(rules, a, now);
      if rule.Some? {
        return a.(state := Resolved(rule.value.ruling)), pick;
      }
      var chosen := OldestOnce(a);
      pick := chosen;
      if chosen.Some? {
        var k := chosen.value;
        answer := a.(state := once[k].state);
        once := once - {k};
        return;
      }
      pending := pending[id := a];
      answer := a;
    }

    method OldestOnce(a: Approval) returns (pick: Option<string>)
      ensures IsPick(once, a, pick)
    {
      pick := None;
      var rest := once.Keys;
      while rest != {}
        invariant rest <= once.Keys
        invariant pick.Some? ==> pick.value in once && SameCall(once[pick.value], a)
        invariant forall j <- once :: j !in rest && SameCall(once[j], a) ==>
                    pick.Some? && once[pick.value].created <= once[j].created
      {
        var k :| k in rest;
        rest := rest - {k};
        if SameCall(once[k], a) && (pick.None? || once[k].created < once[pick.value].created) {
          pick := Some(k);
        }
      }
    }

    method Explain(id: string, reason: string) returns (r: Option<Approval>)
      modifies this`pending
      ensures (View(), r) == ExplainStep(old(View()), id, reason)
    {
      var motive := TrimSpaces(reason);
      if motive == [] || id !in pending { return None; }
      var a := pending[id].(reason := Some(motive[..Min(REASON_MAX_CHARS, |motive|)]));
      pending := pending[id := a];
      r := Some(a);
    }

    method Resolve(id: string, ruling: Ruling, scope: Scope, now: Time, ruleId: string) returns (r: Option<Approval>)
      modifies this
      ensures (View(), r) == ResolveStep(old(View()), id, ruling, scope, now, ruleId)
    {
      if id !in pending { return None; }
      var a := pending[id].(state := Resolved(ruling));
      pending := pending - {id};
      resolved := resolved[id := a];
      match EffectiveScope(a, ruling, scope) {
        case Once => once := once[id := a];
        case ForTask =>
          rules := rules + [StandingRule(
            ruleId, ruling, a.request.action, a.request.target, Some(a.request.task), None, None)];
        case ForAgent(days) =>
          rules := rules + [StandingRule(
            ruleId, ruling, a.request.action, a.request.target, None, Some(a.request.agent), Some(now + days * DAY))];
      }
      r := Some(a);
    }

    /** Forgets old decisions and removes overdue requests, which it returns as expired. */
    method Expire(now: Time) returns (expired: map<string, Approval>)
      modifies this`pending, this`resolved, this`once
      ensures View() == ExpireStep(old(View()), now)
      ensures expired.Keys == Overdue(old(pending), now)
      ensures forall id <- expired :: expired[id] == old(pending)[id].(state := Expired)
    {
      resolved := Recent(resolved, now);
      once := Recent(once, now);
      var overdue := Overdue(pending, now);
      expired := map id | id in overdue :: pending[id].(state := Expired);
      pending := pending - overdue;
    }

    method RevokeRule(id: string) returns (removed: bool)
      modifies this`rules
      ensures rules == WithoutRule(old(rules), id)
      ensures removed <==> exists r <- old(rules) :: r.id == id
    {
      var before := |rules|;
      rules := WithoutRule(rules, id);
      removed := |rules| != before;
    }

    method ClearTaskRules(task: string)
      modifies this`rules
      ensures rules == WithoutTask(old(rules), task)
    {
      rules := WithoutTask(rules, task);
    }
  }
}
