/** Capability tokens: constraints, grants, and the search for an authorising grant. */
module Cap {
  import opened Prelude
  import Pattern

  const TOKEN_VERSION: nat := 0

  datatype Res = Fs | Net | Tool | Proc | Ui | Ledger | Memory | Model | Task | Cap

  datatype Act =
    | Read | Write | List | Egress | Call | Exec | Act | Vision | ReadAll | Use | Spawn | Delegate

  function FamilyOf(res: Res): Pattern.Family {
    match res
    case Fs => Pattern.Path
    case Proc => Pattern.Program
    case Net => Pattern.Domain
    case _ => Pattern.Name
  }

  predicate LegalPair(res: Res, act: Act) {
    match res
    case Fs => act in {Read, Write, List}
    case Net => act == Egress
    case Tool => act == Call
    case Proc => act == Exec
    case Ui => act in {Read, Act.Act, Vision}
    case Ledger => act in {Read, ReadAll}
    case Memory => act in {Read, Write}
    case Model => act == Use
    case Task => act == Spawn
    case Cap => act == Delegate
  }

  datatype Approval = NotRequired | Required

  datatype Constraints = Constraints(
    maxCalls: Option<nat>,
    maxBytes: Option<nat>,
    maxBytesOut: Option<nat>,
    ratePerMin: Option<nat>,
    maxTokens: Option<nat>,
    maxDepth: Option<nat>,
    maxChildren: Option<nat>,
    level: Option<nat>,
    approval: Option<Approval>,
    allow: map<string, seq<string>>)

  const UNCONSTRAINED := Constraints(None, None, None, None, None, None, None, None, None, map[])

  datatype Context = Context(
    target: string,
    home: string,
    sandboxLevel: nat,
    bytes: Option<nat>,
    callsSoFar: nat,
    fields: map<string, seq<string>>)

  // ---- Constraints ----

  predicate AtMost(child: Option<nat>, parent: Option<nat>) {
    parent.Some? ==> child.Some? && child.value <= parent.value
  }

  predicate AllIn(values: seq<string>, allowed: seq<string>) {
    forall v <- values :: v in allowed
  }

  /** `child` keeps every restriction of `parent`, possibly tightened. */
  predicate AsStrictAs(child: Constraints, parent: Constraints) {
    && AtMost(child.maxCalls, parent.maxCalls)
    && AtMost(child.maxBytes, parent.maxBytes)
    && AtMost(child.maxBytesOut, parent.maxBytesOut)
    && AtMost(child.ratePerMin, parent.ratePerMin)
    && AtMost(child.maxTokens, parent.maxTokens)
    && AtMost(child.maxDepth, parent.maxDepth)
    && AtMost(child.maxChildren, parent.maxChildren)
    && (parent.level.Some? ==> child.level.Some? && child.level.value >= parent.level.value)
    && (parent.approval == Some(Required) ==> child.approval == Some(Required))
    && (forall key <- parent.allow ::
          key in child.allow && AllIn(child.allow[key], parent.allow[key]))
  }

  predicate SatisfiedBy(c: Constraints, ctx: Context) {
    && (c.level.Some? ==> ctx.sandboxLevel >= c.level.value)
    && (c.maxBytes.Some? && ctx.bytes.Some? ==> ctx.bytes.value <= c.maxBytes.value)
    && (c.maxCalls.Some? ==> ctx.callsSoFar < c.maxCalls.value)
    && (forall key <- c.allow :: key in ctx.fields ==> AllIn(ctx.fields[key], c.allow[key]))
  }

  /** Delegating through an intermediate token loses no restriction. */
  lemma StrictnessComposes(a: Constraints, b: Constraints, c: Constraints)
    requires AsStrictAs(a, b) && AsStrictAs(b, c)
    ensures AsStrictAs(a, c)
  {
    forall key <- c.allow
      ensures key in a.allow && AllIn(a.allow[key], c.allow[key])
    {
      assert AllIn(b.allow[key], c.allow[key]) && AllIn(a.allow[key], b.allow[key]);
    }
  }

  lemma StricterSatisfiesMore(child: Constraints, parent: Constraints, ctx: Context)
    requires AsStrictAs(child, parent) && SatisfiedBy(child, ctx)
    ensures SatisfiedBy(parent, ctx)
  {
    forall key <- parent.allow | key in ctx.fields
      ensures AllIn(ctx.fields[key], parent.allow[key])
    {
      assert AllIn(child.allow[key], parent.allow[key]);
      assert AllIn(ctx.fields[key], child.allow[key]);
    }
  }

  // ---- Grants ----

  datatype Grant = Grant(res: Res, act: Act, pattern: string, constraints: Constraints) {
    predicate Valid() {
      LegalPair(res, act) && Pattern.Valid(FamilyOf(res), pattern)
    }

    predicate SubsetOf(parent: Grant) {
      && res == parent.res
      && act == parent.act
      && Pattern.Covers(FamilyOf(res), parent.pattern, pattern)
      && AsStrictAs(constraints, parent.constraints)
    }

    /** The grant speaks about this resource, action and target. */
    predicate Concerns(res: Res, act: Act, ctx: Context) {
      && this.res == res
      && this.act == act
      && Pattern.Matches(FamilyOf(res), pattern, ctx.target, ctx.home)
    }

    /** The grant alone would authorise the call. */
    predicate Permits(res: Res, act: Act, ctx: Context) {
      && Concerns(res, act, ctx)
      && constraints.approval != Some(Required)
      && SatisfiedBy(constraints, ctx)
    }
  }

  /** Every grant of `child` is included in some grant of `parent`. */
  predicate AllIncluded(child: seq<Grant>, parent: seq<Grant>) {
    forall g <- child :: exists p <- parent :: g.SubsetOf(p)
  }

  predicate SomePermits(grants: seq<Grant>, res: Res, act: Act, ctx: Context) {
    exists g <- grants :: g.Permits(res, act, ctx)
  }

  predicate ValidPatterns(grants: seq<Grant>) {
    forall g <- grants :: Pattern.Valid(FamilyOf(g.res), g.pattern)
  }

  /** Some grant covers this one in earnest, not by the shape that promises too much. */
  predicate HonestlyCovered(g: Grant, parent: seq<Grant>) {
    exists p <- parent :: g.SubsetOf(p) && !Pattern.GlobTrap(FamilyOf(p.res), p.pattern, g.pattern)
  }

  /** No grant is covered by that shape alone. */
  predicate NoTrapUsed(child: seq<Grant>, parent: seq<Grant>) {
    forall g <- child :: (exists p <- parent :: g.SubsetOf(p)) ==> HonestlyCovered(g, parent)
  }

  // ---- What each part of a grant does ----

  /** The pairs a grant may be about. */
  lemma LegalIff(g: Grant)
    ensures g.Valid() <==>
              && Pattern.Valid(FamilyOf(g.res), g.pattern)
              && match g.res
                 case Fs => g.act == Read || g.act == Write || g.act == List
                 case Net => g.act == Egress
                 case Tool => g.act == Call
                 case Proc => g.act == Exec
                 case Ui => g.act == Read || g.act == Act.Act || g.act == Vision
                 case Ledger => g.act == Read || g.act == ReadAll
                 case Memory => g.act == Read || g.act == Write
                 case Model => g.act == Use
                 case Task => g.act == Spawn
                 case Cap => g.act == Delegate
  {
    hide Pattern.Valid;
  }

  /** Files are matched as paths, programs as programs, hosts as domains, everything else by name. */
  lemma ConcernsIff(g: Grant, res: Res, act: Act, ctx: Context)
    ensures g.Concerns(res, act, ctx) <==>
              && g.res == res && g.act == act
              && if res == Fs then Pattern.PathMatches(g.pattern, ctx.target, ctx.home)
                 else if res == Proc then Pattern.ProgramMatches(g.pattern, ctx.target, ctx.home)
                 else if res == Net then Pattern.DomainMatches(g.pattern, ctx.target)
                 else Pattern.NameCovers(g.pattern, ctx.target) || g.pattern == ctx.target
  {
    hide Pattern.PathMatches; hide Pattern.ProgramMatches; hide Pattern.DomainMatches; hide Pattern.NameCovers;
  }

  /** The grant under other constraints. */
  function Under(g: Grant, c: Constraints): Grant { g.(constraints := c) }

  lemma SameConcern(g: Grant, c: Constraints, res: Res, act: Act, ctx: Context)
    ensures Under(g, c).Concerns(res, act, ctx) <==> g.Concerns(res, act, ctx)
  {
    hide Pattern.Matches; hide FamilyOf;
  }

  /** Without constraints it permits all it is about; if a human must be asked it permits nothing. */
  lemma PermitsAllOrNothing(g: Grant, res: Res, act: Act, ctx: Context)
    ensures Under(g, UNCONSTRAINED).Permits(res, act, ctx) <==> g.Concerns(res, act, ctx)
    ensures g.constraints.approval == Some(Required) ==> !g.Permits(res, act, ctx)
  {
    hide Grant.Concerns; hide AllIn;
    SameConcern(g, UNCONSTRAINED, res, act, ctx);
  }

  /** Constraints are met whoever has to be asked. */
  lemma SatisfiedWithout(c: Constraints, ctx: Context)
    ensures SatisfiedBy(c.(approval := None), ctx) <==> SatisfiedBy(c, ctx)
  {
  }

  lemma ApprovalNarrows(g: Grant, res: Res, act: Act, ctx: Context)
    ensures g.Permits(res, act, ctx) <==>
              && Under(g, g.constraints.(approval := None)).Permits(res, act, ctx)
              && (g.constraints.approval.None? || g.constraints.approval.value == NotRequired)
  {
    hide Grant.Concerns; hide SatisfiedBy;
    SameConcern(g, g.constraints.(approval := None), res, act, ctx);
    SatisfiedWithout(g.constraints, ctx);
  }

  /** A bound on calls lets exactly that many through: those that come after fewer calls. */
  lemma CallsNarrow(g: Grant, n: nat, res: Res, act: Act, ctx: Context)
    requires g.constraints.maxCalls == Some(n)
    ensures g.Permits(res, act, ctx) <==>
              Under(g, g.constraints.(maxCalls := None)).Permits(res, act, ctx) && ctx.callsSoFar + 1 <= n
  {
    hide Grant.Concerns; hide AllIn;
    SameConcern(g, g.constraints.(maxCalls := None), res, act, ctx);
  }

  /** A level asks for a sandbox at least as strong. */
  lemma LevelNarrows(g: Grant, n: nat, res: Res, act: Act, ctx: Context)
    requires g.constraints.level == Some(n)
    ensures g.Permits(res, act, ctx) <==>
              Under(g, g.constraints.(level := None)).Permits(res, act, ctx) && n <= ctx.sandboxLevel
  {
    hide Grant.Concerns; hide AllIn;
    SameConcern(g, g.constraints.(level := None), res, act, ctx);
  }

  /** A bound on bytes stops a call that says it is larger; one that says nothing passes. */
  lemma BytesNarrow(g: Grant, n: nat, res: Res, act: Act, ctx: Context)
    requires g.constraints.maxBytes == Some(n)
    ensures g.Permits(res, act, ctx) <==>
              && Under(g, g.constraints.(maxBytes := None)).Permits(res, act, ctx)
              && (ctx.bytes.None? || ctx.bytes.value <= n)
  {
    hide Grant.Concerns; hide AllIn;
    SameConcern(g, g.constraints.(maxBytes := None), res, act, ctx);
  }

  /** A list of values stops a call with another value in that field; a call without the field passes. */
  lemma FieldNarrows(g: Grant, key: string, res: Res, act: Act, ctx: Context)
    requires key in g.constraints.allow
    ensures g.Permits(res, act, ctx) <==>
              && Under(g, g.constraints.(allow := g.constraints.allow - {key})).Permits(res, act, ctx)
              && (key in ctx.fields ==> forall v <- ctx.fields[key] :: v in g.constraints.allow[key])
  {
    hide Grant.Concerns;
    SameConcern(g, g.constraints.(allow := g.constraints.allow - {key}), res, act, ctx);
  }

  /** The other bounds are carried along and not looked at by a check. */
  lemma OthersAreFree(g: Grant, res: Res, act: Act, ctx: Context)
    ensures
      var free := g.constraints.(
        maxBytesOut := None, ratePerMin := None, maxTokens := None, maxDepth := None, maxChildren := None);
      g.Permits(res, act, ctx) <==> Under(g, free).Permits(res, act, ctx)
  {
    hide Grant.Concerns; hide AllIn;
    var free := g.constraints.(
      maxBytesOut := None, ratePerMin := None, maxTokens := None, maxDepth := None, maxChildren := None);
    SameConcern(g, free, res, act, ctx);
  }

  /** The child has this bound too, at most as large. */
  predicate Tightened(child: Option<nat>, n: nat) {
    match child
    case None => false
    case Some(m) => m <= n
  }

  /** Being as strict, one restriction of the parent at a time: each must be kept, bounds no larger, the
      level no lower, a human still asked, lists of values no longer. */
  lemma EachBoundIsKept(c: Constraints, p: Constraints)
    ensures AsStrictAs(c, UNCONSTRAINED)
    ensures p.maxCalls.Some? ==>
              (AsStrictAs(c, p) <==> AsStrictAs(c, p.(maxCalls := None)) && Tightened(c.maxCalls, p.maxCalls.value))
    ensures p.maxBytes.Some? ==>
              (AsStrictAs(c, p) <==> AsStrictAs(c, p.(maxBytes := None)) && Tightened(c.maxBytes, p.maxBytes.value))
    ensures p.maxDepth.Some? ==>
              (AsStrictAs(c, p) <==> AsStrictAs(c, p.(maxDepth := None)) && Tightened(c.maxDepth, p.maxDepth.value))
    ensures p.maxTokens.Some? ==>
              (AsStrictAs(c, p) <==>
                 AsStrictAs(c, p.(maxTokens := None)) && Tightened(c.maxTokens, p.maxTokens.value))
  {
    hide AllIn;
  }

  lemma EachOtherBoundIsKept(c: Constraints, p: Constraints)
    ensures p.maxBytesOut.Some? ==>
              (AsStrictAs(c, p) <==>
                 AsStrictAs(c, p.(maxBytesOut := None)) && Tightened(c.maxBytesOut, p.maxBytesOut.value))
    ensures p.ratePerMin.Some? ==>
              (AsStrictAs(c, p) <==>
                 AsStrictAs(c, p.(ratePerMin := None)) && Tightened(c.ratePerMin, p.ratePerMin.value))
    ensures p.maxChildren.Some? ==>
              (AsStrictAs(c, p) <==>
                 AsStrictAs(c, p.(maxChildren := None)) && Tightened(c.maxChildren, p.maxChildren.value))
  {
    hide AllIn;
  }

  lemma LevelAndApprovalAreKept(c: Constraints, p: Constraints)
    ensures p.level.Some? ==>
              (AsStrictAs(c, p) <==>
                 AsStrictAs(c, p.(level := None)) && c.level.Some? && p.level.value <= c.level.value)
    ensures AsStrictAs(c, p) <==>
              AsStrictAs(c, p.(approval := None)) && (p.approval == Some(Required) ==> c.approval == Some(Required))
  {
    hide AllIn;
  }

  lemma EachListIsKept(c: Constraints, p: Constraints, key: string)
    requires key in p.allow
    ensures AsStrictAs(c, p) <==>
              && AsStrictAs(c, p.(allow := p.allow - {key}))
              && key in c.allow && forall v <- c.allow[key] :: v in p.allow[key]
  {
  }

  /** One step of attenuation: what a delegated set permits, the delegating set permits. */
  lemma InclusionPermitsMore(child: seq<Grant>, parent: seq<Grant>, res: Res, act: Act, ctx: Context)
    requires ValidPatterns(child) && ValidPatterns(parent)
    requires AllIncluded(child, parent) && NoTrapUsed(child, parent)
    requires SomePermits(child, res, act, ctx)
    ensures SomePermits(parent, res, act, ctx)
  {
    var g :| g in child && g.Permits(res, act, ctx);
    assert HonestlyCovered(g, parent);
    var p :| p in parent && g.SubsetOf(p) && !Pattern.GlobTrap(FamilyOf(p.res), p.pattern, g.pattern);
    PermitsPasses(g, p, res, act, ctx);
  }

  lemma PermitsPasses(g: Grant, p: Grant, res: Res, act: Act, ctx: Context)
    requires Pattern.Valid(FamilyOf(g.res), g.pattern) && Pattern.Valid(FamilyOf(p.res), p.pattern)
    requires g.SubsetOf(p) && !Pattern.GlobTrap(FamilyOf(p.res), p.pattern, g.pattern)
    requires g.Permits(res, act, ctx)
    ensures p.Permits(res, act, ctx)
  {
    Pattern.CoversSound(FamilyOf(res), p.pattern, g.pattern, ctx.target, ctx.home);
    StricterSatisfiesMore(g.constraints, p.constraints, ctx);
  }

  // ---- When granted rights stay within an unconstrained ceiling ----

  /** Some call meets the grant's constraints. */
  ghost predicate Satisfiable(g: Grant) {
    g.constraints.approval != Some(Required) && exists ctx :: SatisfiedBy(g.constraints, ctx)
  }

  ghost predicate StaysWithin(g: Grant, ceiling: seq<Grant>) {
    forall ctx :: g.Permits(g.res, g.act, ctx) ==> SomePermits(ceiling, g.res, g.act, ctx)
  }

  predicate Unconditional(ceiling: seq<Grant>) {
    forall p <- ceiling :: p.constraints == UNCONSTRAINED
  }

  function Longest(grants: seq<Grant>): (n: nat)
    ensures forall p <- grants :: |p.pattern| <= n
  {
    if grants == [] then 0 else Max(|grants[0].pattern|, Longest(grants[1..]))
  }

  /** A call that the grant permits and that only what covers it in earnest permits too. */
  lemma RevealingCall(g: Grant, ceiling: seq<Grant>) returns (ctx: Context)
    requires g.Valid() && ValidPatterns(ceiling) && Unconditional(ceiling) && Satisfiable(g)
    requires FamilyOf(g.res).Path? || FamilyOf(g.res).Program?
    requires EndsWith(g.pattern, "/*") && Pattern.PathLike(g.pattern)
    requires FamilyOf(g.res).Program? ==> "/" <= g.pattern
    ensures g.Permits(g.res, g.act, ctx)
    ensures SomePermits(ceiling, g.res, g.act, ctx) ==> HonestlyCovered(g, ceiling)
  {
    var name: string := seq(Longest(ceiling) + 1, _ => 'a');
    var other: Context :| SatisfiedBy(g.constraints, other);
    hide Pattern.Matches; hide Pattern.Covers; hide Pattern.Valid; hide Pattern.Root; hide EndsWith; hide Longest;
    ctx := other.(target := Pattern.Root(DropEnd(g.pattern, 2), "h") + "/" + name, home := "h");
    Pattern.StarReachesName(FamilyOf(g.res), g.pattern, name, "h");
    forall p | p in ceiling && p.Permits(g.res, g.act, ctx)
      ensures g.SubsetOf(p) && !Pattern.GlobTrap(FamilyOf(p.res), p.pattern, g.pattern)
    {
      Pattern.LongNameReach(FamilyOf(g.res), p.pattern, g.pattern, name);
    }
  }

  /** Under a ceiling without constraints, a grant that some call can meet permits nothing beyond the
      ceiling, for any target and home, exactly when some grant covers it otherwise than by the one
      shape that promises too much. */
  lemma StaysWithinIff(g: Grant, ceiling: seq<Grant>)
    requires g.Valid() && ValidPatterns(ceiling) && Unconditional(ceiling) && Satisfiable(g)
    requires exists p <- ceiling :: g.SubsetOf(p)
    ensures StaysWithin(g, ceiling) <==> HonestlyCovered(g, ceiling)
  {
    var p :| p in ceiling && g.SubsetOf(p);
    if HonestlyCovered(g, ceiling) {
      var h :| h in ceiling && g.SubsetOf(h) && !Pattern.GlobTrap(FamilyOf(h.res), h.pattern, g.pattern);
      forall ctx | g.Permits(g.res, g.act, ctx) ensures SomePermits(ceiling, g.res, g.act, ctx) {
        PermitsPasses(g, h, g.res, g.act, ctx);
      }
    } else {
      assert Pattern.GlobTrap(FamilyOf(p.res), p.pattern, g.pattern);
      Pattern.TrappedIsPath(FamilyOf(g.res), p.pattern, g.pattern);
      var ctx := RevealingCall(g, ceiling);
      assert !SomePermits(ceiling, g.res, g.act, ctx);
    }
  }

  // ---- Decisions ----

  datatype DenyReason =
    | Expired | BadSignature | RevokedParent | PolicyDenied
    | NoGrant | ConstraintViolated | ApprovalRequired | UnknownVersion

  datatype Rule = GrantRule(index: nat) | ActionRule(name: string) | HumanRule

  datatype Decision = Allow(grant: nat) | Deny(reason: DenyReason, rule: Option<Rule>)

  function Refuse(reason: DenyReason): Decision { Deny(reason, None) }

  /** What one grant says about a call. */
  datatype Verdict = Silent | AsksHuman | Grants | Violated

  function Judge(g: Grant, res: Res, act: Act, ctx: Context): Verdict {
    if !g.Concerns(res, act, ctx) then Silent
    else if g.constraints.approval == Some(Required) then AsksHuman
    else if SatisfiedBy(g.constraints, ctx) then Grants
    else Violated
  }

  function Verdicts(grants: seq<Grant>, res: Res, act: Act, ctx: Context): (vs: seq<Verdict>)
    ensures |vs| == |grants|
    ensures forall i :: 0 <= i < |vs| ==> vs[i] == Judge(grants[i], res, act, ctx)
  {
    seq(|grants|, i requires 0 <= i < |grants| => Judge(grants[i], res, act, ctx))
  }

  /** The search from position `k` on, knowing whether a constraint failed before. */
  function Search(vs: seq<Verdict>, k: nat, constraintHit: bool): Decision
    requires k <= |vs|
    decreases |vs| - k
  {
    if k == |vs| then Refuse(if constraintHit then ConstraintViolated else NoGrant)
    else
      match vs[k]
      case Silent => Search(vs, k + 1, constraintHit)
      case AsksHuman => Deny(ApprovalRequired, Some(GrantRule(k)))
      case Grants => Allow(k)
      case Violated => Search(vs, k + 1, true)
  }

  function FindGrantSpec(grants: seq<Grant>, res: Res, act: Act, ctx: Context): Decision {
    Search(Verdicts(grants, res, act, ctx), 0, false)
  }

  method FindGrant(grants: seq<Grant>, res: Res, act: Act, ctx: Context) returns (d: Decision)
    ensures d == FindGrantSpec(grants, res, act, ctx)
  {
    hide SatisfiedBy; hide Grant.Concerns;
    var constraintHit := false;
    ghost var vs := Verdicts(grants, res, act, ctx);
    for k := 0 to |grants|
      invariant Search(vs, 0, false) == Search(vs, k, constraintHit)
    {
      match Judge(grants[k], res, act, ctx) {
        case Silent =>
        case AsksHuman => return Deny(ApprovalRequired, Some(GrantRule(k)));
        case Grants => return Allow(k);
        case Violated => constraintHit := true;
      }
    }
    d := Refuse(if constraintHit then ConstraintViolated else NoGrant);
  }

  /** The first verdict that settles the search, if any. */
  ghost predicate FirstDecisive(vs: seq<Verdict>, k: nat) {
    && k < |vs|
    && (vs[k].Grants? || vs[k].AsksHuman?)
    && forall i :: 0 <= i < k ==> vs[i].Silent? || vs[i].Violated?
  }

  /** The answers of the search, each characterised without the loop. */
  ghost predicate SearchMeaning(vs: seq<Verdict>, d: Decision) {
    && (forall k: nat :: d == Allow(k) <==> FirstDecisive(vs, k) && vs[k].Grants?)
    && (forall k: nat :: d == Deny(ApprovalRequired, Some(GrantRule(k))) <==>
          FirstDecisive(vs, k) && vs[k].AsksHuman?)
    && (d == Refuse(NoGrant) <==> forall i :: 0 <= i < |vs| ==> vs[i].Silent?)
    && (d == Refuse(ConstraintViolated) <==>
          && (exists i :: 0 <= i < |vs| && vs[i].Violated?)
          && (forall i :: 0 <= i < |vs| ==> vs[i].Silent? || vs[i].Violated?))
  }

  lemma {:induction false} SearchFromMeaning(vs: seq<Verdict>, k: nat, hit: bool)
    requires k <= |vs|
    requires forall i :: 0 <= i < k ==> vs[i].Silent? || vs[i].Violated?
    requires hit <==> exists i :: 0 <= i < k && vs[i].Violated?
    ensures SearchMeaning(vs, Search(vs, k, hit))
    decreases |vs| - k
  {
    if k < |vs| {
      match vs[k]
      case Silent => SearchFromMeaning(vs, k + 1, hit);
      case Violated => SearchFromMeaning(vs, k + 1, true);
      case _ => assert FirstDecisive(vs, k);
    }
  }

  lemma FindGrantMeaning(grants: seq<Grant>, res: Res, act: Act, ctx: Context)
    ensures SearchMeaning(Verdicts(grants, res, act, ctx), FindGrantSpec(grants, res, act, ctx))
  {
    SearchFromMeaning(Verdicts(grants, res, act, ctx), 0, false);
  }

  /** What a search decides, in terms of the grants: the first that permits the call or asks a human for
      it settles; with none, it is a constraint that failed if some grant is about the call. */
  lemma FindGrantDecides(grants: seq<Grant>, res: Res, act: Act, ctx: Context)
    ensures
      var d := FindGrantSpec(grants, res, act, ctx);
      && (forall k: nat :: d == Allow(k) <==>
            && k < |grants| && grants[k].Permits(res, act, ctx)
            && forall i :: 0 <= i < k ==> !grants[i].Permits(res, act, ctx) && !AsksFor(grants[i], res, act, ctx))
      && (forall k: nat :: d == Deny(ApprovalRequired, Some(GrantRule(k))) <==>
            && k < |grants| && AsksFor(grants[k], res, act, ctx)
            && forall i :: 0 <= i < k ==> !grants[i].Permits(res, act, ctx) && !AsksFor(grants[i], res, act, ctx))
      && (d == Refuse(NoGrant) <==> forall g <- grants :: !g.Concerns(res, act, ctx))
      && (d == Refuse(ConstraintViolated) <==>
            && (exists g <- grants :: g.Concerns(res, act, ctx))
            && forall g <- grants :: !g.Permits(res, act, ctx) && !AsksFor(g, res, act, ctx))
  {
    hide SatisfiedBy; hide Grant.Concerns;
    var vs := Verdicts(grants, res, act, ctx);
    FindGrantMeaning(grants, res, act, ctx);
    VerdictsTell(grants, res, act, ctx);
    hide Grant.Permits; hide AsksFor; hide Judge; hide FindGrantSpec; hide Verdicts;
    forall k: nat
      ensures FirstDecisive(vs, k) <==>
                && k < |grants| && (grants[k].Permits(res, act, ctx) || AsksFor(grants[k], res, act, ctx))
                && forall i :: 0 <= i < k ==> !grants[i].Permits(res, act, ctx) && !AsksFor(grants[i], res, act, ctx)
    {
    }
    forall g ensures g in grants <==> exists i :: 0 <= i < |grants| && grants[i] == g {
    }
  }

  lemma VerdictsTell(grants: seq<Grant>, res: Res, act: Act, ctx: Context)
    ensures
      var vs := Verdicts(grants, res, act, ctx);
      && |vs| == |grants|
      && forall i :: 0 <= i < |grants| ==>
           && (vs[i].Grants? <==> grants[i].Permits(res, act, ctx))
           && (vs[i].AsksHuman? <==> AsksFor(grants[i], res, act, ctx))
           && (vs[i].Silent? <==> !grants[i].Concerns(res, act, ctx))
           && (vs[i].Violated? <==>
                 grants[i].Concerns(res, act, ctx) && !grants[i].Permits(res, act, ctx)
                 && !AsksFor(grants[i], res, act, ctx))
           && !(grants[i].Permits(res, act, ctx) && AsksFor(grants[i], res, act, ctx))
  {
    hide SatisfiedBy; hide Grant.Concerns;
  }

  /** The grant is about the call and wants a human asked. */
  predicate AsksFor(g: Grant, res: Res, act: Act, ctx: Context) {
    g.Concerns(res, act, ctx) && g.constraints.approval == Some(Required)
  }

  lemma AllowMeansPermitted(grants: seq<Grant>, res: Res, act: Act, ctx: Context)
    requires FindGrantSpec(grants, res, act, ctx).Allow?
    ensures SomePermits(grants, res, act, ctx)
  {
    FindGrantMeaning(grants, res, act, ctx);
    var k := FindGrantSpec(grants, res, act, ctx).grant;
    assert FirstDecisive(Verdicts(grants, res, act, ctx), k);
    assert grants[k].Permits(res, act, ctx);
  }

  // ---- Tokens ----

  datatype Token = Token(
    v: nat,
    iss: string,
    sub: string,
    agent: string,
    user: string,
    parent: Option<string>,
    grants: seq<Grant>,
    iat: Time,
    exp: Time,
    nonce: string,
    sig: Option<string>)
  {
    predicate Valid() {
      && v == TOKEN_VERSION
      && grants != []
      && iat < exp
      && forall g <- grants :: g.Valid()
    }

    predicate ExpiredAt(now: Time) { now >= exp }

    /** The specification's notion of a child token, as the type checks it. */
    predicate SubsetOf(parent: Token) {
      user == parent.user && exp <= parent.exp && AllIncluded(grants, parent.grants)
    }

    function SignedWith(sign: Token -> string): Token {
      this.(sig := Some(sign(this.(sig := None))))
    }
  }

  /** Builds and signs a token; `None` when its structure is refused. */
  function Build(
    issuer: string, subject: string, agent: string, user: string, parent: Option<string>,
    grants: seq<Grant>, ttl: int, now: Time, nonce: string, sign: Token -> string): (r: Option<Token>)
    ensures r.Some? ==> r.value.Valid() && r.value.parent == parent && r.value.grants == grants
  {
    var t := Token(TOKEN_VERSION, issuer, subject, agent, user, parent, grants,
                   now, now + ttl * SECOND, nonce, None);
    if t.Valid() then Some(t.SignedWith(sign)) else None
  }

  /** A token is built exactly with a time to live, grants, and each of them valid; it says what it was
      asked to, lives that many seconds, and its signature is over everything else. */
  lemma BuiltIff(
    issuer: string, subject: string, agent: string, user: string, parent: Option<string>,
    grants: seq<Grant>, ttl: int, now: Time, nonce: string, sign: Token -> string)
    ensures
      var r := Build(issuer, subject, agent, user, parent, grants, ttl, now, nonce, sign);
      && (r.Some? <==> ttl > 0 && grants != [] && forall g <- grants :: g.Valid())
      && (r.Some? ==>
            var t := r.value;
            var bare := Token(0, issuer, subject, agent, user, parent, grants, now, now + ttl * SECOND, nonce, None);
            t.sig == Some(sign(bare)) && t.(sig := None) == bare)
  {
    hide Grant.Valid;
  }

  // ---- Is a child's permission its parent's? ----

  /** The search allows exactly when some grant is satisfied and none before it asks a human. */
  lemma SearchAllowIff(grants: seq<Grant>, res: Res, act: Act, ctx: Context)
    ensures
      var vs := Verdicts(grants, res, act, ctx);
      FindGrantSpec(grants, res, act, ctx).Allow? <==>
        exists k: nat :: k < |vs| && vs[k].Grants? && forall i :: 0 <= i < k ==> !vs[i].AsksHuman?
  {
    var vs := Verdicts(grants, res, act, ctx);
    var d := FindGrantSpec(grants, res, act, ctx);
    FindGrantMeaning(grants, res, act, ctx);
    if d.Allow? { assert FirstDecisive(vs, d.grant); }
    if k: nat :| k < |vs| && vs[k].Grants? && forall i :: 0 <= i < k ==> !vs[i].AsksHuman? {
      var _ := FirstGranted(vs, k);
    }
  }

  lemma {:induction false} FirstGranted(vs: seq<Verdict>, k: nat) returns (first: nat)
    requires k < |vs| && vs[k].Grants? && forall i :: 0 <= i < k ==> !vs[i].AsksHuman?
    ensures FirstDecisive(vs, first) && vs[first].Grants?
  {
    if i: nat :| i < k && vs[i].Grants? {
      first := FirstGranted(vs, i);
    } else {
      first := k;
    }
  }

  /** Where a child is allowed, its parent either is or has to ask a human, and it is exactly when
      none of its grants asks one before the first that is satisfied. */
  lemma ParentAllowsIff(child: seq<Grant>, parent: seq<Grant>, res: Res, act: Act, ctx: Context)
    requires ValidPatterns(child) && ValidPatterns(parent)
    requires AllIncluded(child, parent) && NoTrapUsed(child, parent)
    requires FindGrantSpec(child, res, act, ctx).Allow?
    ensures
      var vs, d := Verdicts(parent, res, act, ctx), FindGrantSpec(parent, res, act, ctx);
      && (d.Allow? <==>
            exists k: nat :: k < |vs| && vs[k].Grants? && forall i :: 0 <= i < k ==> !vs[i].AsksHuman?)
      && (!d.Allow? ==> d.reason == ApprovalRequired)
  {
    hide AllIncluded; hide NoTrapUsed; hide ValidPatterns; hide SatisfiedBy; hide Grant.Concerns;
    AllowMeansPermitted(child, res, act, ctx);
    InclusionPermitsMore(child, parent, res, act, ctx);
    SearchAllowIff(parent, res, act, ctx);
    FindGrantMeaning(parent, res, act, ctx);
    var vs := Verdicts(parent, res, act, ctx);
    var k :| 0 <= k < |parent| && parent[k].Permits(res, act, ctx);
    assert vs[k].Grants?;
    SearchReasons(vs, 0, false);
  }

  /** The search refuses for three reasons only. */
  lemma {:induction false} SearchReasons(vs: seq<Verdict>, k: nat, hit: bool)
    requires k <= |vs|
    ensures
      var d := Search(vs, k, hit);
      d.Allow? || d == Refuse(NoGrant) || d == Refuse(ConstraintViolated) || d.reason == ApprovalRequired
    decreases |vs| - k
  {
    if k < |vs| {
      match vs[k]
      case Silent => SearchReasons(vs, k + 1, hit);
      case Violated => SearchReasons(vs, k + 1, true);
      case _ =>
    }
  }

  /** The parent's first matching grant can demand a human although a later one, from which the
      child descends, does not. */
  lemma ChildAllowedParentAsksHuman()
    ensures
      var ask := UNCONSTRAINED.(approval := Some(Required));
      var parent := [Grant(Tool, Call, "mail.send", ask), Grant(Tool, Call, "mail.*", UNCONSTRAINED)];
      var child := [Grant(Tool, Call, "mail.send", UNCONSTRAINED)];
      var ctx := Context("mail.send", "", 0, None, 0, map[]);
      && AllIncluded(child, parent)
      && FindGrantSpec(child, Tool, Call, ctx) == Allow(0)
      && FindGrantSpec(parent, Tool, Call, ctx) == Deny(ApprovalRequired, Some(GrantRule(0)))
      && SomePermits(parent, Tool, Call, ctx)
  {
    var ask := UNCONSTRAINED.(approval := Some(Required));
    var parent := [Grant(Tool, Call, "mail.send", ask), Grant(Tool, Call, "mail.*", UNCONSTRAINED)];
    var child := [Grant(Tool, Call, "mail.send", UNCONSTRAINED)];
    var ctx := Context("mail.send", "", 0, None, 0, map[]);
    assert Pattern.NameCovers("mail.*", "mail.send") by {
      assert "mail.*"[4..] == ".*";
      assert DropEnd("mail.*", 2) == "mail";
      assert "mail.send"[7..] == "nd";
      assert "mail." <= "mail.send";
    }
    assert child[0].SubsetOf(parent[1]);
    assert parent[1].Permits(Tool, Call, ctx);
  }
}
