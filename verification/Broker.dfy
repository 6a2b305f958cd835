/** The capability broker: minting, delegation, revocation and access checks. */
module Broker {
  import opened Prelude
  import opened Cap
  import opened Policy
  import opened PolicyCache
  import opened Delegation
  import Approvals

  /** The cryptography and identity a broker works with, kept abstract. */
  datatype Keys = Keys(
    digest: Token -> string,
    sign: Token -> string,
    verify: Token -> bool,
    issuer: string,
    home: string)

  /** What a manifest says about its agent: its name and its ceiling, by capability key. */
  datatype Manifest = Manifest(agent: string, max: seq<(string, seq<string>)>)

  datatype BrokerError =
    | EmptyIntersection
    | BadManifest(key: string)
    | BadToken
    | UnknownParent
    | NotASubset
    | DepthExceeded(max: nat)

  datatype CheckRequest = CheckRequest(
    res: Res, act: Act, target: string, sandboxLevel: nat,
    irreversible: bool, external: bool, context: Context)

  // ---- Minting ----

  function Unconstrained(res: Res, act: Act, patterns: seq<string>): (grants: seq<Grant>)
    ensures |grants| == |patterns|
    ensures forall i :: 0 <= i < |grants| ==> grants[i] == Grant(res, act, patterns[i], UNCONSTRAINED)
  {
    if patterns == [] then []
    else [Grant(res, act, patterns[0], UNCONSTRAINED)] + Unconstrained(res, act, patterns[1..])
  }

  /** The manifest's ceiling as grants. */
  function Ceiling(max: seq<(string, seq<string>)>): Result<seq<Grant>, BrokerError> {
    if max == [] then Ok([])
    else
      match ParseKey(max[0].0)
      case None => Err(BadManifest(max[0].0))
      case Some((res, act)) =>
        match Ceiling(max[1..])
        case Err(e) => Err(e)
        case Ok(rest) => Ok(Unconstrained(res, act, max[0].1) + rest)
  }

  predicate Covered(g: Grant, ceiling: seq<Grant>) {
    exists c <- ceiling :: g.SubsetOf(c)
  }

  /** The requested grants the ceiling covers, in their order. */
  function Granted(requested: seq<Grant>, ceiling: seq<Grant>): (granted: seq<Grant>)
    ensures AllIncluded(granted, ceiling)
    ensures forall g :: g in granted <==> g in requested && Covered(g, ceiling)
  {
    if requested == [] then []
    else
      (if Covered(requested[0], ceiling) then [requested[0]] else [])
      + Granted(requested[1..], ceiling)
  }

  function MintResult(
    keys: Keys, manifest: Manifest, task: string, user: string,
    requested: seq<Grant>, ttl: int, now: Time, nonce: string): Result<Token, BrokerError>
  {
    match Ceiling(manifest.max)
    case Err(e) => Err(e)
    case Ok(ceiling) =>
      var granted := Granted(requested, ceiling);
      if granted == [] then Err(EmptyIntersection)
      else
        match Build(keys.issuer, task, manifest.agent, user, None, granted, ttl, now, nonce, keys.sign)
        case None => Err(BadToken)
        case Some(t) => Ok(t)
  }

  /** The ceiling exists exactly when every key names a pair, and it then holds the patterns of each key as
      grants of that pair, without constraints. Otherwise the first key that names none is refused. */
  lemma {:induction false} CeilingIs(max: seq<(string, seq<string>)>)
    ensures Ceiling(max).Ok? <==> forall e <- max :: Names(e.0)
    ensures Ceiling(max).Ok? ==> forall g :: g in Ceiling(max).value <==>
              g.constraints == UNCONSTRAINED && exists e <- max :: e.0 == ActionName(g.res, g.act) && g.pattern in e.1
    ensures Ceiling(max).Err? ==>
              exists k :: (&& 0 <= k < |max| && Ceiling(max) == Err(BadManifest(max[k].0))
                           && !Names(max[k].0) && forall i :: 0 <= i < k ==> Names(max[i].0))
  {
    hide ActionName; hide ParseKey;
    if max != [] {
      var (key, patterns) := max[0];
      CeilingIs(max[1..]);
      NamesIff(key);
      assert max == [max[0]] + max[1..];
      if ParseKey(key).Some? && Ceiling(max[1..]).Ok? {
        var (res, act) := ParseKey(key).value;
        var first := Unconstrained(res, act, patterns);
        forall g ensures g in first <==>
                         g.constraints == UNCONSTRAINED && key == ActionName(g.res, g.act) && g.pattern in patterns {
          UnconstrainedIs(res, act, patterns, g);
          ActionNameRoundTrip(key, g.res, g.act);
          ActionNameRoundTrip(key, res, act);
        }
      } else if ParseKey(key).Some? {
        var k :| 0 <= k < |max[1..]| && Ceiling(max[1..]) == Err(BadManifest(max[1..][k].0))
          && !Names(max[1..][k].0) && forall i :: 0 <= i < k ==> Names(max[1..][i].0);
        assert max[k + 1] == max[1..][k];
        assert forall i :: 0 <= i < k + 1 ==> Names(max[i].0);
      } else {
        assert !Names(max[0].0);
      }
    }
  }

  /** The key is the name of some pair. */
  ghost predicate Names(key: string) { exists res, act :: key == ActionName(res, act) }

  lemma NamesIff(key: string)
    ensures Names(key) <==> ParseKey(key).Some?
  {
    hide ActionName; hide ParseKey;
    if ParseKey(key).Some? {
      ActionNameRoundTrip(key, ParseKey(key).value.0, ParseKey(key).value.1);
    }
    if res, act :| key == ActionName(res, act) {
      ActionNameRoundTrip(key, res, act);
    }
  }

  lemma UnconstrainedIs(res: Res, act: Act, patterns: seq<string>, g: Grant)
    ensures g in Unconstrained(res, act, patterns) <==>
              g.res == res && g.act == act && g.constraints == UNCONSTRAINED && g.pattern in patterns
  {
    var grants := Unconstrained(res, act, patterns);
    if g.res == res && g.act == act && g.constraints == UNCONSTRAINED && g.pattern in patterns {
      var i :| 0 <= i < |patterns| && patterns[i] == g.pattern;
      assert grants[i] == g;
    }
  }

  /** The order of the requests is kept, and so is each as often as it is made. */
  lemma {:induction false} GrantedSplits(a: seq<Grant>, b: seq<Grant>, ceiling: seq<Grant>)
    ensures Granted(a + b, ceiling) == Granted(a, ceiling) + Granted(b, ceiling)
  {
    if a == [] {
      assert a + b == b;
    } else {
      assert (a + b)[1..] == a[1..] + b;
      GrantedSplits(a[1..], b, ceiling);
    }
  }

  /** A mission's token is minted exactly when its manifest is readable, some requested right is covered by
      its ceiling, all those that are so are valid, and it has a time to live. It then holds them. */
  lemma MintedIff(
    keys: Keys, manifest: Manifest, task: string, user: string,
    requested: seq<Grant>, ttl: int, now: Time, nonce: string)
    ensures
      var r := MintResult(keys, manifest, task, user, requested, ttl, now, nonce);
      var ceiling := Ceiling(manifest.max);
      && (ceiling.Err? ==> r == Err(ceiling.error))
      && (ceiling.Ok? && (forall g <- requested :: !Covered(g, ceiling.value)) ==> r == Err(EmptyIntersection))
      && (r.Ok? <==>
            && ceiling.Ok? && ttl > 0
            && (exists g <- requested :: Covered(g, ceiling.value))
            && forall g <- requested :: Covered(g, ceiling.value) ==> g.Valid())
      && (r.Ok? ==>
            var bare := Token(0, keys.issuer, task, manifest.agent, user, None, Granted(requested, ceiling.value),
                              now, now + ttl * SECOND, nonce, None);
            r.value == bare.(sig := Some(keys.sign(bare))))
  {
    hide Ceiling; hide Covered; hide Grant.Valid; hide Build;
    var ceiling := Ceiling(manifest.max);
    if ceiling.Ok? {
      var granted := Granted(requested, ceiling.value);
      BuiltIff(keys.issuer, task, manifest.agent, user, None, granted, ttl, now, nonce, keys.sign);
      if granted != [] { assert granted[0] in granted; }
    }
  }

  lemma {:induction false} CeilingIsUnconditional(max: seq<(string, seq<string>)>)
    requires Ceiling(max).Ok?
    ensures Unconditional(Ceiling(max).value)
  {
    if max != [] {
      CeilingIsUnconditional(max[1..]);
      var (res, act) := ParseKey(max[0].0).value;
      var first := Unconstrained(res, act, max[0].1);
      forall p | p in Ceiling(max).value ensures p.constraints == UNCONSTRAINED {
        assert p in first || p in Ceiling(max[1..]).value;
      }
    }
  }

  /** What a minted token permits stays within its ceiling, for every target and home, exactly when
      none of its rights was obtained by the one covering that promises too much. */
  lemma MintStaysWithinIff(
    keys: Keys, manifest: Manifest, task: string, user: string,
    requested: seq<Grant>, ttl: int, now: Time, nonce: string)
    requires MintResult(keys, manifest, task, user, requested, ttl, now, nonce).Ok?
    requires ValidPatterns(Ceiling(manifest.max).value)
    requires
      var token := MintResult(keys, manifest, task, user, requested, ttl, now, nonce).value;
      forall g <- token.grants :: Satisfiable(g)
    ensures
      var token := MintResult(keys, manifest, task, user, requested, ttl, now, nonce).value;
      var ceiling := Ceiling(manifest.max).value;
      (forall g <- token.grants :: StaysWithin(g, ceiling)) <==> NoTrapUsed(token.grants, ceiling)
  {
    var token := MintResult(keys, manifest, task, user, requested, ttl, now, nonce).value;
    var ceiling := Ceiling(manifest.max).value;
    assert token.Valid() && token.grants == Granted(requested, ceiling);
    CeilingIsUnconditional(manifest.max);
    hide StaysWithin; hide HonestlyCovered; hide Satisfiable; hide ValidPatterns; hide Unconditional; hide Ceiling;
    forall g | g in token.grants ensures StaysWithin(g, ceiling) <==> HonestlyCovered(g, ceiling) {
      StaysWithinIff(g, ceiling);
    }
  }

  // ---- Delegating ----

  /** Whole seconds the parent has left, and never less than one. */
  function RemainingSeconds(parent: Token, now: Time): int {
    Max(1, if parent.exp >= now then (parent.exp - now) / SECOND else 0)
  }

  /** The outcome of a delegation by a token that is `known` to the broker, at this `depth`. */
  function DelegateResult(
    keys: Keys, known: bool, depth: nat, parent: Token, task: string,
    requested: seq<Grant>, ttl: int, now: Time, nonce: string): Result<Token, BrokerError>
  {
    var max := MaxDepthOf(parent.grants);
    if !known then Err(UnknownParent)
    else if depth + 1 > max then Err(DepthExceeded(max))
    else if !AllIncluded(requested, parent.grants) then Err(NotASubset)
    else
      match Build(keys.issuer, task, parent.agent, parent.user, Some(keys.digest(parent)), requested,
                  Min(ttl, RemainingSeconds(parent, now)), now, nonce, keys.sign)
      case None => Err(BadToken)
      case Some(t) => Ok(t)
  }

  /** The time a delegated token is given: what was asked, or the whole seconds its parent has left, or one
      second when it has less. */
  predicate IsTimeGiven(seconds: int, parent: Token, ttl: int, now: Time) {
    if ttl <= 1 || now + ttl * SECOND <= parent.exp then seconds == ttl
    else
      && 1 <= seconds < ttl
      && (seconds > 1 ==> now + seconds * SECOND <= parent.exp)
      && parent.exp < now + (seconds + 1) * SECOND
  }

  lemma TimeGiven(parent: Token, ttl: int, now: Time)
    ensures IsTimeGiven(Min(ttl, RemainingSeconds(parent, now)), parent, ttl, now)
  {
    var left := parent.exp - now;
    if left >= 0 { assert left == left / SECOND * SECOND + left % SECOND; }
    var seconds := Min(ttl, RemainingSeconds(parent, now));
    assert now + ttl * SECOND <= parent.exp ==> left >= ttl * SECOND;
  }

  /** A delegation succeeds exactly for a known token that may go one deeper, asking for some valid rights
      that it covers each, with a time to live. Its child speaks for the same agent and user and names it
      as its parent. The refusals come in the order given. */
  lemma DelegatedIff(
    keys: Keys, known: bool, depth: nat, parent: Token, task: string,
    requested: seq<Grant>, ttl: int, now: Time, nonce: string)
    ensures
      var r := DelegateResult(keys, known, depth, parent, task, requested, ttl, now, nonce);
      && (!known ==> r == Err(UnknownParent))
      && (known && depth >= MaxDepthOf(parent.grants) ==> r == Err(DepthExceeded(MaxDepthOf(parent.grants))))
      && (known && depth < MaxDepthOf(parent.grants) && !AllIncluded(requested, parent.grants) ==> r == Err(NotASubset))
      && (r.Ok? <==>
            && known && depth < MaxDepthOf(parent.grants) && AllIncluded(requested, parent.grants)
            && ttl > 0 && requested != [] && forall g <- requested :: g.Valid())
      && (r.Ok? ==>
            exists seconds :: (
              && IsTimeGiven(seconds, parent, ttl, now)
              && var bare := Token(0, keys.issuer, task, parent.agent, parent.user, Some(keys.digest(parent)),
                                   requested, now, now + seconds * SECOND, nonce, None);
                 r.value == bare.(sig := Some(keys.sign(bare)))))
  {
    hide AllIncluded; hide Grant.Valid; hide Build; hide MaxDepthOf; hide IsTimeGiven;
    var seconds := Min(ttl, RemainingSeconds(parent, now));
    TimeGiven(parent, ttl, now);
    BuiltIff(keys.issuer, task, parent.agent, parent.user, Some(keys.digest(parent)), requested, seconds, now, nonce,
             keys.sign);
  }

  /** A delegated token outlives its parent exactly when the parent had less than a second left;
      otherwise it is a subset of its parent in every respect the specification lists. */
  lemma DelegatedOutlivesIff(
    keys: Keys, depth: nat, parent: Token, task: string, requested: seq<Grant>, ttl: int, now: Time, nonce: string)
    requires DelegateResult(keys, true, depth, parent, task, requested, ttl, now, nonce).Ok?
    ensures
      var child := DelegateResult(keys, true, depth, parent, task, requested, ttl, now, nonce).value;
      && (child.exp > parent.exp <==> parent.exp - now < SECOND)
      && (child.SubsetOf(parent) <==> parent.exp - now >= SECOND)
  {
    var ttl' := Min(ttl, RemainingSeconds(parent, now));
    if parent.exp - now >= SECOND {
      assert (parent.exp - now) / SECOND * SECOND <= parent.exp - now;
      assert (parent.exp - now) / SECOND >= 1;
    } else {
      assert parent.exp >= now ==> (parent.exp - now) / SECOND == 0;
    }
    assert now + ttl' * SECOND > now;
    assert ttl' >= 1;
  }

  lemma EverySubsetOfItself(grants: seq<Grant>)
    ensures AllIncluded(grants, grants)
  {
    forall g <- grants ensures g.SubsetOf(g) {
      assert AsStrictAs(g.constraints, g.constraints);
    }
  }

  /** It happens to every valid token that may still delegate: with less than a second left, it hands
      over all its rights to a child that outlives it. */
  lemma ShortLivedParentIsOutlived(
    keys: Keys, depth: nat, parent: Token, task: string, ttl: int, now: Time, nonce: string)
    requires parent.Valid() && depth < MaxDepthOf(parent.grants)
    requires parent.exp - now < SECOND && ttl >= 1
    ensures
      var r := DelegateResult(keys, true, depth, parent, task, parent.grants, ttl, now, nonce);
      r.Ok? && r.value.exp > parent.exp && r.value.grants == parent.grants
  {
    EverySubsetOfItself(parent.grants);
    assert RemainingSeconds(parent, now) == 1;
  }

  // ---- Checking ----

  function FactsFor(request: CheckRequest, home: string): Facts {
    FactsOf(request.res, request.act, request.target, request.irreversible, request.external, home)
  }

  function QueryFor(token: Token, request: CheckRequest, home: string): Query {
    Query(token.sub, request.res, request.act, FactsFor(request, home), request.sandboxLevel)
  }

  function ContextFor(request: CheckRequest, home: string): Context {
    request.context.(
      target := request.target,
      home := if request.context.home == "" then home else request.context.home,
      sandboxLevel := request.sandboxLevel)
  }

  /** The steps of a check that precede the policy. */
  function Precheck(token: Token, now: Time, signed: bool, revoked: bool): Option<Decision> {
    if !token.Valid() then Some(Refuse(UnknownVersion))
    else if !signed then Some(Refuse(BadSignature))
    else if revoked then Some(Refuse(RevokedParent))
    else if token.ExpiredAt(now) then Some(Refuse(Expired))
    else None
  }

  /** The steps that follow it. */
  function Postcheck(token: Token, request: CheckRequest, home: string): Decision {
    var d := FindGrantSpec(token.grants, request.res, request.act, ContextFor(request, home));
    if d.Allow? && Classify(request.res, request.act, FactsFor(request, home)).RequiresApproval()
    then Deny(ApprovalRequired, Some(ActionRule(ActionName(request.res, request.act))))
    else d
  }

  /** The whole decision, given each verdict it rests on; `None` when the policy engine fails. */
  function Decide(
    token: Token, request: CheckRequest, now: Time, home: string,
    signed: bool, revoked: bool, policy: Option<bool>): Option<Decision>
  {
    match Precheck(token, now, signed, revoked)
    case Some(d) => Some(d)
    case None =>
      match policy
      case None => None
      case Some(false) => Some(Deny(PolicyDenied, Some(ActionRule(ActionName(request.res, request.act)))))
      case Some(true) => Some(Postcheck(token, request, home))
  }

  /** An allowed call passed every gate, and a grant of the token permits it. */
  lemma AllowPassedEveryGate(
    token: Token, request: CheckRequest, now: Time, home: string,
    signed: bool, revoked: bool, policy: Option<bool>)
    requires var d := Decide(token, request, now, home, signed, revoked, policy); d.Some? && d.value.Allow?
    ensures token.Valid() && signed && !revoked && now < token.exp && policy == Some(true)
    ensures SomePermits(token.grants, request.res, request.act, ContextFor(request, home))
    ensures !Classify(request.res, request.act, FactsFor(request, home)).RequiresApproval()
  {
    AllowMeansPermitted(token.grants, request.res, request.act, ContextFor(request, home));
  }

  /** A call is allowed exactly when the token is one of this version with a life and valid rights, signed,
      with no revoked ancestor, not over, the policy says yes, the rights allow it, and no human is to be
      asked for what it is: writing something sensitive, delegating, reading the whole journal, or
      anything irreversible or external but an execution. */
  lemma AllowedIff(
    token: Token, request: CheckRequest, now: Time, home: string,
    signed: bool, revoked: bool, policy: Option<bool>)
    ensures
      var d := Decide(token, request, now, home, signed, revoked, policy);
      var home' := if request.context.home == "" then home else request.context.home;
      var ctx := Context(request.target, home', request.sandboxLevel, request.context.bytes,
                         request.context.callsSoFar, request.context.fields);
      d.Some? && d.value.Allow? <==>
        && token.v == 0 && token.grants != [] && token.iat < token.exp && (forall g <- token.grants :: g.Valid())
        && signed && !revoked && now < token.exp && policy == Some(true)
        && FindGrantSpec(token.grants, request.res, request.act, ctx).Allow?
        && ((request.res == Fs || request.res == Proc) && request.act == Write ==>
              !IsSensitivePath(request.target, home))
        && !(request.res == Res.Cap && request.act == Act.Delegate)
        && !(request.res == Ledger && request.act == ReadAll)
        && ((request.irreversible || request.external) ==> request.res == Proc && request.act == Exec)
  {
    hide FindGrantSpec; hide IsSensitivePath; hide Grant.Valid; hide IsSafeUtility;
  }

  /** What refuses it is the first of these that fails, in this order; a failing engine gives no answer. */
  lemma RefusedBy(
    token: Token, request: CheckRequest, now: Time, home: string,
    signed: bool, revoked: bool, policy: Option<bool>)
    ensures
      var d := Decide(token, request, now, home, signed, revoked, policy);
      var rule := ActionRule(ActionName(request.res, request.act));
      if !token.Valid() then d == Some(Deny(UnknownVersion, None))
      else if !signed then d == Some(Deny(BadSignature, None))
      else if revoked then d == Some(Deny(RevokedParent, None))
      else if token.exp <= now then d == Some(Deny(Expired, None))
      else if policy.None? then d == None
      else if !policy.value then d == Some(Deny(PolicyDenied, Some(rule)))
      else d.Some? && (d.value.Deny? ==>
             || d.value == FindGrantSpec(token.grants, request.res, request.act, ContextFor(request, home))
             || d.value == Deny(ApprovalRequired, Some(rule)))
  {
    hide FindGrantSpec; hide IsSensitivePath; hide Token.Valid; hide IsSafeUtility; hide ActionName; hide Classify;
  }

  /** Whatever was asked before, the memo of the default policies refuses what is protected. */
  lemma ProtectedIsRefused(home: string, memo: Memo, q: Query)
    requires Genuine(home, memo) && memo.engine == DefaultEngine && Real(home, q) && q.facts.sensitive
    ensures Answer(memo, q) == Some(false)
  {
    DefaultEngineDeterminedIff(home, q);
    if KeyOf(q) in memo.cache { assert Sourced(home, memo, KeyOf(q)); }
  }

  // ---- What the memo can change ----

  /** The questions of checks are exactly those the memo's theorems speak of. */
  lemma QuestionsAreReal(token: Token, request: CheckRequest, home: string)
    ensures Real(home, QueryFor(token, request, home))
  {
  }

  /** What the memo of the default policies answers to `second` right after a check asked `first`. */
  function Remembered(token: Token, first: CheckRequest, second: CheckRequest, home: string): Option<bool> {
    Answer(After(NewMemo(DefaultEngine), QueryFor(token, first, home)), QueryFor(token, second, home))
  }

  /** Two checks one after the other by the same token: the second is answered otherwise than the
      default policies say exactly when both are executions below level 2, on targets that are not
      sensitive, declared alike, and one target is a confined utility and the other is not. */
  lemma SecondCheckMisledIff(token: Token, first: CheckRequest, second: CheckRequest, home: string)
    ensures
      Remembered(token, first, second, home) != DefaultEngine(QueryFor(token, second, home)) <==>
        && first.res == Proc && first.act == Exec && second.res == Proc && second.act == Exec
        && first.sandboxLevel == second.sandboxLevel < 2
        && first.irreversible == second.irreversible && first.external == second.external
        && !IsSensitivePath(first.target, home) && !IsSensitivePath(second.target, home)
        && IsSafeUtility(first.target) != IsSafeUtility(second.target)
  {
    var q, r := QueryFor(token, first, home), QueryFor(token, second, home);
    hide IsSensitivePath; hide IsSafeUtility; hide ActionName;
    ActionNameRoundTrip(ActionName(q.res, q.act), q.res, q.act);
    ActionNameRoundTrip(ActionName(q.res, q.act), r.res, r.act);
  }

  /** So a check of a confined utility opens every other program to a token that may execute it: the
      decision is the one its grants give, where the policies alone refuse. */
  lemma ForbiddenProgramPasses(token: Token, request: CheckRequest, now: Time, home: string)
    requires request.res == Proc && request.act == Exec && request.sandboxLevel < 2
    requires !IsSensitivePath(request.target, home) && !IsSafeUtility(request.target)
    requires token.Valid() && !token.ExpiredAt(now)
    ensures
      var first := request.(target := "wc");
      && Decide(token, request, now, home, true, false, Remembered(token, first, request, home))
           == Some(FindGrantSpec(token.grants, Proc, Exec, ContextFor(request, home)))
      && Decide(token, request, now, home, true, false, DefaultEngine(QueryFor(token, request, home)))
           == Some(Deny(PolicyDenied, Some(ActionRule(ActionName(Proc, Exec)))))
  {
    UtilitiesAndShells(home);
    hide IsSensitivePath; hide IsSafeUtility; hide FindGrantSpec;
    SecondCheckMisledIff(token, request.(target := "wc"), request, home);
  }

  class Broker {
    const keys: Keys
    const approvals: Approvals.Queue
    var policy: Engine
    var policyCache: map<Key, bool>
    /** Tokens issued by this process, by digest. */
    var issued: map<string, Token>
    var revoked: set<string>
    /** Digests of tokens whose signature was already verified. */
    var verified: set<string>
    /** The issues of this process, in order. */
    ghost var log: seq<Issue>

    ghost predicate Valid()
      reads this
    {
      && Injective(keys.digest)
      && Forest(keys.digest, log)
      && Keyed(keys.digest, log, issued)
      && (forall d <- verified :: exists t :: keys.digest(t) == d && keys.verify(t))
      && Genuine(keys.home, Memo(policy, policyCache))
    }

    constructor (keys: Keys)
      requires Injective(keys.digest)
      ensures Valid() && this.keys == keys && policy == DefaultEngine
      ensures log == [] && revoked == {} && verified == {} && policyCache == map[]
      ensures fresh(approvals) && approvals.View() == Approvals.EMPTY
    {
      this.keys := keys;
      approvals := new Approvals.Queue();
      policy := DefaultEngine;
      policyCache := map[];
      issued := map[];
      revoked := {};
      verified := {};
      log := [];
    }

    /** Replaces the engine and forgets the answers of the previous one. */
    method WithPolicy(engine: Engine)
      requires Valid()
      modifies this`policy, this`policyCache
      ensures Valid()
      ensures Memo(policy, policyCache) == PolicyCache.Step(old(Memo(policy, policyCache)), Replaced(engine))
    {
      policy := engine;
      policyCache := map[];
    }

    method Mint(
      manifest: Manifest, task: string, user: string,
      requested: seq<Grant>, ttl: int, now: Time, nonce: string)
      returns (r: Result<Token, BrokerError>)
      requires Valid()
      modifies this`issued, this`log
      ensures Valid()
      ensures r == MintResult(keys, manifest, task, user, requested, ttl, now, nonce)
      ensures r.Err? ==> issued == old(issued) && log == old(log)
      ensures r.Ok? ==>
        && issued == old(issued)[keys.digest(r.value) := r.value]
        && log == Record(old(log), Issue(r.value, Root(Ceiling(manifest.max).value)))
    {
      var ceiling := Ceiling(manifest.max);
      if ceiling.Err? { return Err(ceiling.error); }
      var granted := Granted(requested, ceiling.value);
      if granted == [] { return Err(EmptyIntersection); }
      var built := Build(keys.issuer, task, manifest.agent, user, None, granted, ttl, now, nonce, keys.sign);
      if built.None? { return Err(BadToken); }
      var token := built.value;
      ghost var issue := Issue(token, Root(ceiling.value));
      RecordKeepsForest(keys.digest, log, issue);
      RecordKeepsKeyed(keys.digest, log, issued, issue);
      issued := issued[keys.digest(token) := token];
      log := Record(log, issue);
      r := Ok(token);
    }

    method Delegate(
      parent: Token, task: string, requested: seq<Grant>, ttl: int, now: Time, nonce: string)
      returns (r: Result<Token, BrokerError>)
      requires Valid()
      modifies this`issued, this`log
      ensures Valid()
      ensures r == DelegateResult(
        keys, old(Issued(log, parent)),
        if old(Issued(log, parent)) then old(Depth(log, IndexOf(log, parent))) else 0,
        parent, task, requested, ttl, now, nonce)
      ensures r.Err? ==> issued == old(issued) && log == old(log)
      ensures r.Ok? ==>
        && issued == old(issued)[keys.digest(r.value) := r.value]
        && log == Record(old(log), Issue(r.value, Child(old(IndexOf(log, parent)))))
    {
      KeyedIffIssued(keys.digest, log, issued, parent);
      var parentDigest := keys.digest(parent);
      if parentDigest !in issued { return Err(UnknownParent); }
      ghost var i := IndexOf(log, parent);
      var depth := DepthOf(parentDigest);
      var max := MaxDepthOf(parent.grants);
      if depth + 1 > max { return Err(DepthExceeded(max)); }
      if !AllIncluded(requested, parent.grants) { return Err(NotASubset); }
      var built := Build(keys.issuer, task, parent.agent, parent.user, Some(parentDigest), requested,
                         Min(ttl, RemainingSeconds(parent, now)), now, nonce, keys.sign);
      if built.None? { return Err(BadToken); }
      var token := built.value;
      ghost var issue := Issue(token, Child(i));
      RecordKeepsForest(keys.digest, log, issue);
      RecordKeepsKeyed(keys.digest, log, issued, issue);
      issued := issued[keys.digest(token) := token];
      log := Record(log, issue);
      r := Ok(token);
    }

    /** Walks up the registry; the walk ends because parents are issued before their children. */
    method DepthOf(digest: string) returns (depth: nat)
      requires Valid()
      ensures forall i: nat :: i < |log| && keys.digest(log[i].token) == digest ==> depth == Depth(log, i)
      ensures digest !in issued ==> depth == 0
    {
      depth := 0;
      if digest !in issued { return; }
      var current := issued[digest];
      ghost var start: nat :| start < |log| && keys.digest(log[start].token) == digest;
      ghost var at: nat := start;
      while current.parent.Some?
        invariant at < |log| && log[at].token == current
        invariant depth + Depth(log, at) == Depth(log, start)
        decreases at
      {
        assert WellIssued(keys.digest, log, at);
        at := log[at].origin.parent;
        depth := depth + 1;
        current := issued[current.parent.value];
      }
      assert WellIssued(keys.digest, log, at);
    }

    /** Also clears the standing rules of the task of this name. */
    method Revoke(subject: string)
      requires Valid()
      modifies this`revoked, approvals`rules
      ensures Valid() && revoked == old(revoked) + {subject}
      ensures approvals.View() ==
              old(approvals.View()).(rules := Approvals.WithoutTask(old(approvals.View()).rules, subject))
    {
      revoked := revoked + {subject};
      approvals.ClearTaskRules(subject);
    }

    /** Walks up from any presented token; a parent missing from the registry counts as revoked. */
    method HasRevokedAncestor(token: Token) returns (r: bool)
      requires Valid()
      ensures r == RevokedAncestor(keys.digest, log, revoked, token)
    {
      hide Genuine; hide Injective;
      if token.sub in revoked { return true; }
      if token.parent.None? { return false; }
      if token.parent.value !in issued { return true; }
      var current := issued[token.parent.value];
      ghost var start: nat :| start < |log| && keys.digest(log[start].token) == token.parent.value;
      ghost var at: nat := start;
      assert RevokedAncestor(keys.digest, log, revoked, token) <==> Cut(log, revoked, start);
      while true
        invariant at < |log| && log[at].token == current
        invariant Cut(log, revoked, start) <==> Cut(log, revoked, at)
        decreases at
      {
        assert WellIssued(keys.digest, log, at);
        if current.sub in revoked { return true; }
        if current.parent.None? { return false; }
        if current.parent.value !in issued { return true; }
        at := log[at].origin.parent;
        current := issued[current.parent.value];
      }
    }

    /** Verifies a signature, remembering the digests already verified. */
    method SignatureIsValid(token: Token) returns (r: bool)
      requires Valid()
      modifies this`verified
      ensures Valid() && old(verified) <= verified
      ensures r == keys.verify(token)
    {
      var digest := keys.digest(token);
      if digest in verified { return true; }
      if !keys.verify(token) { return false; }
      verified := verified + {digest};
      r := true;
    }

    /** Evaluates the policy, remembering the answers by key. */
    method PolicyAllows(token: Token, request: CheckRequest) returns (r: Option<bool>)
      requires Valid()
      modifies this`policyCache
      ensures Valid()
      ensures
        var q := QueryFor(token, request, keys.home);
        && r == old(Answer(Memo(policy, policyCache), q))
        && Memo(policy, policyCache) == PolicyCache.Step(old(Memo(policy, policyCache)), Asked(q))
    {
      var q := QueryFor(token, request, keys.home);
      QuestionsAreReal(token, request, keys.home);
      StepKeepsGenuine(keys.home, Memo(policy, policyCache), Asked(q));
      var key := KeyOf(q);
      if key in policyCache {
        r := Some(policyCache[key]);
        assert policyCache[key := policyCache[key]] == policyCache;
        return;
      }
      r := policy(q);
      if r.Some? { policyCache := policyCache[key := r.value]; }
    }

    /** The access check; `None` when the policy engine fails. */
    method Check(token: Token, request: CheckRequest, now: Time) returns (d: Option<Decision>)
      requires Valid()
      modifies this`verified, this`policyCache
      ensures Valid()
      ensures d == Decide(
        token, request, now, keys.home,
        keys.verify(token),
        RevokedAncestor(keys.digest, log, revoked, token),
        old(Answer(Memo(policy, policyCache), QueryFor(token, request, keys.home))))
      ensures
        || policyCache == old(policyCache)
        || Memo(policy, policyCache) ==
             PolicyCache.Step(old(Memo(policy, policyCache)), Asked(QueryFor(token, request, keys.home)))
      ensures policy == DefaultEngine && (request.res == Fs || request.res == Proc) ==>
                (Protected(request.target, keys.home) ==> d.Some? && d.value.Deny?)
    {
      hide Protected;
      SensitiveIff(request.res, request.act, request.target, request.irreversible, request.external, keys.home);
      if policy == DefaultEngine && FactsFor(request, keys.home).sensitive {
        ProtectedIsRefused(keys.home, Memo(policy, policyCache), QueryFor(token, request, keys.home));
      }
      if !token.Valid() { return Some(Refuse(UnknownVersion)); }
      var signed := SignatureIsValid(token);
      if !signed { return Some(Refuse(BadSignature)); }
      var cut := HasRevokedAncestor(token);
      if cut { return Some(Refuse(RevokedParent)); }
      if token.ExpiredAt(now) { return Some(Refuse(Expired)); }
      var allowed := PolicyAllows(token, request);
      if allowed.None? { return None; }
      if !allowed.value {
        return Some(Deny(PolicyDenied, Some(ActionRule(ActionName(request.res, request.act)))));
      }
      var decision := FindGrant(token.grants, request.res, request.act, ContextFor(request, keys.home));
      if !decision.Allow? { return Some(decision); }
      if Classify(request.res, request.act, FactsFor(request, keys.home)).RequiresApproval() {
        return Some(Deny(ApprovalRequired, Some(ActionRule(ActionName(request.res, request.act)))));
      }
      d := Some(decision);
    }
  }
}
