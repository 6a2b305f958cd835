/** The forest of issued tokens: who descends from whom, how deep, and with which rights. */
module Delegation {
  import opened Prelude
  import opened Cap

  /** Used when the token that delegates does not bound the depth itself. */
  const DEFAULT_MAX_DEPTH: nat := 3

  /** Where a token comes from: a manifest's ceiling, or an earlier token of the log. */
  datatype Origin = Root(ceiling: seq<Grant>) | Child(parent: nat)

  datatype Issue = Issue(token: Token, origin: Origin)

  /** The standing assumption on the token digest: it is collision free. */
  ghost predicate Injective(digest: Token -> string) {
    forall a, b :: digest(a) == digest(b) ==> a == b
  }

  predicate IsSpawn(g: Grant) { g.res == Task && g.act == Spawn }

  /** The bound a token puts on the depth of what it delegates. */
  function MaxDepthOf(grants: seq<Grant>): nat {
    if grants == [] then DEFAULT_MAX_DEPTH
    else if IsSpawn(grants[0]) then grants[0].constraints.maxDepth.GetOr(DEFAULT_MAX_DEPTH)
    else MaxDepthOf(grants[1..])
  }

  /** It is that of the first grant to spawn tasks, or three where that grant or all of them say nothing. */
  lemma {:induction false} MaxDepthIs(grants: seq<Grant>)
    ensures (forall g <- grants :: !(g.res == Task && g.act == Spawn)) ==> MaxDepthOf(grants) == 3
    ensures forall k :: 0 <= k < |grants| && grants[k].res == Task && grants[k].act == Spawn
                        && (forall i :: 0 <= i < k ==> !(grants[i].res == Task && grants[i].act == Spawn)) ==>
              MaxDepthOf(grants) == match grants[k].constraints.maxDepth
                                    case Some(n) => n
                                    case None => 3
  {
    if grants != [] && !IsSpawn(grants[0]) {
      MaxDepthIs(grants[1..]);
      assert grants == [grants[0]] + grants[1..];
      forall k | 0 <= k < |grants| && IsSpawn(grants[k]) && (forall i :: 0 <= i < k ==> !IsSpawn(grants[i]))
        ensures MaxDepthOf(grants) == grants[k].constraints.maxDepth.GetOr(3)
      {
        assert k > 0 && grants[1..][k - 1] == grants[k];
        assert forall i :: 0 <= i < k - 1 ==> grants[1..][i] == grants[i + 1];
      }
    }
  }

  // ---- The forest ----

  /** Number of delegations between an issue and its root. */
  ghost function Depth(log: seq<Issue>, i: nat): nat
    requires i < |log|
    decreases i
  {
    match log[i].origin
    case Root(_) => 0
    case Child(j) => if j < i then 1 + Depth(log, j) else 0
  }

  ghost function RootCeiling(log: seq<Issue>, i: nat): seq<Grant>
    requires i < |log|
    decreases i
  {
    match log[i].origin
    case Root(ceiling) => ceiling
    case Child(j) => if j < i then RootCeiling(log, j) else []
  }

  /** The issue respects what minting or delegating checks, its parent being among the first
      `n` of the log. */
  ghost predicate Provenance(digest: Token -> string, log: seq<Issue>, n: nat, issue: Issue)
    requires n <= |log|
  {
    && issue.token.Valid()
    && if issue.origin.Root?
       then issue.token.parent.None? && AllIncluded(issue.token.grants, issue.origin.ceiling)
       else
         && issue.origin.parent < n
         && issue.token.parent == Some(digest(log[issue.origin.parent].token))
         && AllIncluded(issue.token.grants, log[issue.origin.parent].token.grants)
         && Depth(log, issue.origin.parent) + 1 <= MaxDepthOf(log[issue.origin.parent].token.grants)
  }

  ghost predicate WellIssued(digest: Token -> string, log: seq<Issue>, i: nat)
    requires i < |log|
  {
    Provenance(digest, log, i, log[i])
  }

  ghost predicate Forest(digest: Token -> string, log: seq<Issue>) {
    && (forall i: nat :: i < |log| ==> WellIssued(digest, log, i))
    && (forall i: nat, j: nat :: i < j < |log| ==> log[i].token != log[j].token)
  }

  /** The registry holds exactly the issued tokens, each under its digest. */
  ghost predicate Keyed(digest: Token -> string, log: seq<Issue>, issued: map<string, Token>) {
    && (forall i: nat :: i < |log| ==>
          digest(log[i].token) in issued && issued[digest(log[i].token)] == log[i].token)
    && (forall d <- issued :: exists i: nat :: i < |log| && digest(log[i].token) == d)
  }

  ghost predicate Issued(log: seq<Issue>, t: Token) {
    exists i: nat :: i < |log| && log[i].token == t
  }

  ghost function IndexOf(log: seq<Issue>, t: Token): (i: nat)
    requires Issued(log, t)
    ensures i < |log| && log[i].token == t
  {
    var i: nat :| i < |log| && log[i].token == t; i
  }

  lemma KeyedIffIssued(digest: Token -> string, log: seq<Issue>, issued: map<string, Token>, t: Token)
    requires Injective(digest) && Keyed(digest, log, issued)
    ensures digest(t) in issued <==> Issued(log, t)
    ensures digest(t) in issued ==> issued[digest(t)] == t
  {
    if digest(t) in issued {
      var i: nat :| i < |log| && digest(log[i].token) == digest(t);
      assert log[i].token == t;
    }
  }

  /** The log after an issue; issuing the very same token again changes nothing. */
  ghost function Record(log: seq<Issue>, issue: Issue): seq<Issue> {
    if Issued(log, issue.token) then log else log + [issue]
  }

  lemma {:induction false} DepthKept(log: seq<Issue>, more: seq<Issue>, i: nat)
    requires i < |log|
    ensures Depth(log + more, i) == Depth(log, i)
    ensures RootCeiling(log + more, i) == RootCeiling(log, i)
    decreases i
  {
    match log[i].origin
    case Root(_) =>
    case Child(j) => if j < i { DepthKept(log, more, j); }
  }

  lemma RecordKeepsForest(digest: Token -> string, log: seq<Issue>, issue: Issue)
    requires Forest(digest, log)
    requires Provenance(digest, log, |log|, issue)
    ensures Forest(digest, Record(log, issue))
  {
    if !Issued(log, issue.token) {
      var log' := log + [issue];
      forall i: nat | i < |log'|
        ensures WellIssued(digest, log', i)
      {
        if i < |log| {
          assert WellIssued(digest, log, i);
          DepthKept(log, [issue], i);
        } else if issue.origin.Child? {
          DepthKept(log, [issue], issue.origin.parent);
        }
      }
    }
  }

  lemma RecordKeepsKeyed(digest: Token -> string, log: seq<Issue>, issued: map<string, Token>, issue: Issue)
    requires Injective(digest) && Keyed(digest, log, issued)
    ensures Keyed(digest, Record(log, issue), issued[digest(issue.token) := issue.token])
  {
    var log', issued' := Record(log, issue), issued[digest(issue.token) := issue.token];
    var k := if Issued(log, issue.token) then IndexOf(log, issue.token) else |log|;
    assert log'[k].token == issue.token;
    forall d <- issued'
      ensures exists i: nat :: i < |log'| && digest(log'[i].token) == d
    {
      if d == digest(issue.token) {
        assert digest(log'[k].token) == d;
      } else {
        var i: nat :| i < |log| && digest(log[i].token) == d;
        assert digest(log'[i].token) == d;
      }
    }
  }

  // ---- Attenuation ----

  /** Ceilings are well formed, and no right was obtained by the one covering that promises too much. */
  ghost predicate SoundLog(log: seq<Issue>) {
    forall i: nat :: i < |log| ==> SoundIssue(log, log[i])
  }

  ghost predicate SoundIssue(log: seq<Issue>, issue: Issue) {
    match issue.origin
    case Root(ceiling) => ValidPatterns(ceiling) && NoTrapUsed(issue.token.grants, ceiling)
    case Child(j) => j < |log| && NoTrapUsed(issue.token.grants, log[j].token.grants)
  }

  /** At any depth, a right of the token is a right of the ceiling its root was minted under. */
  lemma {:induction false} Attenuation(digest: Token -> string, log: seq<Issue>, i: nat, res: Res, act: Act,
                                       ctx: Context)
    requires Forest(digest, log) && SoundLog(log) && i < |log|
    requires SomePermits(log[i].token.grants, res, act, ctx)
    ensures SomePermits(RootCeiling(log, i), res, act, ctx)
    decreases i
  {
    var t := log[i].token;
    assert WellIssued(digest, log, i);
    assert ValidPatterns(t.grants);
    assert SoundIssue(log, log[i]);
    match log[i].origin
    case Root(ceiling) =>
      InclusionPermitsMore(t.grants, ceiling, res, act, ctx);
    case Child(j) =>
      assert WellIssued(digest, log, j);
      InclusionPermitsMore(t.grants, log[j].token.grants, res, act, ctx);
      Attenuation(digest, log, j, res, act, ctx);
  }

  // ---- Depth ----

  /** No issued spawn grant bounds the depth by more than `d`. */
  ghost predicate SpawnBounded(log: seq<Issue>, d: nat) {
    forall i: nat :: i < |log| ==> forall g <- log[i].token.grants ::
      IsSpawn(g) && g.constraints.maxDepth.Some? ==> g.constraints.maxDepth.value <= d
  }

  lemma {:induction false} MaxDepthBounded(grants: seq<Grant>, d: nat)
    requires d >= DEFAULT_MAX_DEPTH
    requires forall g <- grants :: IsSpawn(g) && g.constraints.maxDepth.Some? ==> g.constraints.maxDepth.value <= d
    ensures MaxDepthOf(grants) <= d
  {
    if grants != [] {
      assert grants[0] in grants;
      if !IsSpawn(grants[0]) { MaxDepthBounded(grants[1..], d); }
    }
  }

  lemma DepthBounded(digest: Token -> string, log: seq<Issue>, i: nat, d: nat)
    requires Forest(digest, log) && i < |log|
    requires d >= DEFAULT_MAX_DEPTH && SpawnBounded(log, d)
    ensures Depth(log, i) <= d
  {
    assert WellIssued(digest, log, i);
    match log[i].origin
    case Root(_) =>
    case Child(j) => MaxDepthBounded(log[j].token.grants, d);
  }

  // ---- Chains of parents ----

  /** Each token of the chain names the digest of the next one as its parent. */
  ghost predicate IsChain(digest: Token -> string, chain: seq<Token>) {
    && chain != []
    && forall k: nat :: k + 1 < |chain| ==> chain[k].parent == Some(digest(chain[k + 1]))
  }

  /** The depth of an issued token is the length of its one complete parent chain. */
  lemma {:induction false} DepthIsChainLength(digest: Token -> string, log: seq<Issue>, i: nat, chain: seq<Token>)
    requires Injective(digest) && Forest(digest, log) && i < |log|
    requires IsChain(digest, chain) && chain[0] == log[i].token
    ensures |chain| <= Depth(log, i) + 1
    ensures |chain| == Depth(log, i) + 1 <==> chain[|chain| - 1].parent.None?
    decreases i
  {
    assert WellIssued(digest, log, i);
    if |chain| > 1 {
      assert chain[0].parent == Some(digest(chain[1]));
      var j := log[i].origin.parent;
      assert log[j].token == chain[1];
      var rest := chain[1..];
      assert IsChain(digest, rest) by {
        forall k: nat | k + 1 < |rest| ensures rest[k].parent == Some(digest(rest[k + 1])) {
          assert rest[k] == chain[k + 1] && rest[k + 1] == chain[k + 2];
        }
      }
      DepthIsChainLength(digest, log, j, rest);
    }
  }

  /** An issued token is cut off when its subject or an ancestor's subject is revoked. */
  ghost predicate Cut(log: seq<Issue>, revoked: set<string>, i: nat)
    requires i < |log|
    decreases i
  {
    || log[i].token.sub in revoked
    || (log[i].origin.Child? && log[i].origin.parent < i && Cut(log, revoked, log[i].origin.parent))
  }

  /** What the ancestor walk decides for any presented token; an unknown parent counts as revoked. */
  ghost predicate RevokedAncestor(digest: Token -> string, log: seq<Issue>, revoked: set<string>, t: Token) {
    || t.sub in revoked
    || (t.parent.Some? && forall i: nat :: i < |log| && digest(log[i].token) == t.parent.value ==> Cut(log, revoked, i))
  }

  lemma {:induction false} CutAlongChain(digest: Token -> string, log: seq<Issue>, revoked: set<string>, i: nat,
                                         chain: seq<Token>, k: nat)
    requires Injective(digest) && Forest(digest, log) && i < |log|
    requires IsChain(digest, chain) && chain[0] == log[i].token
    requires k < |chain| && chain[k].sub in revoked
    ensures Cut(log, revoked, i)
    decreases k
  {
    if k > 0 {
      assert WellIssued(digest, log, i);
      assert chain[0].parent == Some(digest(chain[1]));
      var j := log[i].origin.parent;
      var rest := chain[1..];
      assert IsChain(digest, rest) by {
        forall m: nat | m + 1 < |rest| ensures rest[m].parent == Some(digest(rest[m + 1])) {
          assert rest[m] == chain[m + 1] && rest[m + 1] == chain[m + 2];
        }
      }
      CutAlongChain(digest, log, revoked, j, rest, k - 1);
    }
  }

  /** Revoking one subject cuts every token that has it anywhere in its chain of parents. */
  lemma RevocationReachesSubtree(digest: Token -> string, log: seq<Issue>, revoked: set<string>,
                                 chain: seq<Token>, k: nat)
    requires Injective(digest) && Forest(digest, log)
    requires IsChain(digest, chain) && k < |chain| && chain[k].sub in revoked
    ensures RevokedAncestor(digest, log, revoked, chain[0])
  {
    if k > 0 {
      assert chain[0].parent == Some(digest(chain[1]));
      forall i: nat | i < |log| && digest(log[i].token) == chain[0].parent.value
        ensures Cut(log, revoked, i)
      {
        var rest := chain[1..];
        assert IsChain(digest, rest) by {
          forall m: nat | m + 1 < |rest| ensures rest[m].parent == Some(digest(rest[m + 1])) {
            assert rest[m] == chain[m + 1] && rest[m + 1] == chain[m + 2];
          }
        }
        CutAlongChain(digest, log, revoked, i, rest, k - 1);
      }
    }
  }

  /** An issued token is cut only for a reason: some token of its chain has a revoked subject. */
  lemma {:induction false} CutHasCulprit(digest: Token -> string, log: seq<Issue>, revoked: set<string>, i: nat)
      returns (chain: seq<Token>, k: nat)
    requires Forest(digest, log) && i < |log| && Cut(log, revoked, i)
    ensures IsChain(digest, chain) && chain[0] == log[i].token
    ensures k < |chain| && chain[k].sub in revoked
    decreases i
  {
    if log[i].token.sub in revoked {
      chain, k := [log[i].token], 0;
    } else {
      assert WellIssued(digest, log, i);
      var rest, m := CutHasCulprit(digest, log, revoked, log[i].origin.parent);
      chain, k := [log[i].token] + rest, m + 1;
      forall n: nat | n + 1 < |chain| ensures chain[n].parent == Some(digest(chain[n + 1])) {
        if n > 0 { assert rest[n - 1].parent == Some(digest(rest[n])); }
      }
    }
  }
}
