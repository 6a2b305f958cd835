/** The capability service over its whole life: tokens, revocations, crashes and restarts. */
module Capd {
  import opened Prelude
  import opened Cap
  import opened Delegation
  import opened Broker
  import opened Policy
  import Pattern
  import Revocations
  import Lines
  import opened Utf8

  /** The service's state: the issues of this process and of the earlier ones, the revoked
      subjects held in memory, the register on disk, and whether the service is up. */
  datatype State = State(past: seq<seq<Issue>>, log: seq<Issue>, revoked: set<string>, file: string, up: bool)

  datatype Op =
    | Mint(manifest: Manifest, task: string, user: string, requested: seq<Grant>, ttl: int, now: Time, nonce: string)
    | Delegate(parent: Token, task: string, requested: seq<Grant>, ttl: int, now: Time, nonce: string)
    /** A revocation whose inscription succeeds when it is attempted. */
    | Revoke(subject: string, at: Time)
    /** A revocation whose inscription fails after `written` bytes, the service living on. */
    | RevokeFailed(subject: string, at: Time, written: nat)
    /** A restart, after a stop or a crash. */
    | Restart
    /** A crash that stops the inscription of a revocation after `written` bytes, then a restart. */
    | CrashInRevoke(subject: string, at: Time, written: nat)

  const INITIAL := State([], [], {}, "", true)

  /** Reads the register and starts with an empty token registry, or cannot start. */
  ghost function Restarted(codec: Revocations.Codec, s: State): State {
    match Revocations.Reading(codec, s.file)
    case Ok(subjects) => State(s.past + [s.log], [], (set x <- subjects), Lines.Kept(s.file), true)
    case Err(_) => State(s.past + [s.log], [], {}, s.file, false)
  }

  /** One step; a service that is down can only try to start. */
  ghost function Step(keys: Keys, codec: Revocations.Codec, s: State, op: Op): State {
    if s.up then Act(keys, codec, s, op) else if op.Restart? then Restarted(codec, s) else s
  }

  ghost function Act(keys: Keys, codec: Revocations.Codec, s: State, op: Op): State {
    match op
    case Mint(manifest, task, user, requested, ttl, now, nonce) =>
      (match MintResult(keys, manifest, task, user, requested, ttl, now, nonce)
       case Err(_) => s
       case Ok(t) => s.(log := Record(s.log, Issue(t, Root(Ceiling(manifest.max).value)))))
    case Delegate(parent, task, requested, ttl, now, nonce) =>
      (if !Issued(s.log, parent) then s
       else
         var i := IndexOf(s.log, parent);
         match DelegateResult(keys, true, Depth(s.log, i), parent, task, requested, ttl, now, nonce)
         case Err(_) => s
         case Ok(t) => s.(log := Record(s.log, Issue(t, Child(i)))))
    case Revoke(subject, at) =>
      s.(revoked := s.revoked + {subject},
         file := if subject in s.revoked then s.file else s.file + Revocations.Line(codec, subject, at))
    case RevokeFailed(subject, at, written) =>
      s.(revoked := s.revoked + {subject},
         file := if subject in s.revoked then s.file
                 else s.file + Revocations.Written(codec, subject, at, Some(written)))
    case Restart => Restarted(codec, s)
    case CrashInRevoke(subject, at, written) =>
      var torn := s.file + Revocations.Written(codec, subject, at, Some(written));
      Restarted(codec, if subject in s.revoked then s else s.(file := torn))
  }

  ghost function Run(keys: Keys, codec: Revocations.Codec, s: State, ops: seq<Op>): State
    decreases |ops|
  {
    if ops == [] then s
    else Step(keys, codec, Run(keys, codec, s, ops[..|ops| - 1]), ops[|ops| - 1])
  }

  /** The subjects a restart would read now. */
  ghost predicate Inscribed(codec: Revocations.Codec, s: State, subject: string) {
    && Revocations.Reading(codec, s.file).Ok?
    && subject in Revocations.Reading(codec, s.file).value
  }

  ghost function Logs(s: State): seq<seq<Issue>> { s.past + [s.log] }

  // ---- What every step keeps ----

  ghost predicate Forests(keys: Keys, s: State) {
    forall l <- Logs(s) :: Forest(keys.digest, l)
  }

  ghost predicate Sound(codec: Revocations.Codec, s: State) {
    && (Revocations.Reading(codec, s.file).Ok? ==> Revocations.Tidy(codec, s.file))
    && (s.up && Revocations.Reading(codec, s.file).Ok? ==>
          forall x <- Revocations.Reading(codec, s.file).value :: x in s.revoked)
    && (!s.up ==> Revocations.Reading(codec, s.file).Err?)
  }

  /** The subject is refused as long as the service runs, and whenever it can start again. */
  ghost predicate Held(codec: Revocations.Codec, s: State, subject: string) {
    && (s.up ==> subject in s.revoked)
    && (Revocations.Reading(codec, s.file).Ok? ==> subject in Revocations.Reading(codec, s.file).value)
  }

  lemma StepKeepsForests(keys: Keys, codec: Revocations.Codec, s: State, op: Op)
    requires Forests(keys, s)
    ensures Forests(keys, Step(keys, codec, s, op))
  {
    hide Forest;
    assert s.log in Logs(s);
    var s' := Step(keys, codec, s, op);
    if s.up && op.Mint? {
      MintKeepsForest(keys, codec, s, op);
    } else if s.up && op.Delegate? {
      DelegateKeepsForest(keys, codec, s, op);
    } else {
      EmptyForest(keys);
    }
    forall l | l in Logs(s') ensures Forest(keys.digest, l) {
      assert l in Logs(s) || l == s'.log;
    }
  }

  lemma EmptyForest(keys: Keys)
    ensures Forest(keys.digest, [])
  {
  }

  lemma MintKeepsForest(keys: Keys, codec: Revocations.Codec, s: State, op: Op)
    requires op.Mint? && Forest(keys.digest, s.log)
    ensures Forest(keys.digest, Act(keys, codec, s, op).log)
  {
    var r := MintResult(keys, op.manifest, op.task, op.user, op.requested, op.ttl, op.now, op.nonce);
    if r.Ok? { RecordKeepsForest(keys.digest, s.log, Issue(r.value, Root(Ceiling(op.manifest.max).value))); }
  }

  lemma DelegateKeepsForest(keys: Keys, codec: Revocations.Codec, s: State, op: Op)
    requires op.Delegate? && Forest(keys.digest, s.log)
    ensures Forest(keys.digest, Act(keys, codec, s, op).log)
  {
    if Issued(s.log, op.parent) {
      var i := IndexOf(s.log, op.parent);
      var r := DelegateResult(keys, true, Depth(s.log, i), op.parent, op.task, op.requested, op.ttl, op.now, op.nonce);
      if r.Ok? { RecordKeepsForest(keys.digest, s.log, Issue(r.value, Child(i))); }
    }
  }

  lemma {:induction false} RunKeepsForests(keys: Keys, codec: Revocations.Codec, ops: seq<Op>)
    ensures Forests(keys, Run(keys, codec, INITIAL, ops))
    decreases |ops|
  {
    hide Forests; hide Step;
    if ops == [] {
      InitialForests(keys);
    } else {
      RunKeepsForests(keys, codec, ops[..|ops| - 1]);
      StepKeepsForests(keys, codec, Run(keys, codec, INITIAL, ops[..|ops| - 1]), ops[|ops| - 1]);
    }
  }

  lemma InitialForests(keys: Keys)
    ensures Forests(keys, INITIAL)
  {
    assert Logs(INITIAL) == [[]];
  }

  /** Running `before` then `after` is running both. */
  lemma {:induction false} RunInTwo(keys: Keys, codec: Revocations.Codec, before: seq<Op>, after: seq<Op>)
    ensures Run(keys, codec, INITIAL, before + after) == Run(keys, codec, Run(keys, codec, INITIAL, before), after)
    decreases |after|
  {
    hide Step;
    if after == [] {
      assert before + after == before;
    } else {
      var ops, less := before + after, after[..|after| - 1];
      assert ops[..|ops| - 1] == before + less;
      RunInTwo(keys, codec, before, less);
    }
  }

  lemma RestartKeeps(codec: Revocations.Codec, s: State)
    ensures
      var s' := Restarted(codec, s);
      && Sound(codec, s')
      && (s'.up <==> Revocations.Reading(codec, s.file).Ok?)
      && (s'.up ==> Revocations.Reading(codec, s'.file) == Revocations.Reading(codec, s.file))
  {
    Lines.KeptIsBoundary(s.file);
    if Revocations.Reading(codec, s.file).Ok? { Revocations.KeptIsText(s.file); }
  }

  /** What an inscription, whole or cut, does to the register. */
  lemma WriteKeeps(codec: Revocations.Codec, file: string, subject: string, at: Time, failsAfter: Option<nat>)
    requires codec.Faithful() && codec.NeverGlues()
    requires Revocations.Reading(codec, file).Ok? ==> Revocations.Tidy(codec, file)
    ensures
      var before := Revocations.Reading(codec, file);
      var file' := file + Revocations.Written(codec, subject, at, failsAfter);
      var after := Revocations.Reading(codec, file');
      && (before.Err? ==> after.Err?)
      && (after.Ok? ==> Revocations.Tidy(codec, file'))
      && (after.Ok? ==> after.value == before.value || after.value == before.value + [subject])
  {
    hide Revocations.Codec.Faithful; hide Revocations.Codec.NeverGlues; hide Revocations.Tidy; hide Revocations.Reading;
    var line := Revocations.Line(codec, subject, at);
    if Revocations.Reading(codec, file).Ok? {
      Revocations.WriteKeepsTidy(codec, file, subject, at, failsAfter);
    }
    if failsAfter.Some? && failsAfter.value < |line| {
      Revocations.CutReads(codec, file, subject, at, failsAfter.value);
    } else {
      Revocations.LineIsText(codec, subject, at);
      Revocations.ReadingStays(codec, file, line);
      if Revocations.Reading(codec, file).Ok? { Revocations.InscriptionReadsIff(codec, file, subject, at); }
    }
  }

  lemma RevokeKeeps(codec: Revocations.Codec, s: State, subject: string, at: Time, failsAfter: Option<nat>)
    requires codec.Faithful() && codec.NeverGlues() && Sound(codec, s)
    ensures
      var s' := s.(revoked := s.revoked + {subject},
                   file := s.file + Revocations.Written(codec, subject, at, failsAfter));
      Sound(codec, s') && forall x :: Held(codec, s, x) ==> Held(codec, s', x)
  {
    hide Revocations.Tidy; hide Revocations.Reading; hide Revocations.Written;
    WriteKeeps(codec, s.file, subject, at, failsAfter);
  }

  lemma CrashKeeps(codec: Revocations.Codec, s: State, subject: string, at: Time, written: nat)
    requires codec.Faithful() && codec.NeverGlues() && Sound(codec, s)
    ensures
      var s' := Restarted(codec, s.(file := s.file + Revocations.Written(codec, subject, at, Some(written))));
      Sound(codec, s') && forall x :: Held(codec, s, x) ==> Held(codec, s', x)
  {
    hide Revocations.Tidy; hide Revocations.Reading; hide Revocations.Written;
    WriteKeeps(codec, s.file, subject, at, Some(written));
    RestartKeeps(codec, s.(file := s.file + Revocations.Written(codec, subject, at, Some(written))));
  }

  lemma StepKeepsSound(codec: Revocations.Codec, keys: Keys, s: State, op: Op)
    requires codec.Faithful() && codec.NeverGlues() && Sound(codec, s)
    ensures
      var s' := Step(keys, codec, s, op);
      Sound(codec, s') && forall x :: Held(codec, s, x) ==> Held(codec, s', x)
  {
    hide MintResult; hide DelegateResult; hide Revocations.Tidy; hide Revocations.Reading; hide Revocations.Written;
    RestartKeeps(codec, s);
    match op
    case Revoke(subject, at) =>
      LineIsWritten(codec, subject, at);
      RevokeKeeps(codec, s, subject, at, None);
    case RevokeFailed(subject, at, written) => RevokeKeeps(codec, s, subject, at, Some(written));
    case CrashInRevoke(subject, at, written) => CrashKeeps(codec, s, subject, at, written);
    case _ =>
  }

  lemma LineIsWritten(codec: Revocations.Codec, subject: string, at: Time)
    ensures Revocations.Written(codec, subject, at, None) == Revocations.Line(codec, subject, at)
  {
  }

  lemma {:induction false} RunKeepsSound(codec: Revocations.Codec, keys: Keys, s: State, ops: seq<Op>)
    requires codec.Faithful() && codec.NeverGlues() && Sound(codec, s)
    ensures Sound(codec, Run(keys, codec, s, ops))
    ensures forall x :: Held(codec, s, x) ==> Held(codec, Run(keys, codec, s, ops), x)
    decreases |ops|
  {
    hide Held; hide Sound; hide Step;
    if ops != [] {
      RunKeepsSound(codec, keys, s, ops[..|ops| - 1]);
      StepKeepsSound(codec, keys, Run(keys, codec, s, ops[..|ops| - 1]), ops[|ops| - 1]);
    }
  }

  lemma InitialSound(codec: Revocations.Codec)
    ensures Sound(codec, INITIAL)
    ensures Lines.AtBoundary(INITIAL.file) && Revocations.Reading(codec, INITIAL.file) == Ok([])
  {
    Lines.NoLine("");
  }

  // ---- Revocation is permanent and reaches the subtree ----

  /** A right given is on record: a minted token under the ceiling of its manifest, a delegated one a level
      below its parent, and what was on record stays. */
  lemma IssuedIsRecorded(keys: Keys, codec: Revocations.Codec, s: State, op: Op)
    requires s.up && (op.Mint? || op.Delegate?)
    ensures
      var s' := Step(keys, codec, s, op);
      && s' == s.(log := s'.log)
      && (forall t :: Issued(s.log, t) ==> Issued(s'.log, t))
      && (op.Mint? ==>
            match MintResult(keys, op.manifest, op.task, op.user, op.requested, op.ttl, op.now, op.nonce)
            case Err(_) => s' == s
            case Ok(t) =>
              && Issued(s'.log, t)
              && (!Issued(s.log, t) ==> s'.log == s.log + [Issue(t, Root(Ceiling(op.manifest.max).value))]))
      && (op.Delegate? ==>
            if !Issued(s.log, op.parent) then s' == s
            else
              match DelegateResult(keys, true, Depth(s.log, IndexOf(s.log, op.parent)), op.parent, op.task,
                                   op.requested, op.ttl, op.now, op.nonce)
              case Err(_) => s' == s
              case Ok(t) =>
                && Issued(s'.log, t)
                && (!Issued(s.log, t) ==> s'.log == s.log + [Issue(t, Child(IndexOf(s.log, op.parent)))]))
  {
    hide MintResult; hide DelegateResult; hide Ceiling;
    var s' := Step(keys, codec, s, op);
    forall t | Issued(s.log, t) ensures Issued(s'.log, t) {
      var i: nat :| i < |s.log| && s.log[i].token == t;
      assert s'.log[i].token == t;
    }
    if s'.log != s.log && |s'.log| > |s.log| { assert s'.log[|s.log|] == s'.log[|s'.log| - 1]; }
  }

  /** Once a subject is in the register, then whatever happens next, failed writes, crashes and
      restarts included, either the service is down, its register being unreadable, or no check
      allows a token that has this subject anywhere in its chain of parents. */
  lemma PermanentRevocation(
    keys: Keys, codec: Revocations.Codec, before: seq<Op>, after: seq<Op>, subject: string,
    chain: seq<Token>, k: nat, request: CheckRequest, now: Time, policy: Option<bool>)
    requires Injective(keys.digest) && codec.Faithful() && codec.NeverGlues()
    requires Inscribed(codec, Run(keys, codec, INITIAL, before), subject)
    requires IsChain(keys.digest, chain) && k < |chain| && chain[k].sub == subject
    ensures
      var s := Run(keys, codec, Run(keys, codec, INITIAL, before), after);
      var d := Decide(chain[0], request, now, keys.home, keys.verify(chain[0]),
                      RevokedAncestor(keys.digest, s.log, s.revoked, chain[0]), policy);
      if s.up then d.Some? && d.value.Deny? else Revocations.Reading(codec, s.file).Err?
  {
    hide Step;
    InitialSound(codec);
    RunKeepsSound(codec, keys, INITIAL, before);
    var middle := Run(keys, codec, INITIAL, before);
    RunKeepsSound(codec, keys, middle, after);
    var s := Run(keys, codec, middle, after);
    assert Held(codec, middle, subject);
    RunInTwo(keys, codec, before, after);
    RunKeepsForests(keys, codec, before + after);
    assert Forest(keys.digest, s.log) by { assert s.log in Logs(s); }
    if s.up { RevocationReachesSubtree(keys.digest, s.log, s.revoked, chain, k); }
  }

  /** A revocation that answers success is inscribed exactly when it is new in this process and the
      register stands at a line boundary and reads, or when its subject already was. So neither one
      that repeats a failed inscription nor one that follows a half-written line is. */
  lemma RevokeInscribesIff(keys: Keys, codec: Revocations.Codec, s: State, subject: string, at: Time)
    requires codec.Faithful() && codec.NeverGlues() && Sound(codec, s) && s.up
    ensures Inscribed(codec, Step(keys, codec, s, Revoke(subject, at)), subject) <==>
              if subject in s.revoked then Inscribed(codec, s, subject)
              else Lines.AtBoundary(s.file) && Revocations.Reading(codec, s.file).Ok?
  {
    hide Revocations.Tidy; hide Revocations.Reading;
    LineIsWritten(codec, subject, at);
    Revocations.LineIsText(codec, subject, at);
    Revocations.ReadingStays(codec, s.file, Revocations.Line(codec, subject, at));
    if Revocations.Reading(codec, s.file).Ok? {
      Revocations.InscriptionReadsIff(codec, s.file, subject, at);
    }
  }

  /** After a restart the service is up exactly when the register reads, and then the revoked
      subjects are exactly the inscribed ones. */
  lemma RestartForgetsTheRest(keys: Keys, codec: Revocations.Codec, s: State, subject: string)
    ensures
      var s' := Step(keys, codec, s, Restart);
      && (s'.up <==> Revocations.Reading(codec, s.file).Ok?)
      && (subject in s'.revoked <==> Inscribed(codec, s, subject))
  {
  }

  /** One inscription cut short, the service living on, then a successful one: the register no longer
      reads and the service cannot start again, whatever is done next. */
  lemma HalfWrittenLineStopsTheService(
    keys: Keys, codec: Revocations.Codec, s: State, a: string, b: string, at: Time, written: nat, later: Time)
    requires codec.Faithful() && codec.NeverGlues()
    requires s.up && Lines.AtBoundary(s.file) && Revocations.Reading(codec, s.file).Ok?
    requires a !in s.revoked && b !in s.revoked && a != b
    requires 0 < written < |Revocations.Line(codec, a, at)|
    ensures
      var s1 := Step(keys, codec, s, RevokeFailed(a, at, written));
      var s2 := Step(keys, codec, s1, Revoke(b, later));
      !Lines.AtBoundary(s1.file) && s2.up && !Step(keys, codec, s2, Restart).up
  {
    hide Revocations.Reading;
    var line := Revocations.Line(codec, a, at);
    var file := s.file + line[..written];
    Revocations.CutReads(codec, s.file, a, at, written);
    Revocations.WriteKeepsTidy(codec, s.file, a, at, Some(written));
    Revocations.LineIsText(codec, b, later);
    Revocations.ReadingStays(codec, file, Revocations.Line(codec, b, later));
    if Revocations.Reading(codec, file).Ok? { Revocations.InscriptionReadsIff(codec, file, b, later); }
  }

  /** No inscription stops in the middle of a line, and no crash stops one inside a character. */
  predicate WholeWrite(codec: Revocations.Codec, op: Op) {
    match op
    case RevokeFailed(subject, at, written) => written == 0 || written >= |Revocations.Line(codec, subject, at)|
    case CrashInRevoke(subject, at, written) => BetweenCharacters(Revocations.Line(codec, subject, at), written)
    case _ => true
  }

  ghost predicate Serves(codec: Revocations.Codec, s: State) {
    s.up && Lines.AtBoundary(s.file) && Revocations.Reading(codec, s.file).Ok?
  }

  /** In a run of such writes the register always stands at a line boundary and reads: the service
      always starts again. */
  lemma {:induction false} WholeWritesKeepTheService(keys: Keys, codec: Revocations.Codec, ops: seq<Op>)
    requires codec.Faithful()
    requires forall op <- ops :: WholeWrite(codec, op)
    ensures Serves(codec, Run(keys, codec, INITIAL, ops))
    decreases |ops|
  {
    hide Serves; hide Step; hide WholeWrite;
    if ops == [] {
      InitialServes(codec);
    } else {
      WholeWritesKeepTheService(keys, codec, ops[..|ops| - 1]);
      assert WholeWrite(codec, ops[|ops| - 1]);
      WholeWriteKeepsTheServiceIff(keys, codec, Run(keys, codec, INITIAL, ops[..|ops| - 1]), ops[|ops| - 1]);
    }
  }

  lemma InitialServes(codec: Revocations.Codec)
    ensures Serves(codec, INITIAL)
  {
    InitialSound(codec);
  }

  /** A step keeps it exactly if it is such a write, or writes nothing. */
  lemma WholeWriteKeepsTheServiceIff(keys: Keys, codec: Revocations.Codec, s: State, op: Op)
    requires codec.Faithful() && Serves(codec, s)
    ensures Serves(codec, Step(keys, codec, s, op)) <==>
              WholeWrite(codec, op) || ((op.RevokeFailed? || op.CrashInRevoke?) && op.subject in s.revoked)
  {
    hide MintResult; hide DelegateResult; hide Revocations.Reading;
    Lines.KeptIsBoundary(s.file);
    RestartKeeps(codec, s);
    match op
    case Revoke(subject, at) => Revocations.InscriptionReads(codec, s.file, subject, at);
    case RevokeFailed(subject, at, written) => StoppedWrite(codec, s.file, subject, at, written);
    case CrashInRevoke(subject, at, written) =>
      StoppedWrite(codec, s.file, subject, at, written);
      var torn := s.file + Revocations.Written(codec, subject, at, Some(written));
      Lines.KeptIsBoundary(torn);
      RestartKeeps(codec, s.(file := torn));
    case _ =>
  }

  lemma StoppedWrite(codec: Revocations.Codec, file: string, subject: string, at: Time, written: nat)
    requires codec.Faithful() && Lines.AtBoundary(file) && Revocations.Reading(codec, file).Ok?
    ensures
      var line := Revocations.Line(codec, subject, at);
      var torn := file + Revocations.Written(codec, subject, at, Some(written));
      && (Revocations.Reading(codec, torn).Ok? <==> BetweenCharacters(line, written))
      && (Lines.AtBoundary(torn) <==> written == 0 || written >= |line|)
      && (written == 0 ==> torn == file)
  {
    var line := Revocations.Line(codec, subject, at);
    if written < |line| {
      Revocations.CutReads(codec, file, subject, at, written);
    } else {
      Revocations.InscriptionReads(codec, file, subject, at);
    }
  }

  // ---- Rights only shrink, over every run ----

  /** What the callers of a run must avoid: ceilings with ill-formed patterns, and rights that only
      the covering that promises too much gives. */
  predicate TrapFreeOp(op: Op) {
    match op
    case Mint(manifest, _, _, requested, _, _, _) =>
      Ceiling(manifest.max).Ok? ==>
        && ValidPatterns(Ceiling(manifest.max).value)
        && NoTrapUsed(requested, Ceiling(manifest.max).value)
    case Delegate(parent, _, requested, _, _, _) => NoTrapUsed(requested, parent.grants)
    case _ => true
  }

  ghost predicate AllSoundLogs(s: State) {
    forall l <- Logs(s) :: SoundLog(l)
  }

  lemma StepKeepsSoundLogs(keys: Keys, codec: Revocations.Codec, s: State, op: Op)
    requires AllSoundLogs(s) && TrapFreeOp(op)
    ensures AllSoundLogs(Step(keys, codec, s, op))
  {
    var s' := Step(keys, codec, s, op);
    if op.Mint? || op.Delegate? {
      assert s.log in Logs(s);
      forall l | l in Logs(s')
        ensures SoundLog(l)
      {
        assert l in s.past ==> l in Logs(s);
      }
    } else {
      forall l | l in Logs(s')
        ensures SoundLog(l)
      {
        assert l == [] || l in Logs(s);
      }
    }
  }

  lemma {:induction false} RunKeepsSoundLogs(keys: Keys, codec: Revocations.Codec, ops: seq<Op>)
    requires forall op <- ops :: TrapFreeOp(op)
    ensures AllSoundLogs(Run(keys, codec, INITIAL, ops))
    decreases |ops|
  {
    if ops != [] {
      RunKeepsSoundLogs(keys, codec, ops[..|ops| - 1]);
      StepKeepsSoundLogs(keys, codec, Run(keys, codec, INITIAL, ops[..|ops| - 1]), ops[|ops| - 1]);
    }
  }

  /** In every run, a call allowed to a token issued at any time and delegated to any depth is
      within the manifest ceiling its root was minted under: some ceiling grant matches the target,
      has its constraints satisfied by the same context, and asks for no approval. */
  lemma AllowWithinCeiling(
    keys: Keys, codec: Revocations.Codec, ops: seq<Op>, log: seq<Issue>, i: nat,
    request: CheckRequest, now: Time, signed: bool, revoked: bool, policy: Option<bool>)
    requires forall op <- ops :: TrapFreeOp(op)
    requires log in Logs(Run(keys, codec, INITIAL, ops)) && i < |log|
    requires
      var d := Decide(log[i].token, request, now, keys.home, signed, revoked, policy);
      d.Some? && d.value.Allow?
    ensures SomePermits(RootCeiling(log, i), request.res, request.act, ContextFor(request, keys.home))
  {
    RunKeepsForests(keys, codec, ops);
    RunKeepsSoundLogs(keys, codec, ops);
    AllowPassedEveryGate(log[i].token, request, now, keys.home, signed, revoked, policy);
    Attenuation(keys.digest, log, i, request.res, request.act, ContextFor(request, keys.home));
  }

  // ---- The condition is needed ----

  const TRAP := Grant(Fs, Read, "/a/*/**", UNCONSTRAINED)
  const SNARED := Grant(Fs, Read, "/a/*", UNCONSTRAINED)
  const SNARING := Manifest("agent", [("fs.read", ["/a/*/**"])])
  const BEYOND := CheckRequest(Fs, Read, "/a/a", 0, false, false, Context("/a/a", "", 0, None, 0, map[]))

  lemma SnaringCeiling()
    ensures Ceiling(SNARING.max) == Ok([TRAP])
  {
    assert ActionName(Fs, Read) == "fs.read";
    ActionNameRoundTrip("fs.read", Fs, Read);
    assert SNARING.max[1..] == [];
    assert Unconstrained(Fs, Read, ["/a/*/**"]) == [TRAP] by { assert ["/a/*/**"][1..] == []; }
  }

  lemma SnaredMatches(home: string)
    ensures Pattern.PathMatches("/a/*", "/a/a", home) && !Pattern.PathMatches("/a/*/**", "/a/a", home)
    ensures Pattern.PathCovers("/a/*/**", "/a/*")
  {
    Pattern.TrapsExist();
    var target := Pattern.TrapBreaksInclusion("/a/*/**", "/a/*", home);
    assert DropEnd("/a/*", 2) == "/a";
    assert target == "/a/a";
    assert DropEnd("/a/*/**", 3) == "/a/*" && EndsWith("/a/*/**", "/**") by { assert "/a/*/**"[4..] == "/**"; }
  }

  lemma SnaredIsGranted()
    ensures SNARED.SubsetOf(TRAP) && SNARED.Valid()
    ensures Granted([SNARED], [TRAP]) == [SNARED]
  {
    SnaredMatches("");
    Pattern.TrapsExist();
    assert [SNARED][1..] == [];
    assert Granted([], [TRAP]) == [];
  }

  /** One minting is enough: a right requested under a ceiling of the trapped shape is granted, and with
      the default policies its token is allowed a call that no grant of the ceiling permits. */
  lemma TrapEscapesTheCeiling(keys: Keys, codec: Revocations.Codec, now: Time)
    ensures
      var s := Run(keys, codec, INITIAL, [Mint(SNARING, "task", "user", [SNARED], 60, now, "nonce")]);
      var ctx := ContextFor(BEYOND, keys.home);
      && |s.log| == 1 && RootCeiling(s.log, 0) == [TRAP]
      && !SomePermits(RootCeiling(s.log, 0), Fs, Read, ctx)
      && Decide(s.log[0].token, BEYOND, now, keys.home, true, false,
                DefaultEngine(QueryFor(s.log[0].token, BEYOND, keys.home))) == Some(Allow(0))
  {
    SnaringCeiling();
    SnaredIsGranted();
    var op := Mint(SNARING, "task", "user", [SNARED], 60, now, "nonce");
    RunOne(keys, codec, op);
    var s := Run(keys, codec, INITIAL, [op]);
    var built := Build(keys.issuer, "task", "agent", "user", None, [SNARED], 60, now, "nonce", keys.sign);
    assert built.Some?;
    var token := built.value;
    assert s.log == [Issue(token, Root([TRAP]))];
    SnaredIsAllowed(token, keys.home);
  }

  lemma RunOne(keys: Keys, codec: Revocations.Codec, op: Op)
    ensures Run(keys, codec, INITIAL, [op]) == Step(keys, codec, INITIAL, op)
  {
    hide Act;
    var ops := [op];
    assert ops[..|ops| - 1] == [];
    assert Run(keys, codec, INITIAL, ops[..|ops| - 1]) == INITIAL;
  }

  lemma SnaredIsAllowed(token: Token, home: string)
    requires token.grants == [SNARED]
    ensures
      var ctx := ContextFor(BEYOND, home);
      && FindGrantSpec(token.grants, Fs, Read, ctx) == Allow(0)
      && !SomePermits([TRAP], Fs, Read, ctx)
      && DefaultEngine(QueryFor(token, BEYOND, home)) == Some(true)
      && !Classify(Fs, Read, FactsFor(BEYOND, home)).RequiresApproval()
  {
    hide IsSensitivePath; hide Pattern.PathMatches;
    PlainTarget(home);
    var ctx := ContextFor(BEYOND, home);
    SnaredMatches(ctx.home);
    var vs := Verdicts(token.grants, Fs, Read, ctx);
    assert vs[0] == Judge(SNARED, Fs, Read, ctx);
    assert vs[0].Grants?;
    assert Search(vs, 0, false) == Allow(0);
  }

  // ---- Depth ----

  predicate SpawnsWithin(grants: seq<Grant>, d: nat) {
    forall g <- grants :: IsSpawn(g) && g.constraints.maxDepth.Some? ==> g.constraints.maxDepth.value <= d
  }

  predicate SpawnBoundedOp(op: Op, d: nat) {
    match op
    case Mint(_, _, _, requested, _, _, _) => SpawnsWithin(requested, d)
    case Delegate(_, _, requested, _, _, _) => SpawnsWithin(requested, d)
    case _ => true
  }

  lemma {:induction false} RunKeepsSpawnBounded(keys: Keys, codec: Revocations.Codec, ops: seq<Op>, d: nat)
    requires forall op <- ops :: SpawnBoundedOp(op, d)
    ensures forall l <- Logs(Run(keys, codec, INITIAL, ops)) :: SpawnBounded(l, d)
    decreases |ops|
  {
    if ops != [] {
      RunKeepsSpawnBounded(keys, codec, ops[..|ops| - 1], d);
      var s := Run(keys, codec, INITIAL, ops[..|ops| - 1]);
      var s' := Run(keys, codec, INITIAL, ops);
      assert s.log in Logs(s);
      assert SpawnBoundedOp(ops[|ops| - 1], d);
      forall l | l in Logs(s')
        ensures SpawnBounded(l, d)
      {
        assert l == s'.log || l == [] || l in Logs(s);
      }
    }
  }

  /** If no requested spawn grant sets `max_depth` above `d`, and `d` is at least the default,
      no token is ever issued deeper than `d`. */
  lemma DepthWithin(keys: Keys, codec: Revocations.Codec, ops: seq<Op>, d: nat, log: seq<Issue>, i: nat)
    requires d >= DEFAULT_MAX_DEPTH && forall op <- ops :: SpawnBoundedOp(op, d)
    requires log in Logs(Run(keys, codec, INITIAL, ops)) && i < |log|
    ensures Depth(log, i) <= d
  {
    RunKeepsForests(keys, codec, ops);
    RunKeepsSpawnBounded(keys, codec, ops, d);
    DepthBounded(keys.digest, log, i, d);
  }
}
