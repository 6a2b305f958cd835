/** The approval queue over the runs of its service: saved after a change, loaded again at a start. A save
    that fails is logged and the call goes on. */
module ApprovalRestarts {
  import opened Prelude
  import opened Approvals
  import opened ApprovalRuns

  /** The queue in memory, and as it was last saved. A save is all or nothing. */
  datatype Service = Service(memory: State, disk: State)

  datatype Move =
    | Does(op: Op, saved: bool)
    | Restarts

  const NEW := Service(EMPTY, EMPTY)

  /** A call after which the queue is saved. A sweep that finds no overdue request is not, even when it
      forgets decisions. No call of the service drops a single rule. */
  predicate Tries(s: State, op: Op) {
    match op
    case Ask(_, _, _, _) => true
    case Decide(id, ruling, scope, now, ruleId) => ResolveStep(s, id, ruling, scope, now, ruleId).1.Some?
    case Reason(id, reason) => ExplainStep(s, id, reason).1.Some?
    case Sweep(now) => Overdue(s.pending, now) != {}
    case DropRule(_) => false
    case DropTask(_) => true
  }

  predicate Possible(v: Service, m: Move) {
    m.Does? ==> Enabled(v.memory, m.op)
  }

  predicate Saves(v: Service, m: Move) {
    m.Does? && m.saved && Tries(v.memory, m.op)
  }

  function After(v: Service, m: Move): Service
    requires Possible(v, m)
  {
    match m
    case Does(op, saved) =>
      var s := Step(v.memory, op);
      Service(s, if Saves(v, m) then s else v.disk)
    case Restarts => Service(v.disk, v.disk)
  }

  predicate IsLife(states: seq<Service>, moves: seq<Move>) {
    && |states| == |moves| + 1
    && states[0] == NEW
    && forall i :: 0 <= i < |moves| ==> Possible(states[i], moves[i]) && states[i + 1] == After(states[i], moves[i])
  }

  // ---- Identifiers ----

  function Given(used: set<string>, m: Move): set<string> {
    if m.Does? then UsedAfter(used, m.op) else used
  }

  /** The identifiers requests got, in all the runs of the service. */
  function Named(moves: seq<Move>): set<string> {
    if moves == [] then {} else Given(Named(moves[..|moves| - 1]), moves[|moves| - 1])
  }

  predicate NewNames(moves: seq<Move>) {
    forall i :: 0 <= i < |moves| && moves[i].Does? && moves[i].op.Ask? ==> moves[i].op.id !in Named(moves[..i])
  }

  lemma NamedGrows(moves: seq<Move>, n: nat)
    requires n < |moves|
    ensures Named(moves[..n + 1]) == Given(Named(moves[..n]), moves[n])
  {
    assert moves[..n + 1][..n] == moves[..n];
  }

  lemma SoundWithMore(s: State, used: set<string>, m: Move)
    requires Sound(s, used)
    ensures Sound(s, Given(used, m))
  {
  }

  lemma {:induction false} LifeKeepsSound(states: seq<Service>, moves: seq<Move>, n: nat)
    requires IsLife(states, moves) && NewNames(moves) && n <= |moves|
    ensures Sound(states[n].memory, Named(moves[..n])) && Sound(states[n].disk, Named(moves[..n]))
  {
    hide Step; hide Enabled; hide Sound;
    if n == 0 {
      assert moves[..0] == [];
      NothingIsSound();
    } else {
      LifeKeepsSound(states, moves, n - 1);
      NamedGrows(moves, n - 1);
      var m, used := moves[n - 1], Named(moves[..n - 1]);
      SoundWithMore(states[n - 1].disk, used, m);
      if m.Does? { StepKeepsSound(states[n - 1].memory, used, m.op); }
    }
  }

  lemma NothingIsSound()
    ensures Sound(EMPTY, {})
  {
  }

  // ---- What a restart brings back ----

  /** No save succeeds in these moves, and the service does not restart. */
  predicate Unsaved(states: seq<Service>, moves: seq<Move>, i: nat, j: nat)
    requires i <= j <= |moves| < |states|
  {
    forall k :: i <= k < j ==> !Saves(states[k], moves[k])
  }

  predicate OneProcess(moves: seq<Move>, i: nat, j: nat)
    requires i <= j <= |moves|
  {
    forall k :: i <= k < j ==> moves[k].Does?
  }

  /** A decision that left the queue in memory, consumed or forgotten, is in the saved copy later in the
      same run exactly when it was there and no save succeeded since. That copy is what a restart loads. */
  lemma {:induction false} BackIff(states: seq<Service>, moves: seq<Move>, i: nat, j: nat, id: string)
    requires IsLife(states, moves) && NewNames(moves) && i < j <= |moves| && OneProcess(moves, i, j)
    requires id in states[i].memory.once && id !in states[i + 1].memory.once
    ensures id !in states[j].memory.once && id !in states[j].memory.pending
    ensures id in states[j].disk.once <==> id in states[i].disk.once && Unsaved(states, moves, i, j)
  {
    hide Step; hide Enabled; hide Tries;
    LifeKeepsSound(states, moves, i);
    if j == i + 1 {
      LeavesAtOnce(states[i].memory, moves[i].op, id);
    } else {
      BackIff(states, moves, i, j - 1, id);
      NamedStay(moves, i, j - 1);
      StepLeavesGone(states[j - 1].memory, moves[j - 1].op, id);
    }
  }

  /** What leaves the decisions is not pending either. */
  lemma LeavesAtOnce(s: State, op: Op, id: string)
    requires Enabled(s, op) && s.pending.Keys !! s.resolved.Keys && id in s.once && id in s.resolved
    requires id !in Step(s, op).once
    ensures id !in Step(s, op).pending
  {
  }

  lemma {:induction false} NamedStay(moves: seq<Move>, i: nat, j: nat)
    requires i <= j <= |moves|
    ensures Named(moves[..i]) <= Named(moves[..j])
  {
    if i < j {
      NamedStay(moves, i, j - 1);
      NamedGrows(moves, j - 1);
    }
  }

  // ---- Paying across restarts ----

  /** An irreversible request on this call is allowed at once. */
  predicate Allowed(v: Service, m: Move, call: Call)
    requires Possible(v, m)
  {
    m.Does? && AllowsAtOnce(v.memory, m.op, call)
  }

  /** A human gives a one-time permission on this call. */
  predicate Gives(v: Service, m: Move, call: Call) {
    m.Does? && (GivesOnce(v.memory, m.op, call, true) || GivesOnce(v.memory, m.op, call, false))
  }

  /** The decision an irreversible request allowed at once consumes. */
  lemma ConsumesPick(v: Service, m: Move, call: Call)
    requires Possible(v, m) && Allowed(v, m, call)
    ensures m.op.pick.Some? && m.op.pick.value in Permissions(v.memory, call)
    ensures After(v, m).memory == v.memory.(once := v.memory.once - {m.op.pick.value})
  {
    IrreversibleConsumesOnePermission(v.memory, m.op, call);
  }

  function Permissions(s: State, call: Call): set<string> {
    set id <- s.once | CallOf(s.once[id].request) == call && s.once[id].state == Resolved(Allow)
  }

  function AllowedCount(states: seq<Service>, moves: seq<Move>, call: Call, n: nat): nat
    requires IsLife(states, moves) && n <= |moves|
  {
    if n == 0 then 0
    else AllowedCount(states, moves, call, n - 1) + if Allowed(states[n - 1], moves[n - 1], call) then 1 else 0
  }

  function GivenCount(states: seq<Service>, moves: seq<Move>, call: Call, n: nat): nat
    requires IsLife(states, moves) && n <= |moves|
  {
    if n == 0 then 0
    else GivenCount(states, moves, call, n - 1) + if Gives(states[n - 1], moves[n - 1], call) then 1 else 0
  }

  /** The permissions consumed so far, in all the runs. */
  function Spent(states: seq<Service>, moves: seq<Move>, call: Call, n: nat): set<string>
    requires IsLife(states, moves) && n <= |moves|
  {
    if n == 0 then {}
    else
      var before := Spent(states, moves, call, n - 1);
      if Allowed(states[n - 1], moves[n - 1], call) && moves[n - 1].op.pick.Some?
      then before + {moves[n - 1].op.pick.value} else before
  }

  /** A permission consumed before is consumed again. */
  predicate PaysAgain(states: seq<Service>, moves: seq<Move>, call: Call, i: nat)
    requires IsLife(states, moves) && i < |moves|
  {
    && Allowed(states[i], moves[i], call)
    && moves[i].op.pick.Some? && moves[i].op.pick.value in Spent(states, moves, call, i)
  }

  function AgainCount(states: seq<Service>, moves: seq<Move>, call: Call, n: nat): nat
    requires IsLife(states, moves) && n <= |moves|
  {
    if n == 0 then 0
    else AgainCount(states, moves, call, n - 1) + if PaysAgain(states, moves, call, n - 1) then 1 else 0
  }

  /** The identifiers a one-time permission was given for. */
  function GivenFor(states: seq<Service>, moves: seq<Move>, call: Call, n: nat): set<string>
    requires IsLife(states, moves) && n <= |moves|
  {
    if n == 0 then {}
    else
      var before := GivenFor(states, moves, call, n - 1);
      if Gives(states[n - 1], moves[n - 1], call) then before + {moves[n - 1].op.id} else before
  }

  lemma OneMore(states: seq<Service>, moves: seq<Move>, call: Call, n: nat)
    requires IsLife(states, moves) && n < |moves|
    ensures
      var spent, allowed := Spent(states, moves, call, n), Allowed(states[n], moves[n], call);
      var again := allowed && moves[n].op.pick.Some? && moves[n].op.pick.value in spent;
      && (allowed ==> moves[n].op.pick.Some?)
      && Spent(states, moves, call, n + 1) == (if allowed then spent + {moves[n].op.pick.value} else spent)
      && AllowedCount(states, moves, call, n + 1) == AllowedCount(states, moves, call, n) + (if allowed then 1 else 0)
      && AgainCount(states, moves, call, n + 1) == AgainCount(states, moves, call, n) + (if again then 1 else 0)
  {
    hide Allowed; hide Permissions; hide After;
    if Allowed(states[n], moves[n], call) { ConsumesPick(states[n], moves[n], call); }
  }

  lemma {:induction false} AllowedAreSpent(states: seq<Service>, moves: seq<Move>, call: Call, n: nat)
    requires IsLife(states, moves) && n <= |moves|
    ensures AllowedCount(states, moves, call, n) ==
            |Spent(states, moves, call, n)| + AgainCount(states, moves, call, n)
  {
    if n > 0 {
      AllowedAreSpent(states, moves, call, n - 1);
      OneMore(states, moves, call, n - 1);
      hide *;
      LifeStep(states, moves, n - 1);
      if Allowed(states[n - 1], moves[n - 1], call) {
        var spent, k := Spent(states, moves, call, n - 1), moves[n - 1].op.pick.value;
        if k in spent { assert spent + {k} == spent; }
      }
    }
  }

  lemma LifeStep(states: seq<Service>, moves: seq<Move>, n: nat)
    requires IsLife(states, moves) && n < |moves|
    ensures |states| == |moves| + 1 && states[0] == NEW
    ensures Possible(states[n], moves[n]) && states[n + 1] == After(states[n], moves[n])
  {
  }

  lemma StepPermissions(s: State, op: Op, call: Call)
    requires Enabled(s, op)
    ensures forall id :: id in Permissions(Step(s, op), call) ==>
              id in Permissions(s, call) || (Gives(Service(s, s), Does(op, true), call) && id == op.id)
  {
    match op
    case Decide(id, ruling, scope, now, ruleId) =>
      var s' := ResolveStep(s, id, ruling, scope, now, ruleId).0;
      if id in s.pending {
        assert s'.once == s.once || s'.once == s.once[id := s.pending[id].(state := Resolved(ruling))];
      }
    case _ =>
      assert forall id <- Step(s, op).once :: id in s.once && Step(s, op).once[id] == s.once[id];
  }

  lemma {:induction false} PermissionsWereGiven(states: seq<Service>, moves: seq<Move>, call: Call, n: nat)
    requires IsLife(states, moves) && n <= |moves|
    ensures Permissions(states[n].memory, call) <= GivenFor(states, moves, call, n)
    ensures Permissions(states[n].disk, call) <= GivenFor(states, moves, call, n)
    ensures Spent(states, moves, call, n) <= GivenFor(states, moves, call, n)
    ensures |GivenFor(states, moves, call, n)| <= GivenCount(states, moves, call, n)
  {
    hide Step; hide Enabled; hide AllowsAtOnce; hide GivesOnce; hide Tries; hide Permissions;
    if n == 0 {
      NothingGiven(call);
    } else {
      var v, m := states[n - 1], moves[n - 1];
      PermissionsWereGiven(states, moves, call, n - 1);
      if m.Does? { StepPermissions(v.memory, m.op, call); }
      if Allowed(v, m, call) { ConsumesPick(v, m, call); }
    }
  }

  lemma NothingGiven(call: Call)
    ensures Permissions(EMPTY, call) == {}
  {
  }

  /** In every life of the service, irreversible requests allowed at once on a call never outnumber the
      one-time permissions a human gave on it plus the times a spent one was consumed again. */
  lemma PaidForOrAgain(states: seq<Service>, moves: seq<Move>, call: Call)
    requires IsLife(states, moves)
    ensures AllowedCount(states, moves, call, |moves|)
            <= GivenCount(states, moves, call, |moves|) + AgainCount(states, moves, call, |moves|)
  {
    AllowedAreSpent(states, moves, call, |moves|);
    PermissionsWereGiven(states, moves, call, |moves|);
    SubsetSize(Spent(states, moves, call, |moves|), GivenFor(states, moves, call, |moves|));
  }

  // ---- When nothing is paid twice ----

  /** The last save tried in the present run failed. */
  predicate Late(states: seq<Service>, moves: seq<Move>, n: nat)
    requires n <= |moves| < |states|
  {
    n > 0 &&
    match moves[n - 1]
    case Restarts => false
    case Does(op, saved) => if Tries(states[n - 1].memory, op) then !saved else Late(states, moves, n - 1)
  }

  /** The service never restarts on a save that failed. */
  predicate NeverRestartsLate(states: seq<Service>, moves: seq<Move>)
    requires |moves| < |states|
  {
    forall i :: 0 <= i < |moves| && moves[i].Restarts? ==> !Late(states, moves, i)
  }

  /** None of these is kept or waiting. */
  predicate GoneFrom(s: State, ids: set<string>) {
    s.once.Keys !! ids && s.pending.Keys !! ids
  }

  lemma StepLeavesAllGone(s: State, used: set<string>, op: Op, ids: set<string>)
    requires Sound(s, used) && Enabled(s, op) && ids <= used && GoneFrom(s, ids)
    requires op.Ask? ==> op.id !in used
    ensures GoneFrom(Step(s, op), ids)
  {
    hide Step; hide Enabled; hide Sound;
    forall id | id in ids ensures id !in Step(s, op).once && id !in Step(s, op).pending {
      StepLeavesGone(s, op, id);
    }
  }

  /** What is spent is gone from memory, and from the disk unless the last save failed. */
  lemma {:induction false} SpentAreGone(states: seq<Service>, moves: seq<Move>, call: Call, n: nat)
    requires IsLife(states, moves) && NewNames(moves) && NeverRestartsLate(states, moves) && n <= |moves|
    ensures Spent(states, moves, call, n) <= Named(moves[..n])
    ensures GoneFrom(states[n].memory, Spent(states, moves, call, n))
    ensures !Late(states, moves, n) ==> GoneFrom(states[n].disk, Spent(states, moves, call, n))
  {
    hide Step; hide Enabled; hide Sound; hide AllowsAtOnce; hide Tries; hide Permissions;
    if n > 0 {
      var v, m, spent, used := states[n - 1], moves[n - 1], Spent(states, moves, call, n - 1), Named(moves[..n - 1]);
      SpentAreGone(states, moves, call, n - 1);
      NamedGrows(moves, n - 1);
      LifeKeepsSound(states, moves, n - 1);
      if m.Does? {
        StepLeavesAllGone(v.memory, used, m.op, spent);
        AskIsSaved(v.memory, m.op);
        if Allowed(v, m, call) { SpendsOne(v, m, call, used); }
      }
    }
  }

  lemma AskIsSaved(s: State, op: Op)
    ensures op.Ask? ==> Tries(s, op)
  {
  }

  lemma SpendsOne(v: Service, m: Move, call: Call, used: set<string>)
    requires Possible(v, m) && Allowed(v, m, call) && Sound(v.memory, used)
    ensures m.op.Ask? && m.op.pick.Some? && m.op.pick.value in used
    ensures GoneFrom(After(v, m).memory, {m.op.pick.value})
  {
    ConsumesPick(v, m, call);
  }

  lemma {:induction false} NothingPaidAgain(states: seq<Service>, moves: seq<Move>, call: Call, n: nat)
    requires IsLife(states, moves) && NewNames(moves) && NeverRestartsLate(states, moves) && n <= |moves|
    ensures AgainCount(states, moves, call, n) == 0
  {
    hide Step; hide Enabled; hide Tries; hide Late; hide AllowsAtOnce;
    if n > 0 {
      NothingPaidAgain(states, moves, call, n - 1);
      SpentAreGone(states, moves, call, n - 1);
      if Allowed(states[n - 1], moves[n - 1], call) { ConsumesPick(states[n - 1], moves[n - 1], call); }
    }
  }

  /** If the service never restarts on a save that failed, then over all its runs irreversible requests
      allowed at once never outnumber the one-time permissions a human gave on the call. */
  lemma PaidForAcrossRestarts(states: seq<Service>, moves: seq<Move>, call: Call)
    requires IsLife(states, moves) && NewNames(moves) && NeverRestartsLate(states, moves)
    ensures AllowedCount(states, moves, call, |moves|) <= GivenCount(states, moves, call, |moves|)
  {
    PaidForOrAgain(states, moves, call);
    NothingPaidAgain(states, moves, call, |moves|);
  }

  /** A request asked, allowed once, used on a save that fails, and used again after a restart. */
  function Twice(r: Request): seq<Move> {
    [ Does(Ask(r, "a", 0, None), true),
      Does(Decide("a", Allow, Once, 1, "x"), true),
      Does(Ask(r, "b", 2, Some("a")), false),
      Restarts,
      Does(Ask(r, "c", 3, Some("a")), true) ]
  }

  function Asked(r: Request): State { EMPTY.(pending := map["a" := Fresh(r, "a", 0)]) }

  function Kept(r: Request): map<string, Approval> { map["a" := Fresh(r, "a", 0).(state := Resolved(Allow))] }

  function Decided(r: Request): State { State(map[], [], Kept(r), Kept(r)) }

  function Consumed(r: Request): State { State(map[], [], Kept(r), map[]) }

  lemma AskingQueues(r: Request)
    ensures
      var op := Ask(r, "a", 0, None);
      && Enabled(EMPTY, op) && Step(EMPTY, op) == Asked(r)
      && !AllowsAtOnce(EMPTY, op, CallOf(r)) && forall b :: !GivesOnce(EMPTY, op, CallOf(r), b)
  {
  }

  lemma DecidingKeeps(r: Request)
    requires r.irreversible
    ensures
      var op := Decide("a", Allow, Once, 1, "x");
      && Enabled(Asked(r), op) && Step(Asked(r), op) == Decided(r) && Tries(Asked(r), op)
      && GivesOnce(Asked(r), op, CallOf(r), true) && !AllowsAtOnce(Asked(r), op, CallOf(r))
  {
    assert Asked(r).pending - {"a"} == map[];
  }

  lemma AskingConsumes(r: Request, id: string, now: Time)
    requires r.irreversible
    ensures
      var op := Ask(r, id, now, Some("a"));
      && Enabled(Decided(r), op) && Step(Decided(r), op) == Consumed(r)
      && AllowsAtOnce(Decided(r), op, CallOf(r)) && forall b :: !GivesOnce(Decided(r), op, CallOf(r), b)
  {
    assert Kept(r) - {"a"} == map[];
  }

  lemma NamedTwice(r: Request)
    ensures NewNames(Twice(r))
  {
    var moves := Twice(r);
    assert moves[..0] == [];
    NamedGrows(moves, 0);
    NamedGrows(moves, 1);
    NamedGrows(moves, 2);
    NamedGrows(moves, 3);
    assert Named(moves[..2]) == {"a"} && Named(moves[..4]) == {"a", "b"};
  }

  function TwiceStates(r: Request): seq<Service> {
    [ NEW, Service(Asked(r), Asked(r)), Service(Decided(r), Decided(r)), Service(Consumed(r), Decided(r)),
      Service(Decided(r), Decided(r)), Service(Consumed(r), Consumed(r)) ]
  }

  lemma TwiceIsLife(r: Request)
    requires r.irreversible
    ensures IsLife(TwiceStates(r), Twice(r))
  {
    hide Enabled; hide Step; hide Tries;
    var states, moves := TwiceStates(r), Twice(r);
    AskingQueues(r);
    AskIsSaved(EMPTY, moves[0].op);
    DecidingKeeps(r);
    AskingConsumes(r, "b", 2);
    AskingConsumes(r, "c", 3);
    AskIsSaved(Decided(r), moves[4].op);
    assert states[1] == After(states[0], moves[0]);
    assert states[2] == After(states[1], moves[1]);
    assert states[3] == After(states[2], moves[2]);
    assert states[4] == After(states[3], moves[3]);
    assert states[5] == After(states[4], moves[4]);
    forall i | 0 <= i < |moves| ensures Possible(states[i], moves[i]) && states[i + 1] == After(states[i], moves[i]) {
      assert i == 0 || i == 1 || i == 2 || i == 3 || i == 4;
    }
  }

  /** One failed save before a restart is enough: for every irreversible request, the only permission
      given on its call is consumed twice. */
  lemma FailedSavePaysTwice(r: Request) returns (states: seq<Service>)
    requires r.irreversible
    ensures IsLife(states, Twice(r)) && NewNames(Twice(r))
    ensures GivenCount(states, Twice(r), CallOf(r), 5) == 1
    ensures AllowedCount(states, Twice(r), CallOf(r), 5) == 2
  {
    hide Enabled; hide Step; hide AllowsAtOnce; hide GivesOnce; hide Tries; hide NewNames; hide IsLife;
    states := TwiceStates(r);
    var moves, call := Twice(r), CallOf(r);
    TwiceIsLife(r);
    NamedTwice(r);
    AskingQueues(r);
    DecidingKeeps(r);
    AskingConsumes(r, "b", 2);
    AskingConsumes(r, "c", 3);
    forall i: nat | i < 5 ensures Possible(states[i], moves[i]) { LifeStep(states, moves, i); }
    assert !Allowed(states[0], moves[0], call) && !Gives(states[0], moves[0], call);
    assert !Allowed(states[1], moves[1], call) && Gives(states[1], moves[1], call);
    assert Allowed(states[2], moves[2], call) && !Gives(states[2], moves[2], call);
    assert !Allowed(states[3], moves[3], call) && !Gives(states[3], moves[3], call);
    assert Allowed(states[4], moves[4], call) && !Gives(states[4], moves[4], call);
    assert GivenCount(states, moves, call, 1) == 0 && AllowedCount(states, moves, call, 1) == 0;
    assert GivenCount(states, moves, call, 2) == 1 && AllowedCount(states, moves, call, 2) == 0;
    assert GivenCount(states, moves, call, 3) == 1 && AllowedCount(states, moves, call, 3) == 1;
    assert GivenCount(states, moves, call, 4) == 1 && AllowedCount(states, moves, call, 4) == 1;
  }
}
