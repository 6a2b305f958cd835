/** Proof of presence: an approval code, a lock after too many wrong ones, and short-lived tickets. */
module Presence {
  import opened Prelude

  const MIN_LENGTH: nat := 6
  const MAX_FAILURES: nat := 5
  const LOCK: int := 300 * SECOND
  const TICKET_LIFE: int := 600 * SECOND

  datatype Refusal =
    | NotDefined
    | Locked(seconds: int)
    | Wrong(left: nat)
    | InvalidTicket
    | TooShort
    | OldCodeRequired
    | Storage

  datatype Ticket = Ticket(uid: nat, end: Time)

  /** `code` is the current code; only its imprint is stored, which no other code matches. */
  datatype State = State(code: Option<string>, failures: nat, lock: Option<Time>, tickets: map<string, Ticket>)

  function LockLeft(lock: Option<Time>, now: Time): Option<int> {
    if lock.Some? && lock.value > now then Some(Max(1, (lock.value - now) / SECOND)) else None
  }

  /** A code is compared with the imprint: one is defined and no lock holds. */
  predicate Compares(s: State, now: Time) {
    s.code.Some? && LockLeft(s.lock, now).None?
  }

  function CompareStep(s: State, code: string, now: Time): (State, Option<Refusal>) {
    if s.code.None? then (s, Some(NotDefined))
    else if LockLeft(s.lock, now).Some? then (s, Some(Locked(LockLeft(s.lock, now).value)))
    else if s.code.value == code then (s.(failures := 0, lock := None), None)
    else if s.failures + 1 >= MAX_FAILURES then
      (s.(failures := 0, lock := Some(now + LOCK)), Some(Locked(LOCK / SECOND)))
    else (s.(failures := s.failures + 1), Some(Wrong(MAX_FAILURES - (s.failures + 1))))
  }

  function Current(tickets: map<string, Ticket>, now: Time): map<string, Ticket> {
    map t | t in tickets && tickets[t].end > now :: tickets[t]
  }

  /** `ticket` is the random ticket the service draws. */
  function ProveStep(s: State, uid: nat, code: string, ticket: string, now: Time): (State, Option<Refusal>) {
    var (s', refusal) := CompareStep(s, code, now);
    if refusal.Some? then (s', refusal)
    else (s'.(tickets := Current(s'.tickets, now)[ticket := Ticket(uid, now + TICKET_LIFE)]), None)
  }

  function ValidateStep(s: State, uid: nat, ticket: string, now: Time): (State, Option<Refusal>) {
    var s' := s.(tickets := Current(s.tickets, now));
    (s', if ticket in s'.tickets && s'.tickets[ticket].uid == uid then None else Some(InvalidTicket))
  }

  /** `stored` says whether the new imprint could be written. */
  function DefineStep(s: State, code: string, old_: Option<string>, admin: bool, stored: bool,
                      now: Time): (State, Option<Refusal>)
  {
    if |code| < MIN_LENGTH then (s, Some(TooShort))
    else if s.code.Some? && !admin && old_.None? then (s, Some(OldCodeRequired))
    else
      var (s', refusal) :=
        if s.code.Some? && !admin then CompareStep(s, old_.value, now) else (s, None);
      if refusal.Some? then (s', refusal)
      else if !stored then (s', Some(Storage))
      else (State(Some(code), 0, None, map[]), None)
  }

  class Proof {
    var code: Option<string>
    var failures: nat
    var lock: Option<Time>
    var tickets: map<string, Ticket>

    ghost function View(): State
      reads this
    {
      State(code, failures, lock, tickets)
    }

    constructor (code: Option<string>)
      ensures View() == State(code, 0, None, map[])
    {
      this.code := code;
      failures := 0;
      lock := None;
      tickets := map[];
    }

    method Compare(candidate: string, now: Time) returns (refusal: Option<Refusal>)
      modifies this`failures, this`lock
      ensures (View(), refusal) == CompareStep(old(View()), candidate, now)
    {
      if code.None? { return Some(NotDefined); }
      var left := LockLeft(lock, now);
      if left.Some? { return Some(Locked(left.value)); }
      if code.value == candidate {
        failures := 0;
        lock := None;
        return None;
      }
      failures := failures + 1;
      if failures >= MAX_FAILURES {
        failures := 0;
        lock := Some(now + LOCK);
        return Some(Locked(LOCK / SECOND));
      }
      refusal := Some(Wrong(MAX_FAILURES - failures));
    }

    method Prove(uid: nat, candidate: string, ticket: string, now: Time) returns (refusal: Option<Refusal>)
      modifies this
      ensures (View(), refusal) == ProveStep(old(View()), uid, candidate, ticket, now)
    {
      refusal := Compare(candidate, now);
      if refusal.Some? { return; }
      tickets := Current(tickets, now);
      tickets := tickets[ticket := Ticket(uid, now + TICKET_LIFE)];
    }

    method Validate(uid: nat, ticket: string, now: Time) returns (refusal: Option<Refusal>)
      modifies this`tickets
      ensures (View(), refusal) == ValidateStep(old(View()), uid, ticket, now)
    {
      tickets := Current(tickets, now);
      refusal := if ticket in tickets && tickets[ticket].uid == uid then None else Some(InvalidTicket);
    }

    method Define(newCode: string, old_: Option<string>, admin: bool, stored: bool, now: Time)
      returns (refusal: Option<Refusal>)
      modifies this
      ensures (View(), refusal) == DefineStep(old(View()), newCode, old_, admin, stored, now)
    {
      if |newCode| < MIN_LENGTH { return Some(TooShort); }
      if code.Some? && !admin {
        if old_.None? { return Some(OldCodeRequired); }
        refusal := Compare(old_.value, now);
        if refusal.Some? { return; }
      }
      if !stored { return Some(Storage); }
      code := Some(newCode);
      tickets := map[];
      failures := 0;
      lock := None;
      refusal := None;
    }
  }

  // ---- What is refused ----

  predicate Free(lock: Option<Time>, now: Time) { lock.Some? ==> lock.value <= now }

  /** A ticket is drawn exactly on the current code, while nothing is locked. */
  lemma ProvesIff(s: State, uid: nat, code: string, ticket: string, now: Time)
    ensures ProveStep(s, uid, code, ticket, now).1.None? <==> s.code == Some(code) && Free(s.lock, now)
    ensures s.code.Some? && !Free(s.lock, now) ==> ProveStep(s, uid, code, ticket, now).0 == s
  {
  }

  /** The code changes exactly for a new one of six characters at least, which can be stored, given by an
      administrator, or with the current code while nothing is locked, or as the first one. It starts
      afresh then: no failure, no lock, no ticket. Refused, it and the tickets are as they were. */
  lemma ChangesIff(s: State, code: string, old_: Option<string>, admin: bool, stored: bool, now: Time)
    ensures
      var (s', refusal) := DefineStep(s, code, old_, admin, stored, now);
      && (refusal.None? <==>
            && |code| >= 6 && stored
            && (s.code.None? || admin || (old_ == s.code && Free(s.lock, now))))
      && (if refusal.None? then s' == State(Some(code), 0, None, map[])
          else s'.code == s.code && s'.tickets == s.tickets)
  {
  }

  /** The state after `k` wrong tries of this code. */
  function Wrongly(s: State, code: string, now: Time, k: nat): State {
    if k == 0 then s else CompareStep(Wrongly(s, code, now, k - 1), code, now).0
  }

  lemma {:induction false} WrongTries(s: State, code: string, now: Time, k: nat)
    requires s.code.Some? && s.code.value != code && Free(s.lock, now) && s.failures + k <= 5
    ensures
      var s' := Wrongly(s, code, now, k);
      s' == if k > 0 && s.failures + k == 5 then s.(failures := 0, lock := Some(now + 300 * SECOND))
            else s.(failures := s.failures + k)
  {
    if k > 0 { WrongTries(s, code, now, k - 1); }
  }

  /** A wrong code is told how many more are left: that many do not lock, one more does, five minutes. */
  lemma WrongTellsWhatIsLeft(s: State, code: string, now: Time, left: nat)
    requires CompareStep(s, code, now).1 == Some(Wrong(left)) && s.failures < 5
    ensures forall k: nat :: k < left + 1 ==> Free(Wrongly(s, code, now, k).lock, now)
    ensures Wrongly(s, code, now, left + 1).lock == Some(now + 300 * SECOND)
    ensures CompareStep(Wrongly(s, code, now, left), code, now).1 == Some(Locked(300))
  {
    forall k: nat | k < left + 1 ensures Free(Wrongly(s, code, now, k).lock, now) {
      WrongTries(s, code, now, k);
    }
    WrongTries(s, code, now, left);
    WrongTries(s, code, now, left + 1);
  }

  /** While locked one is told the whole seconds left, one at least. */
  lemma LockedTellsTheTime(s: State, code: string, now: Time, seconds: int)
    requires s.code.Some? && !Free(s.lock, now)
    ensures CompareStep(s, code, now) == (s, Some(Locked(seconds))) <==>
              && seconds >= 1 && s.lock.value < now + (seconds + 1) * SECOND
              && (seconds > 1 ==> now + seconds * SECOND <= s.lock.value)
  {
    var left := s.lock.value - now;
    assert left == left / SECOND * SECOND + left % SECOND;
  }

  // ---- Runs ----

  datatype Op =
    | Prove(uid: nat, code: string, ticket: string, now: Time)
    | Validate(uid: nat, ticket: string, now: Time)
    | Define(code: string, old_: Option<string>, admin: bool, stored: bool, now: Time)

  function Outcome(s: State, op: Op): (State, Option<Refusal>) {
    match op
    case Prove(uid, code, ticket, now) => ProveStep(s, uid, code, ticket, now)
    case Validate(uid, ticket, now) => ValidateStep(s, uid, ticket, now)
    case Define(code, old_, admin, stored, now) => DefineStep(s, code, old_, admin, stored, now)
  }

  /** The code an operation presents for comparison, if it gets that far. */
  function Presented(s: State, op: Op): Option<string> {
    match op
    case Prove(_, code, _, _) => Some(code)
    case Validate(_, _, _) => None
    case Define(code, old_, admin, _, _) =>
      if |code| >= MIN_LENGTH && s.code.Some? && !admin then old_ else None
  }

  /** The operation compares a code with the imprint. */
  predicate Tries(s: State, op: Op) {
    Presented(s, op).Some? && Compares(s, op.now)
  }

  predicate RightCode(s: State, op: Op) {
    Tries(s, op) && s.code == Presented(s, op)
  }

  predicate Redefines(s: State, op: Op) {
    op.Define? && Outcome(s, op).1.None?
  }

  /** States of a run with a clock that never goes back, without a right code or a redefinition. */
  ghost predicate GuessingRun(states: seq<State>, ops: seq<Op>) {
    && |states| == |ops| + 1
    && (forall i :: 0 <= i < |ops| ==> states[i + 1] == Outcome(states[i], ops[i]).0)
    && (forall i :: 0 <= i < |ops| ==> !RightCode(states[i], ops[i]) && !Redefines(states[i], ops[i]))
    && (forall i :: 0 < i < |ops| ==> ops[i - 1].now <= ops[i].now)
  }

  function Tried(states: seq<State>, ops: seq<Op>, n: nat): nat
    requires |states| == |ops| + 1 && n <= |ops|
  {
    if n == 0 then 0 else Tried(states, ops, n - 1) + if Tries(states[n - 1], ops[n - 1]) then 1 else 0
  }

  /** What a guess leaves behind: the failures since the last lock, and the lock. */
  lemma StepCounts(s: State, op: Op)
    requires s.failures < MAX_FAILURES && !RightCode(s, op) && !Redefines(s, op)
    ensures
      var s' := Outcome(s, op).0;
      && s'.code == s.code
      && s'.failures < MAX_FAILURES
      && (!Tries(s, op) ==> s'.failures == s.failures && s'.lock == s.lock)
      && (Tries(s, op) ==>
            || (s'.failures == s.failures + 1 && s'.lock == s.lock)
            || (s.failures == MAX_FAILURES - 1 && s'.failures == 0 && s'.lock == Some(op.now + LOCK)))
  {
  }

  /** After `locks` locks, the last one ends no earlier than `locks` lock times after the start. */
  lemma {:induction false} GuessesCounted(states: seq<State>, ops: seq<Op>, start: Time, n: nat) returns (locks: nat)
    requires GuessingRun(states, ops) && n <= |ops|
    requires states[0].failures == 0 && LockLeft(states[0].lock, start).None?
    requires |ops| > 0 ==> start <= ops[0].now
    ensures states[n].failures < MAX_FAILURES
    ensures Tried(states, ops, n) == MAX_FAILURES * locks + states[n].failures
    ensures locks == 0 ==> states[n].lock == states[0].lock
    ensures locks > 0 ==> states[n].lock.Some? && states[n].lock.value >= start + LOCK * locks
    ensures n > 0 ==> locks == 0 || start + LOCK * (locks - 1) <= ops[n - 1].now
    ensures n > 0 ==> start <= ops[n - 1].now
    ensures n > 0 && states[n].failures > 0 ==> start + LOCK * locks <= ops[n - 1].now
  {
    if n == 0 {
      locks := 0;
    } else {
      locks := GuessesCounted(states, ops, start, n - 1);
      var s, op := states[n - 1], ops[n - 1];
      StepCounts(s, op);
      if Tries(s, op) && states[n].failures == 0 { locks := locks + 1; }
    }
  }

  lemma RateArithmetic(elapsed: int, locks: nat, failures: nat)
    requires elapsed >= 0 && failures < MAX_FAILURES
    requires failures > 0 ==> LOCK * locks <= elapsed
    requires locks > 0 ==> LOCK * (locks - 1) <= elapsed
    ensures MAX_FAILURES * locks + failures <= MAX_FAILURES * (elapsed / LOCK + 1)
  {
    var q := elapsed / LOCK;
    assert elapsed < LOCK * (q + 1);
    if failures > 0 {
      assert locks < q + 1;
    } else if locks > 0 {
      assert locks - 1 < q + 1;
    }
  }

  /** A guesser who never finds the code compares at most five codes per lock time, plus five. */
  lemma GuessRateBounded(states: seq<State>, ops: seq<Op>, start: Time)
    requires GuessingRun(states, ops) && ops != []
    requires states[0].failures == 0 && LockLeft(states[0].lock, start).None?
    requires start <= ops[0].now
    ensures Tried(states, ops, |ops|) <= 5 * ((ops[|ops| - 1].now - start) / (300 * SECOND) + 1)
    ensures forall i :: 0 <= i < |states| ==> states[i].failures < 5
  {
    forall i | 0 <= i < |states| ensures states[i].failures < MAX_FAILURES {
      var _ := GuessesCounted(states, ops, start, i);
    }
    var locks := GuessesCounted(states, ops, start, |ops|);
    RateArithmetic(ops[|ops| - 1].now - start, locks, states[|ops|].failures);
  }

  // ---- The bound is reached ----

  function Guess(n: nat): Op { Prove(0, "guess!", "ticket", LOCK * (n / MAX_FAILURES)) }

  function GuessState(n: nat): State {
    State(Some("secret"), n % MAX_FAILURES,
          if n < MAX_FAILURES then None else Some(LOCK * (n / MAX_FAILURES)), map[])
  }

  lemma GuessStep(n: nat)
    ensures Outcome(GuessState(n), Guess(n)).0 == GuessState(n + 1)
    ensures Tries(GuessState(n), Guess(n))
    ensures !RightCode(GuessState(n), Guess(n)) && !Redefines(GuessState(n), Guess(n))
  {
    assert "guess!"[0] != "secret"[0];
    var q, r := n / MAX_FAILURES, n % MAX_FAILURES;
    assert r < 4 ==> (n + 1) / MAX_FAILURES == q && (n + 1) % MAX_FAILURES == r + 1;
    assert r == 4 ==> (n + 1) / MAX_FAILURES == q + 1 && (n + 1) % MAX_FAILURES == 0;
  }

  lemma {:induction false} AllTried(states: seq<State>, ops: seq<Op>, n: nat)
    requires |states| == |ops| + 1 && n <= |ops|
    requires forall i :: 0 <= i < |ops| ==> Tries(states[i], ops[i])
    ensures Tried(states, ops, n) == n
  {
    if n > 0 { AllTried(states, ops, n - 1); }
  }

  /** Some guesser reaches the bound, whatever the number of lock times. */
  lemma GuessRateTight(k: nat) returns (states: seq<State>, ops: seq<Op>)
    ensures GuessingRun(states, ops) && ops != []
    ensures states[0].failures == 0 && LockLeft(states[0].lock, 0).None? && ops[0].now == 0
    ensures (ops[|ops| - 1].now - 0) / LOCK == k
    ensures Tried(states, ops, |ops|) == MAX_FAILURES * (k + 1)
  {
    hide Outcome; hide Tries; hide RightCode; hide Redefines; hide Tried; hide Guess; hide GuessState;
    var n := MAX_FAILURES * (k + 1);
    FirstAndLastGuess(k);
    ops := seq(n, i requires 0 <= i < n => Guess(i));
    states := seq(n + 1, i requires 0 <= i <= n => GuessState(i));
    forall i | 0 <= i < n
      ensures states[i + 1] == Outcome(states[i], ops[i]).0
      ensures Tries(states[i], ops[i]) && !RightCode(states[i], ops[i]) && !Redefines(states[i], ops[i])
    {
      GuessStep(i);
    }
    forall i | 0 < i < n ensures ops[i - 1].now <= ops[i].now {
      GuessesGoOn(i);
    }
    AllTried(states, ops, n);
  }

  lemma GuessesGoOn(i: nat)
    requires i > 0
    ensures Guess(i - 1).now <= Guess(i).now
  {
    assert (i - 1) / MAX_FAILURES <= i / MAX_FAILURES;
  }

  lemma FirstAndLastGuess(k: nat)
    ensures Guess(0).now == 0 && Guess(MAX_FAILURES * (k + 1) - 1).now / LOCK == k
    ensures GuessState(0).failures == 0 && GuessState(0).lock.None?
  {
    assert (MAX_FAILURES * (k + 1) - 1) / MAX_FAILURES == k;
    assert LOCK * k / LOCK == k;
  }

  // ---- Tickets ----

  /** Before step `n`, the ticket was drawn for that account at a right code given at `at`, and
      the code was not redefined since. */
  ghost predicate Drawn(states: seq<State>, ops: seq<Op>, ticket: string, uid: nat, at: Time, n: nat)
    requires |states| == |ops| + 1 && n <= |ops|
  {
    exists i :: (&& 0 <= i < n
                 && ops[i].Prove? && ops[i].ticket == ticket && ops[i].uid == uid && ops[i].now == at
                 && RightCode(states[i], ops[i])
                 && forall j :: i < j < n ==> !Redefines(states[j], ops[j]))
  }

  ghost predicate FollowsOutcomes(states: seq<State>, ops: seq<Op>) {
    && |states| == |ops| + 1
    && states[0].tickets == map[]
    && forall i :: 0 <= i < |ops| ==> states[i + 1] == Outcome(states[i], ops[i]).0
  }

  lemma {:induction false} TicketsWereDrawn(states: seq<State>, ops: seq<Op>, n: nat, ticket: string)
    requires FollowsOutcomes(states, ops) && n <= |ops|
    requires ticket in states[n].tickets
    ensures
      var t := states[n].tickets[ticket];
      Drawn(states, ops, ticket, t.uid, t.end - TICKET_LIFE, n)
  {
    var s, op := states[n - 1], ops[n - 1];
    assert states[n - 1 + 1] == Outcome(s, op).0;
    if !(op.Prove? && op.ticket == ticket && RightCode(s, op)) {
      assert ticket in s.tickets && s.tickets[ticket] == states[n].tickets[ticket];
      assert !Redefines(s, op);
      TicketsWereDrawn(states, ops, n - 1, ticket);
    }
  }

  /** A validation succeeds only for the account that gave the right code less than a ticket's life
      before, no redefinition having happened since. */
  lemma ValidTicketMeansRecentCode(states: seq<State>, ops: seq<Op>, n: nat) returns (at: Time)
    requires FollowsOutcomes(states, ops) && n < |ops|
    requires ops[n].Validate? && Outcome(states[n], ops[n]).1.None?
    ensures Drawn(states, ops, ops[n].ticket, ops[n].uid, at, n)
    ensures ops[n].now < at + TICKET_LIFE
  {
    TicketsWereDrawn(states, ops, n, ops[n].ticket);
    at := states[n].tickets[ops[n].ticket].end - TICKET_LIFE;
  }

  /** The clock never goes back. */
  ghost predicate ForwardClock(ops: seq<Op>) {
    forall i, j :: 0 <= i < j < |ops| ==> ops[i].now <= ops[j].now
  }

  /** Step `i` is the last before `n` to have drawn this ticket, with no redefinition of the code since. */
  ghost predicate LastDrawn(states: seq<State>, ops: seq<Op>, ticket: string, i: nat, n: nat)
    requires |states| == |ops| + 1 && n <= |ops|
  {
    && i < n
    && ops[i].Prove? && ops[i].ticket == ticket && RightCode(states[i], ops[i])
    && forall j :: i < j < n ==>
         && !Redefines(states[j], ops[j])
         && !(ops[j].Prove? && ops[j].ticket == ticket && RightCode(states[j], ops[j]))
  }

  /** What one step leaves of a ticket that it neither draws again nor drops by a redefinition. */
  lemma StepKeepsTicket(s: State, op: Op, ticket: string)
    requires !Redefines(s, op) && !(op.Prove? && op.ticket == ticket && RightCode(s, op))
    ensures
      var s' := Outcome(s, op).0;
      && (ticket in s'.tickets ==> ticket in s.tickets && s'.tickets[ticket] == s.tickets[ticket])
      && (ticket in s.tickets && op.now < s.tickets[ticket].end ==> ticket in s'.tickets)
  {
  }

  /** A drawn ticket is held, for the account that drew it, as long as it lives. */
  lemma {:induction false} DrawnTicketIsHeld(
    states: seq<State>, ops: seq<Op>, ticket: string, i: nat, n: nat, now: Time)
    requires FollowsOutcomes(states, ops) && ForwardClock(ops) && n <= |ops|
    requires LastDrawn(states, ops, ticket, i, n)
    requires now < ops[i].now + 600 * SECOND && forall j :: 0 <= j < n ==> ops[j].now <= now
    ensures ticket in states[n].tickets
    ensures states[n].tickets[ticket] == Ticket(ops[i].uid, ops[i].now + 600 * SECOND)
  {
    hide Outcome; hide RightCode; hide Redefines;
    assert states[n - 1 + 1] == Outcome(states[n - 1], ops[n - 1]).0;
    if n == i + 1 {
      RightCodeDraws(states[i], ops[i]);
    } else {
      DrawnTicketIsHeld(states, ops, ticket, i, n - 1, now);
      StepKeepsTicket(states[n - 1], ops[n - 1], ticket);
    }
  }

  lemma RightCodeDraws(s: State, op: Op)
    requires op.Prove? && RightCode(s, op)
    ensures
      var (s', refusal) := Outcome(s, op);
      refusal.None? && op.ticket in s'.tickets && s'.tickets[op.ticket] == Ticket(op.uid, op.now + 600 * SECOND)
  {
  }

  /** A ticket held was drawn, and it is the last drawing that counts. */
  lemma {:induction false} HeldWasLastDrawn(states: seq<State>, ops: seq<Op>, ticket: string, n: nat) returns (i: nat)
    requires FollowsOutcomes(states, ops) && n <= |ops| && ticket in states[n].tickets
    ensures LastDrawn(states, ops, ticket, i, n)
    ensures states[n].tickets[ticket] == Ticket(ops[i].uid, ops[i].now + 600 * SECOND)
  {
    hide Outcome; hide RightCode; hide Redefines;
    var s, op := states[n - 1], ops[n - 1];
    assert states[n - 1 + 1] == Outcome(s, op).0;
    if op.Prove? && op.ticket == ticket && RightCode(s, op) {
      i := n - 1;
      RightCodeDraws(s, op);
    } else {
      RedefinitionDropsTickets(s, op);
      StepKeepsTicket(s, op, ticket);
      i := HeldWasLastDrawn(states, ops, ticket, n - 1);
    }
  }

  lemma RedefinitionDropsTickets(s: State, op: Op)
    ensures Redefines(s, op) ==> Outcome(s, op).0.tickets == map[]
  {
  }

  /** With a clock that never goes back, a ticket is accepted for an account exactly when the last right
      code that drew it was given by that account less than ten minutes before, the code not having been
      redefined since. */
  lemma TicketAcceptedIff(states: seq<State>, ops: seq<Op>, n: nat)
    requires FollowsOutcomes(states, ops) && ForwardClock(ops) && n < |ops| && ops[n].Validate?
    ensures Outcome(states[n], ops[n]).1.None? <==>
              exists i: nat :: LastDrawn(states, ops, ops[n].ticket, i, n)
                && ops[i].uid == ops[n].uid && ops[n].now < ops[i].now + 600 * SECOND
  {
    hide RightCode; hide Redefines; hide Outcome;
    var ticket := ops[n].ticket;
    RefusedIff(states[n], ops[n]);
    if ticket in states[n].tickets && ops[n].now < states[n].tickets[ticket].end {
      var i := HeldWasLastDrawn(states, ops, ticket, n);
    }
    if i: nat :| LastDrawn(states, ops, ticket, i, n)
                && ops[i].uid == ops[n].uid && ops[n].now < ops[i].now + 600 * SECOND {
      DrawnTicketIsHeld(states, ops, ticket, i, n, ops[n].now);
    }
  }

  lemma RefusedIff(s: State, op: Op)
    requires op.Validate?
    ensures Outcome(s, op).1.None? <==>
              op.ticket in s.tickets && op.now < s.tickets[op.ticket].end && s.tickets[op.ticket].uid == op.uid
  {
  }
}
