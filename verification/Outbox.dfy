/** The queue of events agentd keeps until the journal has them, and the journal at the other end. */
module Outbox {
  import opened Prelude
  import opened Ledger
  import opened Store

  const MAX_WAITING: nat := 10_000

  // ---- The queue ----

  /** The queue without what has this key. */
  function Without(queue: seq<Draft>, key: string): seq<Draft> {
    if queue == [] then []
    else
      Without(queue[..|queue| - 1], key)
      + if queue[|queue| - 1].idem == Some(key) then [] else [queue[|queue| - 1]]
  }

  function Waiting(queue: seq<Draft>): seq<Draft> {
    if |queue| >= MAX_WAITING then queue[1..] else queue
  }

  class Queue {
    var journal: seq<Draft>

    constructor ()
      ensures journal == []
    {
      journal := [];
    }

    /** Queues a draft under a new key; the oldest goes when too many wait. */
    method Record(draft: Draft, key: string)
      modifies this
      ensures journal == Waiting(old(journal)) + [draft.(idem := Some(key))]
      ensures |old(journal)| <= MAX_WAITING ==> |journal| <= MAX_WAITING
    {
      if |journal| >= MAX_WAITING {
        journal := journal[1..];
      }
      journal := journal + [draft.(idem := Some(key))];
    }

    /** The journal has the event of this key. */
    method Received(key: string)
      modifies this
      ensures journal == Without(old(journal), key)
    {
      var kept := [];
      for i := 0 to |journal|
        invariant journal == old(journal) && kept == Without(journal[..i], key)
      {
        assert journal[..i + 1][..i] == journal[..i];
        if journal[i].idem != Some(key) { kept := kept + [journal[i]]; }
      }
      assert journal[..|journal|] == journal;
      journal := kept;
    }

    /** What waited before the stop goes before what happened since. */
    method Resume(saved: seq<Draft>)
      modifies this
      ensures journal == saved + old(journal)
    {
      journal := saved + journal;
    }
  }

  lemma {:induction false} WithoutKeeps(queue: seq<Draft>, key: string)
    ensures forall d :: d in Without(queue, key) <==> d in queue && d.idem != Some(key)
    ensures |Without(queue, key)| <= |queue|
  {
    if queue != [] {
      WithoutKeeps(queue[..|queue| - 1], key);
      assert queue == queue[..|queue| - 1] + [queue[|queue| - 1]];
    }
  }

  // ---- The two processes and what is between them ----

  /** `queue` is what agentd holds and `saved` what its state file holds; `sent` are the requests that
      may still arrive, once or more, in any order; `acks` and `refusals` the answers given. The rest is
      history: every draft ever given a key, the keys ever saved, the keys dropped by the bound. */
  datatype State = State(
    queue: seq<Draft>, saved: seq<Draft>, sent: set<Draft>,
    acks: set<string>, refusals: set<string>, journal: Journal,
    born: map<string, Draft>, durable: set<string>, dropped: set<string>)

  datatype Step =
    | Record(draft: Draft, key: string)
    | Save
    | Send(rank: nat)
    | Deliver(request: Draft, at: Time)
    | Acknowledged(key: string)
    | Refused(key: string)
    | RestartAgent
    | RestartLedger
    | Elsewhere(draft: Draft)

  function KeysOf(queue: seq<Draft>): set<string> {
    set d | d in queue && d.idem.Some? :: d.idem.value
  }

  /** Keys are new when given, and no other emitter uses them. */
  ghost predicate Enabled(s: State, step: Step) {
    match step
    case Record(_, key) => key !in s.born && !HasKey(s.journal.log, key)
    case Send(rank) => rank < |s.queue|
    case Deliver(request, _) => request in s.sent
    case Acknowledged(key) => key in s.acks
    case Refused(key) => key in s.refusals
    case Elsewhere(draft) => draft.idem.Some? ==> draft.idem.value !in s.born
    case _ => true
  }

  ghost function Next(hash: Event -> string, s: State, step: Step): State {
    match step
    case Record(draft, key) =>
      var d := draft.(idem := Some(key));
      s.(queue := Waiting(s.queue) + [d], born := s.born[key := d],
         dropped := if |s.queue| >= MAX_WAITING then s.dropped + KeysOf([s.queue[0]]) else s.dropped)
    case Save => s.(saved := s.queue, durable := s.durable + KeysOf(s.queue))
    case Send(rank) => if rank < |s.queue| then s.(sent := s.sent + {s.queue[rank]}) else s
    case Deliver(request, at) => Delivered(hash, s, request, at)
    case Acknowledged(key) => s.(queue := Without(s.queue, key))
    case Refused(key) => s.(queue := Without(s.queue, key))
    case RestartAgent => s.(queue := s.saved + [])
    case RestartLedger => s.(journal := Reopened(s.journal))
    case Elsewhere(draft) => s.(journal := Write(hash, s.journal, draft))
  }

  /** The journal dates what it receives itself, and answers once it has written. */
  ghost function Delivered(hash: Event -> string, s: State, request: Draft, at: Time): State {
    if request.idem.None? then s
    else
      var key := request.idem.value;
      var s' := s.(journal := Write(hash, s.journal, request.(at := at)));
      if HasKey(s.journal.log, key) || Harmless(request.payload)
      then s'.(acks := s.acks + {key})
      else s'.(refusals := s.refusals + {key})
  }

  ghost predicate Initial(s: State) {
    && s.queue == [] && s.saved == [] && s.sent == {} && s.acks == {} && s.refusals == {}
    && s.born == map[] && s.durable == {} && s.dropped == {}
    && KeysOnce(s.journal.log)
  }

  ghost predicate Run(hash: Event -> string, states: seq<State>, steps: seq<Step>) {
    && |states| == |steps| + 1 && Initial(states[0])
    && forall i :: 0 <= i < |steps| ==> Enabled(states[i], steps[i]) && states[i + 1] == Next(hash, states[i], steps[i])
  }

  // ---- What every step keeps ----

  /** A draft carries the key it was born with. */
  predicate Known(born: map<string, Draft>, d: Draft) {
    d.idem.Some? && d.idem.value in born && born[d.idem.value] == d
  }

  /** The event is the one recorded under its key; only the date is the journal's. */
  predicate SameAs(e: Event, d: Draft) {
    && e.task == d.task && e.step == d.step && e.actor == d.actor && e.kind == d.kind
    && e.payload == d.payload && e.idem == d.idem
  }

  /** Nothing is in two places or changed on the way. */
  ghost predicate Faithful(s: State) {
    && (forall d :: d in s.queue ==> Known(s.born, d))
    && (forall d :: d in s.saved ==> Known(s.born, d))
    && (forall d :: d in s.sent ==> Known(s.born, d))
    && KeysOnce(s.journal.log)
    && (forall i :: 0 <= i < |s.journal.log| ==> Genuine(s, s.journal.log[i]))
  }

  predicate Genuine(s: State, e: Event) {
    e.idem.Some? && e.idem.value in s.born ==> SameAs(e, s.born[e.idem.value])
  }

  /** The key's event reached the journal, or was given up loudly. */
  predicate Settled(s: State, key: string) {
    HasKey(s.journal.log, key) || key in s.refusals || key in s.dropped
  }

  /** A saved key stays in the queue and in the state file until it is settled. */
  ghost predicate NothingLost(s: State) {
    && (forall k :: k in s.acks ==> HasKey(s.journal.log, k))
    && (forall k :: k in s.refusals ==> k in s.born && !Harmless(s.born[k].payload) && !HasKey(s.journal.log, k))
    && (forall k :: k in s.durable ==> k in s.born && (k in KeysOf(s.queue) || Settled(s, k)))
    && (forall k :: k in s.durable ==> k in KeysOf(s.saved) || Settled(s, k))
  }

  ghost predicate Inv(s: State) { Faithful(s) && NothingLost(s) }

  lemma WriteGrows(hash: Event -> string, j: Journal, d: Draft)
    ensures
      var log := Write(hash, j, d).log;
      || log == j.log
      || (|log| == |j.log| + 1 && log[..|j.log|] == j.log && SameAs(log[|j.log|], d) && Harmless(d.payload)
          && (d.idem.Some? ==> !HasKey(j.log, d.idem.value)))
    ensures d.idem.Some? && (Harmless(d.payload) || HasKey(j.log, d.idem.value)) ==>
              HasKey(Write(hash, j, d).log, d.idem.value)
    ensures !Harmless(d.payload) ==> Write(hash, j, d).log == j.log
  {
    var log := Write(hash, j, d).log;
    if log != j.log {
      assert log == j.log + [log[|j.log|]];
      if d.idem.Some? { assert log[|j.log|].idem == d.idem; }
    }
  }

  lemma WriteKeepsKeys(hash: Event -> string, j: Journal, d: Draft)
    ensures forall k :: HasKey(j.log, k) ==> HasKey(Write(hash, j, d).log, k)
    ensures forall k :: HasKey(Write(hash, j, d).log, k) ==>
              HasKey(j.log, k) || (d.idem == Some(k) && Harmless(d.payload))
    ensures KeysOnce(j.log) ==> KeysOnce(Write(hash, j, d).log)
  {
    hide Write;
    WriteGrows(hash, j, d);
    var log := Write(hash, j, d).log;
    forall k | HasKey(j.log, k) ensures HasKey(log, k) {
      var i :| 0 <= i < |j.log| && j.log[i].idem == Some(k);
      assert log[i] == log[..|j.log|][i] || log == j.log;
      assert log[i].idem == Some(k);
    }
    forall k | HasKey(log, k) ensures HasKey(j.log, k) || (d.idem == Some(k) && Harmless(d.payload)) {
      var i :| 0 <= i < |log| && log[i].idem == Some(k);
      if i < |j.log| { assert j.log[i] == log[i]; }
    }
    if KeysOnce(j.log) && log != j.log {
      forall i | 0 <= i < |j.log| && j.log[i].idem.Some? ensures d.idem != j.log[i].idem {
        assert HasKey(j.log, j.log[i].idem.value);
      }
      forall i, k | 0 <= i < k < |log| ensures log[i].idem.None? || log[i].idem != log[k].idem {
        assert log[i] == log[..|j.log|][i];
        if k < |j.log| { assert log[k] == log[..|j.log|][k]; }
      }
    }
  }

  // ---- Faithful is kept ----

  lemma WriteKeepsGenuine(hash: Event -> string, s: State, d: Draft)
    requires Faithful(s)
    requires d.idem.Some? && d.idem.value in s.born ==>
               Known(s.born, d) || Known(s.born, d.(at := s.born[d.idem.value].at))
    ensures Faithful(s.(journal := Write(hash, s.journal, d)))
  {
    hide Write;
    WriteGrows(hash, s.journal, d);
    WriteKeepsKeys(hash, s.journal, d);
    var s' := s.(journal := Write(hash, s.journal, d));
    forall i | 0 <= i < |s'.journal.log| ensures Genuine(s', s'.journal.log[i]) {
      if i < |s.journal.log| {
        assert s.journal.log[i] == s'.journal.log[..|s.journal.log|][i] || s'.journal.log == s.journal.log;
        assert Genuine(s, s.journal.log[i]);
      }
    }
  }

  lemma RecordKeepsFaithful(hash: Event -> string, s: State, draft: Draft, key: string)
    requires Faithful(s) && Enabled(s, Record(draft, key))
    ensures Faithful(Next(hash, s, Record(draft, key)))
  {
    var s' := Next(hash, s, Record(draft, key));
    forall d | Known(s.born, d) ensures Known(s'.born, d) {
    }
    forall d | d in s'.queue ensures Known(s'.born, d) {
      assert d in s.queue || d == draft.(idem := Some(key));
    }
    forall i | 0 <= i < |s'.journal.log| ensures Genuine(s', s'.journal.log[i]) {
      assert Genuine(s, s.journal.log[i]);
    }
  }

  lemma QueueKeepsFaithful(s: State, s': State)
    requires Faithful(s) && s'.journal.log == s.journal.log && s'.born == s.born
    requires forall d :: d in s'.queue ==> d in s.queue || d in s.saved
    requires forall d :: d in s'.saved ==> d in s.queue || d in s.saved
    requires forall d :: d in s'.sent ==> d in s.sent || d in s.queue
    ensures Faithful(s')
  {
    forall i | 0 <= i < |s'.journal.log| ensures Genuine(s', s'.journal.log[i]) {
      assert Genuine(s, s.journal.log[i]);
    }
  }

  lemma StepKeepsFaithful(hash: Event -> string, s: State, step: Step)
    requires Faithful(s) && Enabled(s, step)
    ensures Faithful(Next(hash, s, step))
  {
    var s' := Next(hash, s, step);
    match step
    case Record(draft, key) => RecordKeepsFaithful(hash, s, draft, key);
    case Deliver(request, at) =>
      WriteKeepsGenuine(hash, s, request.(at := at));
      QueueKeepsFaithful(s.(journal := s'.journal), s');
    case Elsewhere(draft) => WriteKeepsGenuine(hash, s, draft);
    case Acknowledged(key) =>
      WithoutKeeps(s.queue, key);
      QueueKeepsFaithful(s, s');
    case Refused(key) =>
      WithoutKeeps(s.queue, key);
      QueueKeepsFaithful(s, s');
    case _ => QueueKeepsFaithful(s, s');
  }

  // ---- NothingLost is kept ----

  lemma KeysOfMeaning(queue: seq<Draft>, k: string)
    ensures k in KeysOf(queue) <==> exists d :: d in queue && d.idem == Some(k)
  {
    if exists d :: d in queue && d.idem == Some(k) {
      var d :| d in queue && d.idem == Some(k);
      assert d.idem.value == k;
    }
  }

  /** The journal side moves: keys stay settled, and answers tell what is in the log. */
  lemma JournalKeepsNothingLost(s: State, s': State)
    requires NothingLost(s)
    requires s' == s.(journal := s'.journal, acks := s'.acks, refusals := s'.refusals)
    requires forall k :: HasKey(s.journal.log, k) ==> HasKey(s'.journal.log, k)
    requires s.refusals <= s'.refusals
    requires forall k :: k in s'.acks ==> k in s.acks || HasKey(s'.journal.log, k)
    requires forall k :: k in s'.refusals ==>
               k in s'.born && !Harmless(s'.born[k].payload) && !HasKey(s'.journal.log, k)
    ensures NothingLost(s')
  {
  }

  lemma DeliverKeepsNothingLost(hash: Event -> string, s: State, request: Draft, at: Time)
    requires Inv(s) && request in s.sent
    ensures NothingLost(Next(hash, s, Deliver(request, at)))
  {
    hide Write;
    WriteGrows(hash, s.journal, request.(at := at));
    WriteKeepsKeys(hash, s.journal, request.(at := at));
    JournalKeepsNothingLost(s, Next(hash, s, Deliver(request, at)));
  }

  lemma ElsewhereKeepsNothingLost(hash: Event -> string, s: State, draft: Draft)
    requires Inv(s) && Enabled(s, Elsewhere(draft))
    ensures NothingLost(Next(hash, s, Elsewhere(draft)))
  {
    hide Write;
    WriteKeepsKeys(hash, s.journal, draft);
    JournalKeepsNothingLost(s, Next(hash, s, Elsewhere(draft)));
  }

  lemma AnsweredKeepsNothingLost(s: State, key: string)
    requires NothingLost(s) && (key in s.acks || key in s.refusals)
    ensures NothingLost(s.(queue := Without(s.queue, key)))
  {
    WithoutKeeps(s.queue, key);
    var s' := s.(queue := Without(s.queue, key));
    forall k | k in s.durable ensures k in KeysOf(s'.queue) || Settled(s', k) {
      KeysOfMeaning(s.queue, k);
      KeysOfMeaning(s'.queue, k);
    }
  }

  lemma RecordKeepsNothingLost(hash: Event -> string, s: State, draft: Draft, key: string)
    requires NothingLost(s) && Enabled(s, Record(draft, key))
    ensures NothingLost(Next(hash, s, Record(draft, key)))
  {
    var s' := Next(hash, s, Record(draft, key));
    forall k | k in s.durable ensures k in KeysOf(s'.queue) || Settled(s', k) {
      KeysOfMeaning(s.queue, k);
      KeysOfMeaning(s'.queue, k);
      if d :| d in s.queue && d.idem == Some(k) {
        var i :| 0 <= i < |s.queue| && s.queue[i] == d;
        if |s.queue| < MAX_WAITING {
          assert d in s'.queue;
        } else if i == 0 {
          KeysOfMeaning([s.queue[0]], k);
          assert d in [s.queue[0]];
        } else {
          assert s.queue[1..][i - 1] == d;
          assert d in s'.queue;
        }
      }
    }
  }

  lemma StepKeepsNothingLost(hash: Event -> string, s: State, step: Step)
    requires Inv(s) && Enabled(s, step)
    ensures NothingLost(Next(hash, s, step))
  {
    match step
    case Record(draft, key) => RecordKeepsNothingLost(hash, s, draft, key);
    case Deliver(request, at) => DeliverKeepsNothingLost(hash, s, request, at);
    case Elsewhere(draft) => ElsewhereKeepsNothingLost(hash, s, draft);
    case Acknowledged(key) => AnsweredKeepsNothingLost(s, key);
    case Refused(key) => AnsweredKeepsNothingLost(s, key);
    case Save =>
      forall k | k in KeysOf(s.queue) ensures k in s.born {
        KeysOfMeaning(s.queue, k);
      }
    case RestartAgent => assert s.saved + [] == s.saved;
    case RestartLedger =>
    case Send(_) =>
  }

  // ---- Over whole runs ----

  lemma {:induction false} InvHolds(hash: Event -> string, states: seq<State>, steps: seq<Step>, n: nat)
    requires Run(hash, states, steps) && n <= |steps|
    ensures Inv(states[n])
  {
    if n > 0 {
      InvHolds(hash, states, steps, n - 1);
      StepKeepsFaithful(hash, states[n - 1], steps[n - 1]);
      StepKeepsNothingLost(hash, states[n - 1], steps[n - 1]);
    }
  }

  /** How many events of the log carry a key. */
  function Times(log: seq<Event>, key: string): nat {
    if log == [] then 0 else Times(log[..|log| - 1], key) + if log[|log| - 1].idem == Some(key) then 1 else 0
  }

  lemma {:induction false} OnceMeansOne(log: seq<Event>, key: string)
    requires KeysOnce(log)
    ensures Times(log, key) == if HasKey(log, key) then 1 else 0
  {
    if log != [] {
      var before, last := log[..|log| - 1], log[|log| - 1];
      OnceMeansOne(before, key);
      if HasKey(before, key) {
        var i :| 0 <= i < |before| && before[i].idem == Some(key);
        assert log[i].idem == Some(key);
      }
      if last.idem == Some(key) { assert log[|log| - 1].idem == Some(key); }
      if HasKey(log, key) && last.idem != Some(key) {
        var i :| 0 <= i < |log| && log[i].idem == Some(key);
        assert before[i].idem == Some(key);
      }
    }
  }

  /** The bound drops nothing in a run where fewer than 10,000 events ever wait. */
  lemma {:induction false} NothingDroppedBelowTheBound(hash: Event -> string, states: seq<State>, steps: seq<Step>,
                                                       n: nat)
    requires Run(hash, states, steps) && n <= |steps|
    requires forall i :: 0 <= i < n ==> |states[i].queue| < MAX_WAITING
    ensures states[n].dropped == {}
  {
    hide Write; hide Reopened;
    if n > 0 {
      NothingDroppedBelowTheBound(hash, states, steps, n - 1);
      assert states[n] == Next(hash, states[n - 1], steps[n - 1]);
    }
  }

  /** Whatever is lost, repeated or restarted: no key is written twice, what is written is what was
      recorded, and a saved event is still in the queue unless it was written, refused for its payload
      or dropped by the bound. So once the queue is empty it is in the journal exactly once. */
  lemma ExactlyOnce(hash: Event -> string, states: seq<State>, steps: seq<Step>, n: nat, key: string)
    requires Run(hash, states, steps) && n <= |steps|
    ensures
      var s := states[n];
      && Times(s.journal.log, key) <= 1
      && (key in s.durable ==> key in s.born)
      && (key in s.born ==> forall e :: e in s.journal.log && e.idem == Some(key) ==>
            var d := s.born[key];
            && e.task == d.task && e.step == d.step && e.actor == d.actor && e.kind == d.kind
            && e.payload == d.payload && e.idem == d.idem)
      && (key in s.durable && key !in s.refusals && key !in s.dropped ==>
            key in KeysOf(s.queue) || Times(s.journal.log, key) == 1)
      && (key in s.durable && s.queue == [] && Harmless(s.born[key].payload) && key !in s.dropped ==>
            Times(s.journal.log, key) == 1)
  {
    InvHolds(hash, states, steps, n);
    var s := states[n];
    OnceMeansOne(s.journal.log, key);
    if key in s.born {
      forall e | e in s.journal.log && e.idem == Some(key) ensures SameAs(e, s.born[key]) {
        var i :| 0 <= i < |s.journal.log| && s.journal.log[i] == e;
        assert Genuine(s, s.journal.log[i]);
      }
    }
  }

  // ---- An event gets there ----

  /** A recorded event waits under its key, last in the queue; the ten thousandth makes the oldest go. */
  lemma RecordedWaits(hash: Event -> string, s: State, draft: Draft, key: string)
    ensures
      var s' := Next(hash, s, Record(draft, key));
      var d := draft.(idem := Some(key));
      && s'.born == s.born[key := d]
      && s' == s.(queue := s'.queue, born := s'.born, dropped := s'.dropped)
      && (|s.queue| < 10_000 ==> s'.queue == s.queue + [d] && s'.dropped == s.dropped)
      && (|s.queue| >= 10_000 ==>
            && s'.queue == s.queue[1..] + [d]
            && s'.dropped == s.dropped + (if s.queue[0].idem.Some? then {s.queue[0].idem.value} else {}))
  {
    if |s.queue| >= MAX_WAITING {
      var first := [s.queue[0]];
      assert s.queue[0] in first;
      assert KeysOf(first) == if s.queue[0].idem.Some? then {s.queue[0].idem.value} else {};
    }
  }

  /** Saving keeps the queue for the next start, which takes it up as it was saved. */
  lemma SavedIsTakenUp(hash: Event -> string, s: State)
    ensures
      var s' := Next(hash, s, Save);
      && s'.queue == s.queue == s'.saved && s'.journal == s.journal && s.durable <= s'.durable
      && forall d <- s.queue :: d.idem.Some? ==> d.idem.value in s'.durable
    ensures Next(hash, s, RestartAgent) == s.(queue := s.saved)
  {
    forall d | d in s.queue && d.idem.Some? ensures d.idem.value in KeysOf(s.queue) {
    }
  }

  /** What one sending that arrives and is answered does to a waiting event: it leaves the queue, written
      once, with the date of its arrival if it was not written before; or refused, its payload being
      what it must not. */
  lemma RoundTripSettles(hash: Event -> string, s: State, rank: nat, at: Time)
    requires Inv(s) && rank < |s.queue|
    ensures
      var d := s.queue[rank];
      var key := d.idem.GetOr("");
      var there := Next(hash, Next(hash, s, Send(rank)), Deliver(d, at));
      && d.idem == Some(key)
      && Enabled(s, Send(rank)) && Enabled(Next(hash, s, Send(rank)), Deliver(d, at))
      && (HasKey(s.journal.log, key) ==> there.journal == s.journal)
      && (if HasKey(s.journal.log, key) || Harmless(d.payload)
          then
            var back := Next(hash, there, Acknowledged(key));
            && Enabled(there, Acknowledged(key))
            && Times(back.journal.log, key) == 1 && key !in KeysOf(back.queue)
            && (!HasKey(s.journal.log, key) ==>
                  && |back.journal.log| == |s.journal.log| + 1 && s.journal.log <= back.journal.log
                  && var e := back.journal.log[|s.journal.log|];
                     e.idem == Some(key) && e.payload == d.payload && e.kind == d.kind && e.task == d.task
                     && e.step == d.step && e.actor == d.actor && e.at == at)
          else
            var back := Next(hash, there, Step.Refused(key));
            && Enabled(there, Step.Refused(key))
            && back.journal == s.journal && key !in KeysOf(back.queue) && key in back.refusals)
  {
    var d := s.queue[rank];
    assert d in s.queue && Known(s.born, d);
    var key := d.idem.value;
    var sent := Next(hash, s, Send(rank));
    var there := Next(hash, sent, Deliver(d, at));
    WriteGrows(hash, s.journal, d.(at := at));
    WriteKeepsKeys(hash, s.journal, d.(at := at));
    OnceMeansOne(there.journal.log, key);
    WithoutKeeps(there.queue, key);
    KeysOfMeaning(Without(there.queue, key), key);
  }
}
