/** The tool registry: what it writes to the journal around a call, and when a tool may run. */
module Mediation {
  import opened Prelude
  import opened Canon
  import opened Cap
  import opened Policy
  import opened PatternMeaning
  import Broker
  import Approvals

  // ---- Tools and callers ----

  datatype Meta = Meta(requires_: string, irreversible: bool, external: bool, levelMin: Option<nat>)

  /** A tool: its requirements, what it declares of a call from the arguments, and the file accesses it
      asks for while it runs, each knowing the answers to those before. */
  datatype Tool = Tool(
    meta: Option<Meta>,
    target: Json -> Option<string>,
    effects: Json -> (bool, bool),
    level: Json -> Option<nat>,
    accesses: Json -> nat,
    access: (Json, seq<bool>) -> (Act, string))

  datatype ToolContext = ToolContext(token: Token, task: string, sandboxLevel: nat)

  /** Who decides during one call: the checks, the human asked when a check wants one, the checks made
      again while the tool runs, by rank, and what is known of a request at each poll, with the
      milliseconds lost before it. `None` is an authority that does not answer, or an unknown request. */
  datatype Authority = Authority(
    check: Broker.CheckRequest -> Decision,
    ask: Broker.CheckRequest -> Option<Approvals.ApprovalState>,
    recheck: (nat, Broker.CheckRequest) -> Decision,
    status: nat -> Option<Approvals.ApprovalState>,
    lag: nat -> nat)

  const NO_CONTEXT := Context("", "", 0, None, 0, map[])

  function ToCall(name: string, level: nat, effects: (bool, bool)): Broker.CheckRequest {
    Broker.CheckRequest(Res.Tool, Call, name, level, effects.0, effects.1, NO_CONTEXT)
  }

  /** The level a command is judged at: its own, never below the mission's. */
  function LevelFor(tool: Tool, args: Json, ctx: ToolContext, res: Res, act: Act, target: string): nat {
    if res == Proc && act == Exec
    then Max(ctx.sandboxLevel, Max(if IsSafeUtility(target) then 0 else 2, tool.level(args).GetOr(0)))
    else ctx.sandboxLevel
  }

  /** The second check, on what the tool is about to touch. */
  function ToTouch(tool: Tool, args: Json, ctx: ToolContext, res: Res, act: Act, target: string): Broker.CheckRequest {
    Broker.CheckRequest(res, act, target, LevelFor(tool, args, ctx, res, act, target),
                        tool.effects(args).0, tool.effects(args).1, NO_CONTEXT)
  }

  /** Whether the call can be checked at all. */
  predicate Checkable(meta: Meta, ctx: ToolContext) {
    && ParseKey(meta.requires_).Some?
    && ctx.task == ctx.token.sub && ctx.sandboxLevel <= 2
    && (meta.levelMin.Some? ==> ctx.sandboxLevel >= meta.levelMin.value)
    && (ParseKey(meta.requires_).value.0 == Res.Tool ==> ParseKey(meta.requires_).value.1 == Call)
  }

  // ---- Waiting for a decision ----

  const POLL: nat := 500
  const MAX_WAIT: nat := 45

  function Field(args: Json, key: string): Option<Json> {
    if args.Object? then FieldOf(args.members, key) else None
  }

  function FieldOf(ms: seq<Member>, key: string): Option<Json> {
    if ms == [] then None
    else if ms[0].key == key then Some(ms[0].value)
    else FieldOf(ms[1..], key)
  }

  function TextField(args: Json, key: string): Option<string> {
    match Field(args, key)
    case Some(Str(text)) => Some(text)
    case _ => None
  }

  /** Between one second and the most, which is also the default. */
  function Timeout(args: Json): (seconds: nat)
    ensures 1 <= seconds <= MAX_WAIT
  {
    match Field(args, "timeout_s")
    case Some(Number(text)) =>
      if text != [] && AllDigits(text) then Max(1, Min(DecimalValue(text), MAX_WAIT)) else MAX_WAIT
    case _ => MAX_WAIT
  }

  /** Milliseconds since the wait began, at poll `k`: polls are at least half a second apart. */
  function Elapsed(authority: Authority, k: nat): nat { POLL * k + authority.lag(k) }

  /** An argument is the value of the first member of its name. */
  lemma {:induction false} FieldIs(ms: seq<Member>, key: string)
    ensures Field(Object(ms), key).None? <==> forall m <- ms :: m.key != key
    ensures forall k :: 0 <= k < |ms| && ms[k].key == key && (forall i :: 0 <= i < k ==> ms[i].key != key) ==>
              Field(Object(ms), key) == Some(ms[k].value)
  {
    if ms != [] && ms[0].key != key {
      FieldIs(ms[1..], key);
      assert ms == [ms[0]] + ms[1..];
      forall k | 0 <= k < |ms| && ms[k].key == key && (forall i :: 0 <= i < k ==> ms[i].key != key)
        ensures Field(Object(ms), key) == Some(ms[k].value)
      {
        assert ms[1..][k - 1] == ms[k];
        assert forall i :: 0 <= i < k - 1 ==> ms[1..][i] == ms[i + 1];
      }
    }
  }

  /** The time asked for, in whole seconds from one to forty-five; forty-five when nothing readable is asked. */
  lemma TimeoutIs(args: Json, n: nat)
    ensures Field(args, "timeout_s") == Some(Number(Decimal(n))) ==>
              Timeout(args) == if n < 1 then 1 else if n > 45 then 45 else n
    ensures (forall text :: text != "" && AllDigits(text) ==> Field(args, "timeout_s") != Some(Number(text))) ==>
              Timeout(args) == 45
  {
    DecimalReads(n);
    if Field(args, "timeout_s") == Some(Number(Decimal(n))) { assert Decimal(n) != ""; }
  }

  // ---- The trace ----

  datatype Record = ToolCall | PolicyDeny | ApprovalRequested | ToolResult

  /** What the registry does, in order: records it tries to write, checks it asks for, questions to
      the human, tools it runs, and its polls of a request's state. */
  datatype Entry =
    | Wrote(record: Record, tool: string, ok: bool)
    | Checked(request: Broker.CheckRequest, decision: Decision)
    | Asked(request: Broker.CheckRequest, state: Option<Approvals.ApprovalState>)
    | Ran(tool: string)
    | Explained(id: string)
    | Polled(id: string, state: Option<Approvals.ApprovalState>)

  predicate WantsHuman(d: Decision) { d.Deny? && d.reason == ApprovalRequired }

  /** Where a call stands. */
  datatype Phase =
    | Idle
    | Opened(tool: string)
    | MayCall(tool: string)
    | ToAsk(tool: string, request: Broker.CheckRequest)
    | Waiting(tool: string)
    | Cleared(tool: string)
    | Running(tool: string)
    | Attending(tool: string)
    | Refusing(tool: string)
    | Closing(tool: string)
    | Failed
    | Stray

  /** The registry's protocol, one entry at a time; `Stray` is a step it never takes. `touches` are
      the tools whose requirement is on a resource. */
  function Follow(touches: set<string>, p: Phase, e: Entry): Phase {
    match p
    case Idle => if e.Wrote? && e.record == ToolCall then After(e, Opened(e.tool)) else Stray
    case Opened(t) =>
      if t == "approval.wait" then Attended(t, e)
      else if e.Wrote? && e.record == PolicyDeny && e.tool == t then After(e, Closing(t))
      else if e.Checked? && e.request.res == Res.Tool && e.request.act == Call && e.request.target == t
      then Judged(t, e, if t in touches then MayCall(t) else Cleared(t))
      else Stray
    case MayCall(t) =>
      if e.Wrote? && e.record == PolicyDeny && e.tool == t then After(e, Closing(t))
      else if e.Checked? && e.request.res != Res.Tool then Judged(t, e, Cleared(t))
      else Stray
    case ToAsk(t, request) =>
      if e.Asked? && e.request == request then
        match e.state
        case Some(Resolved(Allow)) => Cleared(t)
        case Some(Pending) => Waiting(t)
        case _ => Refusing(t)
      else Stray
    case Waiting(t) => if e.Wrote? && e.record == ApprovalRequested && e.tool == t then After(e, Closing(t)) else Stray
    case Refusing(t) => if e.Wrote? && e.record == PolicyDeny && e.tool == t then After(e, Closing(t)) else Stray
    case Cleared(t) => if e == Ran(t) then Running(t) else Stray
    case Running(t) =>
      if e.Checked? && (ChecksCall(e, t) || e.request.res == Fs) then Running(t)
      else if e.Wrote? && e.record == ToolResult && e.tool == t then After(e, Idle)
      else Stray
    case Attending(t) => Attended(t, e)
    case Closing(t) => if e.Wrote? && e.record == ToolResult && e.tool == t then After(e, Idle) else Stray
    case Failed => Stray
    case Stray => Stray
  }

  /** After a record: on when the journal took it, stopped for good when it did not. */
  function After(e: Entry, next: Phase): Phase
    requires e.Wrote?
  {
    if e.ok then next else Failed
  }

  /** Waiting for a decision only explains, polls, and ends. */
  function Attended(t: string, e: Entry): Phase {
    if e.Explained? || e.Polled? then Attending(t)
    else if e.Wrote? && e.record == ToolResult && e.tool == t then After(e, Idle)
    else Stray
  }

  function Judged(t: string, e: Entry, next: Phase): Phase
    requires e.Checked?
  {
    if e.decision.Allow? then next
    else if WantsHuman(e.decision) then ToAsk(t, e.request)
    else Refusing(t)
  }

  function PhaseOf(touches: set<string>, trace: seq<Entry>): Phase {
    if trace == [] then Idle else Follow(touches, PhaseOf(touches, trace[..|trace| - 1]), trace[|trace| - 1])
  }

  lemma PhaseGrows(touches: set<string>, trace: seq<Entry>, e: Entry)
    ensures PhaseOf(touches, trace + [e]) == Follow(touches, PhaseOf(touches, trace), e)
  {
    assert (trace + [e])[..|trace|] == trace;
  }

  // ---- What following the protocol means ----

  lemma {:induction false} PrefixFollows(touches: set<string>, trace: seq<Entry>, n: nat)
    requires n <= |trace| && PhaseOf(touches, trace) != Stray
    ensures PhaseOf(touches, trace[..n]) != Stray
  {
    if n < |trace| {
      var shorter := trace[..|trace| - 1];
      PrefixFollows(touches, shorter, n);
      assert shorter[..n] == trace[..n];
    } else {
      assert trace[..n] == trace;
    }
  }

  lemma PhaseAfter(touches: set<string>, trace: seq<Entry>, i: nat)
    requires i < |trace| && PhaseOf(touches, trace) != Stray
    ensures PhaseOf(touches, trace[..i + 1]) == Follow(touches, PhaseOf(touches, trace[..i]), trace[i])
    ensures PhaseOf(touches, trace[..i + 1]) != Stray
  {
    assert trace[..i + 1][..i] == trace[..i];
    PrefixFollows(touches, trace, i + 1);
  }

  /** Nothing follows a record the journal did not take. */
  lemma FailedRecordIsLast(touches: set<string>, trace: seq<Entry>, i: nat)
    requires PhaseOf(touches, trace) != Stray
    requires i < |trace| && trace[i].Wrote? && !trace[i].ok
    ensures i == |trace| - 1
  {
    PhaseAfter(touches, trace, i);
    if i + 1 < |trace| { PhaseAfter(touches, trace, i + 1); }
  }

  lemma FailedRecordFails(touches: set<string>, trace: seq<Entry>, i: nat)
    requires PhaseOf(touches, trace) != Stray
    requires i == |trace| - 1 && trace[i].Wrote? && !trace[i].ok
    ensures PhaseOf(touches, trace) == Failed
  {
  }

  /** The trace ends with the call's record, taken by the journal. */
  predicate OpenedBy(trace: seq<Entry>, t: string) {
    trace != [] && trace[|trace| - 1] == Wrote(ToolCall, t, true)
  }

  predicate ChecksCall(e: Entry, t: string) {
    e.Checked? && e.request.res == Res.Tool && e.request.act == Call && e.request.target == t
  }

  predicate ChecksResource(e: Entry) { e.Checked? && e.request.res != Res.Tool }

  /** It ends with the record, then the allowed right to call. */
  predicate MayCallBy(trace: seq<Entry>, t: string) {
    && trace != []
    && var last := trace[|trace| - 1];
    && ChecksCall(last, t) && last.decision.Allow?
    && OpenedBy(trace[..|trace| - 1], t)
  }

  /** It ends with a check left to the human, every check before it allowed. */
  predicate ToAskBy(trace: seq<Entry>, t: string, request: Broker.CheckRequest) {
    && trace != []
    && var last, before := trace[|trace| - 1], trace[..|trace| - 1];
    && last.Checked? && last.request == request && WantsHuman(last.decision)
    && ((ChecksCall(last, t) && OpenedBy(before, t)) || (ChecksResource(last) && MayCallBy(before, t)))
  }

  /** It ends with the record, then every required check allowed, or the last one left to the human
      and allowed by him. */
  predicate ClearedBy(touches: set<string>, trace: seq<Entry>, t: string) {
    && trace != []
    && var last, before := trace[|trace| - 1], trace[..|trace| - 1];
    || (ChecksCall(last, t) && last.decision.Allow? && t !in touches && OpenedBy(before, t))
    || (ChecksResource(last) && last.decision.Allow? && MayCallBy(before, t))
    || (last.Asked? && last.state == Some(Approvals.Resolved(Approvals.Allow)) && ToAskBy(before, t, last.request))
  }

  lemma PhaseTells(touches: set<string>, trace: seq<Entry>)
    ensures PhaseOf(touches, trace).Opened? ==> OpenedBy(trace, PhaseOf(touches, trace).tool)
    ensures PhaseOf(touches, trace).MayCall? ==> MayCallBy(trace, PhaseOf(touches, trace).tool)
    ensures PhaseOf(touches, trace).ToAsk? ==>
              ToAskBy(trace, PhaseOf(touches, trace).tool, PhaseOf(touches, trace).request)
    ensures PhaseOf(touches, trace).Cleared? ==> ClearedBy(touches, trace, PhaseOf(touches, trace).tool)
  {
    if trace != [] { PhaseTells(touches, trace[..|trace| - 1]); }
  }

  /** A tool runs only after its call was recorded and every check it needs allowed it, or the last one
      was left to a human who allowed it. */
  lemma RunsOnlyWhenCleared(touches: set<string>, trace: seq<Entry>, i: nat, t: string)
    requires PhaseOf(touches, trace) != Stray
    requires i < |trace| && trace[i] == Ran(t)
    ensures ClearedBy(touches, trace[..i], t)
  {
    PhaseAfter(touches, trace, i);
    PhaseTells(touches, trace[..i]);
  }

  /** The same, entry by entry before the run: an allowed check, or the human's word on one that wanted it;
      it was about the call, or about a resource after an allowed one about the call; and first of all the
      call's record, taken. */
  lemma BeforeARun(touches: set<string>, trace: seq<Entry>, i: nat, t: string) returns (last: nat)
    requires PhaseOf(touches, trace) != Stray
    requires i < |trace| && trace[i] == Ran(t)
    ensures last < i && trace[last].Checked?
    ensures
      var check := trace[last];
      && (if last + 1 == i then check.decision.Allow?
          else
            && last + 2 == i && trace[last + 1] == Asked(check.request, Some(Approvals.Resolved(Approvals.Allow)))
            && check.decision.Deny? && check.decision.reason == ApprovalRequired)
      && if check.request.res == Res.Tool
         then
           && last >= 1 && check.request.act == Call && check.request.target == t
           && trace[last - 1] == Wrote(ToolCall, t, true)
           && (t in touches ==> last + 2 == i)
         else
           && last >= 2 && trace[last - 2] == Wrote(ToolCall, t, true)
           && trace[last - 1].Checked? && trace[last - 1].decision.Allow?
           && trace[last - 1].request.res == Res.Tool && trace[last - 1].request.act == Call
           && trace[last - 1].request.target == t
  {
    hide PhaseOf; hide Follow; hide ClearedBy;
    RunsOnlyWhenCleared(touches, trace, i, t);
    var before := trace[..i];
    last := ClearedEntries(touches, before, t);
    assert forall k :: 0 <= k < i ==> before[k] == trace[k];
  }

  lemma ClearedEntries(touches: set<string>, trace: seq<Entry>, t: string) returns (last: nat)
    requires ClearedBy(touches, trace, t)
    ensures last < |trace| && trace[last].Checked?
    ensures
      var check := trace[last];
      && (if last + 1 == |trace| then check.decision.Allow? && (check.request.res == Res.Tool ==> t !in touches)
          else
            && last + 2 == |trace|
            && trace[last + 1] == Asked(check.request, Some(Approvals.Resolved(Approvals.Allow)))
            && check.decision.Deny? && check.decision.reason == ApprovalRequired)
      && if check.request.res == Res.Tool
         then last >= 1 && ChecksCall(check, t) && trace[last - 1] == Wrote(ToolCall, t, true)
         else
           && last >= 2 && trace[last - 2] == Wrote(ToolCall, t, true)
           && ChecksCall(trace[last - 1], t) && trace[last - 1].decision.Allow?
  {
    var n := |trace|;
    last := if trace[n - 1].Asked? then n - 2 else n - 1;
    var upTo := trace[..last + 1];
    var before := upTo[..last];
    assert trace[n - 1].Asked? ==> trace[..n - 1] == upTo;
    assert last + 1 == n ==> upTo == trace;
    assert before == trace[..last];
    if last > 0 { assert before[..last - 1] == trace[..last - 1]; }
  }

  // ---- The words of the journal ----

  /** What the journal took, in order. */
  function Taken(trace: seq<Entry>): seq<(Record, string)> {
    if trace == [] then []
    else
      var e := trace[|trace| - 1];
      Taken(trace[..|trace| - 1]) + if e.Wrote? && e.ok then [(e.record, e.tool)] else []
  }

  /** One whole call: its record, at most one of a refusal or a question, its result. */
  datatype Word = Word(tool: string, between: Option<Record>) {
    predicate Legal() { between.Some? ==> between.value == PolicyDeny || between.value == ApprovalRequested }

    function Spelled(): seq<(Record, string)> {
      [(ToolCall, tool)] + (if between.Some? then [(between.value, tool)] else []) + [(ToolResult, tool)]
    }
  }

  function Spell(words: seq<Word>): seq<(Record, string)> {
    if words == [] then [] else Spell(words[..|words| - 1]) + words[|words| - 1].Spelled()
  }

  /** The start of a word: a call that is not over, or was cut. */
  predicate Unfinished(part: seq<(Record, string)>) {
    || part == []
    || (|part| == 1 && part[0].0 == ToolCall)
    || (|part| == 2 && part[0].0 == ToolCall && (part[1].0 == PolicyDeny || part[1].0 == ApprovalRequested)
        && part[0].1 == part[1].1)
  }

  /** What is left of the last call when the protocol is in this phase. */
  predicate Pending(p: Phase, part: seq<(Record, string)>) {
    match p
    case Idle => part == []
    case Failed => Unfinished(part)
    case Stray => true
    case Closing(t) => part != [] && part[0].1 == t && Unfinished(part)
    case _ => part == [(ToolCall, p.tool)]
  }

  lemma {:induction false} SpellGrows(words: seq<Word>, w: Word)
    ensures Spell(words + [w]) == Spell(words) + w.Spelled()
  {
    assert (words + [w])[..|words|] == words;
  }

  /** What the journal took is whole calls, then at most the start of one, which is the last thing that
      ever happens when a record failed. */
  lemma {:induction false} JournalIsWords(touches: set<string>, trace: seq<Entry>)
    returns (words: seq<Word>, part: seq<(Record, string)>)
    requires PhaseOf(touches, trace) != Stray
    ensures Taken(trace) == Spell(words) + part
    ensures forall w :: w in words ==> w.Legal()
    ensures Unfinished(part) && Pending(PhaseOf(touches, trace), part)
  {
    hide Follow; hide Pending; hide Unfinished; hide Word.Legal; hide Word.Spelled; hide Spell;
    hide PhaseOf; hide Taken;
    if trace == [] {
      words, part := [], [];
      NothingPending(touches);
    } else {
      var before, e := trace[..|trace| - 1], trace[|trace| - 1];
      PrefixFollows(touches, trace, |trace| - 1);
      words, part := JournalIsWords(touches, before);
      LastEntry(touches, trace);
      PendingFollows(touches, PhaseOf(touches, before), e, part);
      if e.Wrote? && e.ok {
        var taken := (e.record, e.tool);
        assert Spell(words) + part + [taken] == Spell(words) + (part + [taken]);
        if e.record == ToolResult {
          SpellGrows(words, Ended(part, e.tool));
          words, part := words + [Ended(part, e.tool)], [];
        } else {
          part := part + [taken];
        }
      }
    }
  }

  lemma LastEntry(touches: set<string>, trace: seq<Entry>)
    requires trace != []
    ensures
      var before, e := trace[..|trace| - 1], trace[|trace| - 1];
      && PhaseOf(touches, trace) == Follow(touches, PhaseOf(touches, before), e)
      && Taken(trace) == if e.Wrote? && e.ok then Taken(before) + [(e.record, e.tool)] else Taken(before)
  {
    assert Taken(trace[..|trace| - 1]) + [] == Taken(trace[..|trace| - 1]);
  }

  lemma NothingPending(touches: set<string>)
    ensures PhaseOf(touches, []) == Idle && Taken([]) == Spell([]) + []
    ensures Unfinished([]) && Pending(Idle, [])
  {
  }

  /** The word a call's result ends. */
  function Ended(part: seq<(Record, string)>, tool: string): Word {
    Word(tool, if |part| == 2 then Some(part[1].0) else None)
  }

  lemma PendingFollows(touches: set<string>, p: Phase, e: Entry, part: seq<(Record, string)>)
    requires Unfinished(part) && Pending(p, part) && Follow(touches, p, e) != Stray
    ensures
      var p' := Follow(touches, p, e);
      if !e.Wrote? || !e.ok then Pending(p', part) && Unfinished(part)
      else if e.record == ToolResult
      then && Pending(p', []) && Unfinished([])
           && part + [(ToolResult, e.tool)] == Ended(part, e.tool).Spelled() && Ended(part, e.tool).Legal()
      else Pending(p', part + [(e.record, e.tool)]) && Unfinished(part + [(e.record, e.tool)])
  {
  }

  // ---- The registry ----

  datatype CallResult =
    | UnknownTool | NoRequirements | JournalFailed
    | Waited(state: Option<Approvals.ApprovalState>) | BadArguments
    | WaitingFor | RefusedBy(reason: DenyReason) | Outcome(allowed: seq<bool>)

  /** The result a call of this fate has. */
  predicate Meets(fate: Fate, result: CallResult) {
    match fate
    case Runs => result.Outcome?
    case Waits => result == WaitingFor
    case Refuses(reason) => result == RefusedBy(reason)
  }

  predicate Touches(tools: map<string, Tool>, name: string) {
    && name in tools && tools[name].meta.Some?
    && ParseKey(tools[name].meta.value.requires_).Some?
    && ParseKey(tools[name].meta.value.requires_).value.0 != Res.Tool
  }

  function Touching(tools: map<string, Tool>): set<string> {
    set name | name in tools && Touches(tools, name)
  }

  predicate HumanAllows(authority: Authority, request: Broker.CheckRequest) {
    authority.ask(request) == Some(Approvals.Resolved(Approvals.Allow))
  }

  predicate Named(target: Option<string>) {
    target.Some? && !Blank(target.value)
  }

  /** The authority lets this call run: the right to call and, for a resource, the right to what is
      touched. Where a check is left to the human his word is enough, and no later check is made. */
  predicate Lets(tool: Tool, name: string, args: Json, ctx: ToolContext, authority: Authority)
    requires tool.meta.Some?
  {
    && Checkable(tool.meta.value, ctx)
    && var (res, act) := ParseKey(tool.meta.value.requires_).value;
    && var call := ToCall(name, ctx.sandboxLevel, tool.effects(args));
    && var first := authority.check(call);
    && if WantsHuman(first) then HumanAllows(authority, call)
       else
         && first.Allow?
         && (res == Res.Tool
             || (Named(tool.target(args))
                 && var touch := ToTouch(tool, args, ctx, res, act, tool.target(args).value);
                    authority.check(touch).Allow?
                    || (WantsHuman(authority.check(touch)) && HumanAllows(authority, touch))))
  }

  // ---- What becomes of a call ----

  datatype Fate = Runs | Waits | Refuses(reason: DenyReason)

  /** What the last check of a call leads to: a human is asked only where it wants one. */
  function AfterCheck(authority: Authority, request: Broker.CheckRequest): Fate {
    var decision := authority.check(request);
    if decision.Allow? then Runs
    else if !WantsHuman(decision) then Refuses(decision.reason)
    else
      match authority.ask(request)
      case Some(Resolved(Allow)) => Runs
      case Some(Pending) => Waits
      case _ => Refuses(PolicyDenied)
  }

  function FateOf(tool: Tool, name: string, args: Json, ctx: ToolContext, authority: Authority): Fate
    requires tool.meta.Some?
  {
    if !Checkable(tool.meta.value, ctx) then Refuses(PolicyDenied)
    else
      var (res, act) := ParseKey(tool.meta.value.requires_).value;
      var call := ToCall(name, ctx.sandboxLevel, tool.effects(args));
      if !authority.check(call).Allow? || res == Res.Tool then AfterCheck(authority, call)
      else if !Named(tool.target(args)) then Refuses(PolicyDenied)
      else AfterCheck(authority, ToTouch(tool, args, ctx, res, act, tool.target(args).value))
  }

  /** The calls that run are those the authority lets. */
  lemma RunsIffLets(tool: Tool, name: string, args: Json, ctx: ToolContext, authority: Authority)
    requires tool.meta.Some?
    ensures FateOf(tool, name, args, ctx, authority).Runs? <==> Lets(tool, name, args, ctx, authority)
  {
    hide Checkable; hide ToTouch; hide ParseKey;
  }

  /** Nothing is checked unless the requirement names a pair, the caller is the task of his token, at a
      level that exists and is high enough for the tool, and a requirement on tools is one to call. */
  lemma CheckableIff(meta: Meta, ctx: ToolContext)
    ensures Checkable(meta, ctx) <==>
              exists res, act :: (
                && meta.requires_ == ActionName(res, act)
                && (res == Res.Tool ==> act == Call)
                && ctx.task == ctx.token.sub
                && (ctx.sandboxLevel == 0 || ctx.sandboxLevel == 1 || ctx.sandboxLevel == 2)
                && (meta.levelMin.None? || meta.levelMin.value <= ctx.sandboxLevel))
  {
    hide ActionName; hide ParseKey;
    if ParseKey(meta.requires_).Some? {
      var (res, act) := ParseKey(meta.requires_).value;
      ActionNameRoundTrip(meta.requires_, res, act);
    }
    forall res, act | meta.requires_ == ActionName(res, act) ensures ParseKey(meta.requires_) == Some((res, act)) {
      ActionNameRoundTrip(meta.requires_, res, act);
    }
  }

  /** A target counts when it holds something else than blanks; without one a call on a resource that may be
      made is refused all the same. */
  lemma TargetIsNeeded(tool: Tool, name: string, args: Json, ctx: ToolContext, authority: Authority)
    requires tool.meta.Some? && Checkable(tool.meta.value, ctx)
    requires ParseKey(tool.meta.value.requires_).value.0 != Res.Tool
    requires authority.check(ToCall(name, ctx.sandboxLevel, tool.effects(args))).Allow?
    ensures
      var (res, act) := ParseKey(tool.meta.value.requires_).value;
      var fate := FateOf(tool, name, args, ctx, authority);
      match tool.target(args)
      case None => fate == Refuses(PolicyDenied)
      case Some(target) =>
        if exists i :: 0 <= i < |target| && target[i] != ' ' && !('\t' <= target[i] <= '\r')
        then fate == AfterCheck(authority, ToTouch(tool, args, ctx, res, act, target))
        else fate == Refuses(PolicyDenied)
  {
    hide ParseKey; hide ToTouch; hide AfterCheck; hide Checkable;
  }

  /** What is asked about: the call of the tool at the mission's level, then the declared target with the
      requirement's pair; both with the effects the tool declares. */
  lemma ChecksAre(tool: Tool, name: string, args: Json, ctx: ToolContext, res: Res, act: Act, target: string)
    ensures
      var call, touch := ToCall(name, ctx.sandboxLevel, tool.effects(args)), ToTouch(tool, args, ctx, res, act, target);
      && call.res == Res.Tool && call.act == Call && call.target == name && call.sandboxLevel == ctx.sandboxLevel
      && touch.res == res && touch.act == act && touch.target == target
      && (call.irreversible, call.external) == (touch.irreversible, touch.external) == tool.effects(args)
      && call.context == touch.context == Context("", "", 0, None, 0, map[])
      && (!(res == Proc && act == Exec) ==> touch.sandboxLevel == ctx.sandboxLevel)
  {
  }

  /** An execution is judged at no lower level than the mission's or the one asked, and no higher than it
      has to be. With the default policies that lets every program through that is not protected. */
  lemma ExecutionLevel(tool: Tool, args: Json, ctx: ToolContext, target: string, home: string)
    ensures
      var touch := ToTouch(tool, args, ctx, Proc, Exec, target);
      && ctx.sandboxLevel <= touch.sandboxLevel && tool.level(args).GetOr(0) <= touch.sandboxLevel
      && (touch.sandboxLevel == ctx.sandboxLevel || Some(touch.sandboxLevel) == tool.level(args)
          || (touch.sandboxLevel == 2 && target !in SAFE_UTILITIES))
      && (DefaultEngine(Broker.QueryFor(ctx.token, touch, home)) == Some(true) <==> !Protected(target, home))
  {
    hide Protected; hide IsSensitivePath;
    var touch := ToTouch(tool, args, ctx, Proc, Exec, target);
    SensitiveIff(Proc, Exec, target, touch.irreversible, touch.external, home);
  }

  /** A confined utility for which no level is asked runs where the mission is. */
  lemma UtilityStays(tool: Tool, args: Json, ctx: ToolContext, target: string, home: string)
    requires FactsOf(Proc, Exec, target, false, false, home).confinedUtility && tool.level(args).None?
    ensures ToTouch(tool, args, ctx, Proc, Exec, target).sandboxLevel == ctx.sandboxLevel
  {
    hide IsSensitivePath;
  }

  // ---- Checks made again while a tool runs ----

  function AgainCall(name: string, ctx: ToolContext): Broker.CheckRequest {
    ToCall(name, ctx.sandboxLevel, (false, false))
  }

  function AgainPath(ctx: ToolContext, act: Act, path: string): Broker.CheckRequest {
    Broker.CheckRequest(Fs, act, path, ctx.sandboxLevel, false, false, NO_CONTEXT)
  }

  /** The path is checked only if the call still is allowed. */
  function Rechecks(name: string, ctx: ToolContext, authority: Authority, k: nat, act: Act, path: string): seq<Entry> {
    var first := authority.recheck(k, AgainCall(name, ctx));
    [Checked(AgainCall(name, ctx), first)]
    + if first.Allow? then [Checked(AgainPath(ctx, act, path), authority.recheck(k, AgainPath(ctx, act, path)))] else []
  }

  /** The access asked after these answers is allowed. */
  predicate AccessAllowed(tool: Tool, name: string, args: Json, ctx: ToolContext, authority: Authority,
                          answers: seq<bool>)
  {
    var (act, path) := tool.access(args, answers);
    && authority.recheck(|answers|, AgainCall(name, ctx)).Allow?
    && authority.recheck(|answers|, AgainPath(ctx, act, path)).Allow?
  }

  /** What a tool was told while it ran: each access allowed exactly if both rights were, then. */
  predicate Told(tool: Tool, name: string, args: Json, ctx: ToolContext, authority: Authority, allowed: seq<bool>) {
    |allowed| == tool.accesses(args) && Answered(tool, name, args, ctx, authority, allowed)
  }

  predicate Answered(
    tool: Tool, name: string, args: Json, ctx: ToolContext, authority: Authority, allowed: seq<bool>)
  {
    forall k :: 0 <= k < |allowed| ==>
      (allowed[k] <==> AccessAllowed(tool, name, args, ctx, authority, allowed[..k]))
  }

  /** What a tool was told: as many answers as it asked for, each one yes exactly if the call and the path it
      names, knowing the answers before, were both allowed then, at the mission's level and without effects. */
  lemma ToldIff(tool: Tool, name: string, args: Json, ctx: ToolContext, authority: Authority, allowed: seq<bool>)
    ensures Told(tool, name, args, ctx, authority, allowed) <==>
              && |allowed| == tool.accesses(args)
              && forall k :: 0 <= k < |allowed| ==>
                   var (act, path) := tool.access(args, allowed[..k]);
                   var none := Context("", "", 0, None, 0, map[]);
                   var call := Broker.CheckRequest(Res.Tool, Call, name, ctx.sandboxLevel, false, false, none);
                   var touch := Broker.CheckRequest(Fs, act, path, ctx.sandboxLevel, false, false, none);
                   allowed[k] <==> authority.recheck(k, call).Allow? && authority.recheck(k, touch).Allow?
  {
    forall k | 0 <= k < |allowed| ensures |allowed[..k]| == k {
    }
  }

  lemma NothingAsked(tool: Tool, name: string, args: Json, ctx: ToolContext, authority: Authority)
    ensures Answered(tool, name, args, ctx, authority, [])
    ensures AccessTrace(tool, name, args, ctx, authority, [], 0) == []
  {
  }

  /** One more access asked and answered. */
  lemma AnsweredGrows(
    tool: Tool, name: string, args: Json, ctx: ToolContext, authority: Authority, allowed: seq<bool>, ok: bool)
    requires Answered(tool, name, args, ctx, authority, allowed)
    requires ok <==> AccessAllowed(tool, name, args, ctx, authority, allowed)
    ensures Answered(tool, name, args, ctx, authority, allowed + [ok])
    ensures
      var (act, path) := tool.access(args, allowed);
      AccessTrace(tool, name, args, ctx, authority, allowed + [ok], |allowed| + 1) ==
      AccessTrace(tool, name, args, ctx, authority, allowed, |allowed|)
      + Rechecks(name, ctx, authority, |allowed|, act, path)
  {
    hide AccessAllowed; hide Rechecks;
    var more := allowed + [ok];
    assert more[..|allowed|] == allowed;
    AccessTraceKept(tool, name, args, ctx, authority, allowed, ok, |allowed|);
    forall k | 0 <= k < |more| ensures more[k] <==> AccessAllowed(tool, name, args, ctx, authority, more[..k]) {
      if k < |allowed| { assert more[..k] == allowed[..k]; }
    }
  }

  function AccessTrace(tool: Tool, name: string, args: Json, ctx: ToolContext, authority: Authority,
                       answers: seq<bool>, n: nat): seq<Entry>
    requires n <= |answers|
  {
    if n == 0 then []
    else
      var (act, path) := tool.access(args, answers[..n - 1]);
      AccessTrace(tool, name, args, ctx, authority, answers, n - 1) + Rechecks(name, ctx, authority, n - 1, act, path)
  }

  lemma {:induction false} AccessTraceKept(
    tool: Tool, name: string, args: Json, ctx: ToolContext, authority: Authority, answers: seq<bool>, more: bool,
    n: nat)
    requires n <= |answers|
    ensures AccessTrace(tool, name, args, ctx, authority, answers + [more], n) ==
            AccessTrace(tool, name, args, ctx, authority, answers, n)
  {
    if n > 0 {
      AccessTraceKept(tool, name, args, ctx, authority, answers, more, n - 1);
      assert (answers + [more])[..n - 1] == answers[..n - 1];
    }
  }

  /** The wait goes on after this poll. */
  predicate GoesOn(authority: Authority, timeout: nat, k: nat) {
    authority.status(k) == Some(Approvals.Pending) && Elapsed(authority, k) < 1000 * timeout
  }

  /** Polls come half a second apart or more; the wait goes on while the state is pending and the time is
      not over. */
  lemma GoesOnIff(authority: Authority, timeout: nat, k: nat)
    ensures GoesOn(authority, timeout, k) <==>
              authority.status(k) == Some(Approvals.Pending) && 500 * k + authority.lag(k) < timeout * 1000
  {
  }

  /** This poll is the first at which the wait ends; there are at most two a second, and one. */
  ghost predicate LastPoll(authority: Authority, timeout: nat, k: nat) {
    && k <= 2 * timeout
    && !GoesOn(authority, timeout, k)
    && forall j: nat :: j < k ==> GoesOn(authority, timeout, j)
  }

  /** The model says why it waits. */
  ghost predicate GivesReason(args: Json) {
    exists why :: Field(args, "reason") == Some(Str(why)) && !Blank(why)
  }

  /** The first polls of a request. */
  function Polls(id: string, authority: Authority, n: nat): seq<Entry> {
    if n == 0 then [] else Polls(id, authority, n - 1) + [Polled(id, authority.status(n - 1))]
  }

  lemma NothingPolled(id: string, authority: Authority)
    ensures Polls(id, authority, 0) == []
  {
  }

  lemma PolledOnce(id: string, authority: Authority, k: nat)
    ensures Polls(id, authority, k + 1) == Polls(id, authority, k) + [Polled(id, authority.status(k))]
  {
  }

  lemma TextFieldIs(args: Json, key: string, text: string)
    ensures TextField(args, key) == Some(text) <==> Field(args, key) == Some(Str(text))
  {
  }

  lemma ReasonGiven(args: Json)
    ensures GivesReason(args) <==> !Blank(TextField(args, "reason").GetOr(""))
  {
    if TextField(args, "reason").Some? { TextFieldIs(args, "reason", TextField(args, "reason").value); }
  }

  lemma NoId(args: Json)
    ensures TextField(args, "id").GetOr("") == "" <==>
              forall id :: id != "" ==> Field(args, "id") != Some(Str(id))
  {
    if TextField(args, "id").Some? { TextFieldIs(args, "id", TextField(args, "id").value); }
  }

  class Registry {
    const tools: map<string, Tool>
    /** Whether the journal takes a record tried when the trace has this length. */
    const takes: nat -> bool
    var journalFailed: bool
    var trace: seq<Entry>

    constructor (tools: map<string, Tool>, takes: nat -> bool)
      ensures this.tools == tools && this.takes == takes
      ensures Valid() && trace == []
    {
      this.tools, this.takes := tools, takes;
      journalFailed, trace := false, [];
    }

    function Phase(): Phase
      reads this
    {
      PhaseOf(Touching(tools), trace)
    }

    /** Between calls: the protocol was followed, and the registry stopped at the first record the
        journal did not take. */
    predicate Valid()
      reads this
    {
      Phase() == if journalFailed then Failed else Idle
    }

    /** Between calls: the journal holds whole calls, unless a record failed, and then that was the
        last thing done; every tool that ran had been recorded and cleared. */
    lemma TraceMeaning() returns (words: seq<Word>, part: seq<(Record, string)>)
      requires Valid()
      ensures Taken(trace) == Spell(words) + part && Unfinished(part) && (!journalFailed ==> part == [])
      ensures forall w :: w in words ==> w.Legal()
      ensures forall i :: 0 <= i < |trace| && trace[i].Wrote? && !trace[i].ok ==> i == |trace| - 1 && journalFailed
      ensures forall i :: 0 <= i < |trace| && trace[i].Ran? ==>
                ClearedBy(Touching(tools), trace[..i], trace[i].tool)
    {
      var touches := Touching(tools);
      hide Touching; hide PhaseOf; hide Taken; hide Spell; hide Follow; hide ClearedBy; hide Unfinished;
      words, part := JournalIsWords(touches, trace);
      forall i | 0 <= i < |trace| && trace[i].Ran?
        ensures ClearedBy(touches, trace[..i], trace[i].tool)
      {
        RunsOnlyWhenCleared(touches, trace, i, trace[i].tool);
      }
      forall i | 0 <= i < |trace| && trace[i].Wrote? && !trace[i].ok
        ensures i == |trace| - 1 && journalFailed
      {
        FailedRecordIsLast(touches, trace, i);
        FailedRecordFails(touches, trace, i);
      }
    }

    method Write(record: Record, name: string) returns (ok: bool)
      modifies `trace
      ensures trace == old(trace) + [Wrote(record, name, ok)]
      ensures Phase() == Follow(Touching(tools), old(Phase()), Wrote(record, name, ok))
    {
      ok := takes(|trace|);
      PhaseGrows(Touching(tools), trace, Wrote(record, name, ok));
      trace := trace + [Wrote(record, name, ok)];
    }

    method Check(authority: Authority, request: Broker.CheckRequest) returns (decision: Decision)
      modifies `trace
      ensures decision == authority.check(request)
      ensures trace == old(trace) + [Checked(request, decision)]
      ensures Phase() == Follow(Touching(tools), old(Phase()), Checked(request, decision))
    {
      decision := authority.check(request);
      PhaseGrows(Touching(tools), trace, Checked(request, decision));
      trace := trace + [Checked(request, decision)];
    }

    /** Once a record failed, nothing is done any more. */
    method Call(name: string, args: Json, ctx: ToolContext, authority: Authority) returns (r: CallResult)
      requires Valid()
      modifies this
      ensures Valid()
      ensures old(journalFailed) ==> r == JournalFailed && journalFailed && trace == old(trace)
      ensures old(trace) <= trace
      ensures !old(journalFailed) ==> (r == JournalFailed <==> journalFailed)
      ensures r.Outcome? ==> name in tools && tools[name].meta.Some? && Lets(tools[name], name, args, ctx, authority)
    {
      if journalFailed {
        return JournalFailed;
      }
      var done := CallRecorded(name, args, ctx, authority);
      match done {
        case Some(result) => r := result;
        case None =>
          journalFailed := true;
          r := JournalFailed;
      }
    }

    /** `None` when a record failed. */
    method CallRecorded(name: string, args: Json, ctx: ToolContext, authority: Authority)
      returns (r: Option<CallResult>)
      requires Phase() == Idle
      modifies `trace
      ensures Phase() == if r.None? then Failed else Idle
      ensures old(trace) <= trace
      ensures r != Some(JournalFailed)
      ensures r == Some(UnknownTool) <==> name !in tools
      ensures r == Some(NoRequirements) <==> name in tools && tools[name].meta.None?
      ensures name in tools && tools[name].meta.Some? && name != "approval.wait" && r.Some? ==>
                && Meets(FateOf(tools[name], name, args, ctx, authority), r.value)
                && (r.value.Outcome? <==> Lets(tools[name], name, args, ctx, authority))
                && (r.value.Outcome? ==> Told(tools[name], name, args, ctx, authority, r.value.allowed))
      ensures name in tools && tools[name].meta.Some? && name == "approval.wait" && r.Some? ==>
                r.value.BadArguments? || (r.value.Waited? && exists k: nat ::
                  LastPoll(authority, Timeout(args), k) && r.value.state == authority.status(k))
    {
      hide PhaseOf; hide Touching; hide Lets; hide FateOf; hide Told; hide LastPoll; hide Timeout;
      if name !in tools {
        return Some(UnknownTool);
      }
      var tool := tools[name];
      if tool.meta.None? {
        return Some(NoRequirements);
      }
      var ok := Write(ToolCall, name);
      if !ok {
        return None;
      }
      if name == "approval.wait" {
        var waited := Attend(args, authority);
        r := Close(name, waited);
        return;
      }
      RunsIffLets(tool, name, args, ctx, authority);
      r := Serve(name, args, ctx, authority);
    }

    /** Authorisation, the human if a check wants him, then a refusal or the tool. */
    method Serve(name: string, args: Json, ctx: ToolContext, authority: Authority) returns (r: Option<CallResult>)
      requires name in tools && tools[name].meta.Some? && name != "approval.wait"
      requires Phase() == Opened(name)
      modifies `trace
      ensures Phase() == if r.None? then Failed else Idle
      ensures old(trace) <= trace
      ensures r.Some? ==> Meets(FateOf(tools[name], name, args, ctx, authority), r.value)
      ensures r.Some? && r.value.Outcome? ==> Told(tools[name], name, args, ctx, authority, r.value.allowed)
    {
      hide PhaseOf; hide Touching; hide FateOf; hide AfterCheck; hide Follow; hide Told;
      var decision, request := Authorize(name, args, ctx, authority);
      if WantsHuman(decision) && request.Some? {
        var answer := Approbation(name, request.value, authority);
        match answer {
          case Ruled(d) => decision := d;
          case Submitted(result) => return result;
        }
      }
      if decision.Deny? {
        r := Deny(name, decision.reason);
        return;
      }
      var allowed := RunTool(tools[name], name, args, ctx, authority);
      r := Close(name, Outcome(allowed));
    }

    /** Runs the tool, answering each access it asks for by two checks made at that moment. */
    method RunTool(tool: Tool, name: string, args: Json, ctx: ToolContext, authority: Authority)
      returns (allowed: seq<bool>)
      requires Phase() == Cleared(name)
      modifies `trace
      ensures Phase() == Running(name)
      ensures Told(tool, name, args, ctx, authority, allowed)
      ensures trace == old(trace) + [Ran(name)] + AccessTrace(tool, name, args, ctx, authority, allowed, |allowed|)
    {
      hide PhaseOf; hide Touching; hide Answered; hide AccessTrace; hide Rechecks;
      PhaseGrows(Touching(tools), trace, Ran(name));
      trace := trace + [Ran(name)];
      allowed := [];
      NothingAsked(tool, name, args, ctx, authority);
      for k := 0 to tool.accesses(args)
        invariant Phase() == Running(name) && |allowed| == k
        invariant trace == old(trace) + [Ran(name)] + AccessTrace(tool, name, args, ctx, authority, allowed, k)
        invariant Answered(tool, name, args, ctx, authority, allowed)
      {
        var (act, path) := tool.access(args, allowed);
        var ok := Permits(name, ctx, authority, k, act, path);
        AnsweredGrows(tool, name, args, ctx, authority, allowed, ok);
        allowed := allowed + [ok];
      }
    }

    /** The right to call the tool, then the right to the path, both checked again. */
    method Permits(name: string, ctx: ToolContext, authority: Authority, k: nat, act: Act, path: string)
      returns (ok: bool)
      requires Phase() == Running(name)
      modifies `trace
      ensures Phase() == Running(name)
      ensures ok <==>
                && authority.recheck(k, AgainCall(name, ctx)).Allow?
                && authority.recheck(k, AgainPath(ctx, act, path)).Allow?
      ensures trace == old(trace) + Rechecks(name, ctx, authority, k, act, path)
    {
      hide PhaseOf; hide Touching;
      var first := authority.recheck(k, AgainCall(name, ctx));
      PhaseGrows(Touching(tools), trace, Checked(AgainCall(name, ctx), first));
      trace := trace + [Checked(AgainCall(name, ctx), first)];
      if !first.Allow? {
        return false;
      }
      var second := authority.recheck(k, AgainPath(ctx, act, path));
      PhaseGrows(Touching(tools), trace, Checked(AgainPath(ctx, act, path), second));
      trace := trace + [Checked(AgainPath(ctx, act, path), second)];
      ok := second.Allow?;
    }

    /** Polls a request's state until it is decided, unknown, or the time is up. Nothing is checked and
        nothing is touched; the answer is that of the last poll, and a wait that ends pending has
        lasted its time. */
    method Attend(args: Json, authority: Authority) returns (r: CallResult)
      requires Phase() == Opened("approval.wait")
      modifies `trace
      ensures Phase() == Attending("approval.wait") || (r == BadArguments && Phase() == Opened("approval.wait"))
      ensures old(trace) <= trace && forall i :: |old(trace)| <= i < |trace| ==> trace[i].Explained? || trace[i].Polled?
      ensures r == BadArguments <==> forall id :: id != "" ==> Field(args, "id") != Some(Str(id))
      ensures r == BadArguments ==> trace == old(trace)
      ensures r != BadArguments ==>
                r.Waited? && exists k: nat, id ::
                  && Field(args, "id") == Some(Str(id)) && LastPoll(authority, Timeout(args), k)
                  && r.state == authority.status(k)
                  && trace == old(trace) + (if GivesReason(args) then [Explained(id)] else [])
                              + Polls(id, authority, k + 1)
    {
      hide PhaseOf; hide Touching; hide Timeout; hide TextField; hide GivesReason; hide Polls; hide Field;
      NoId(args);
      ReasonGiven(args);
      var id := TextField(args, "id").GetOr("");
      if id == "" {
        return BadArguments;
      }
      TextFieldIs(args, "id", id);
      NothingPolled(id, authority);
      var timeout := Timeout(args);
      if !Blank(TextField(args, "reason").GetOr("")) {
        PhaseGrows(Touching(tools), trace, Explained(id));
        trace := trace + [Explained(id)];
      }
      ghost var before := trace;
      var k := 0;
      while true
        invariant Phase() == Opened("approval.wait") || Phase() == Attending("approval.wait")
        invariant trace == before + Polls(id, authority, k)
        invariant old(trace) <= trace
        invariant forall i :: |old(trace)| <= i < |trace| ==> trace[i].Explained? || trace[i].Polled?
        invariant forall j: nat :: j < k ==> GoesOn(authority, timeout, j)
        invariant k <= 2 * timeout
        decreases 2 * timeout - k
      {
        var state := authority.status(k);
        PhaseGrows(Touching(tools), trace, Polled(id, state));
        trace := trace + [Polled(id, state)];
        PolledOnce(id, authority, k);
        if state != Some(Approvals.Pending) || Elapsed(authority, k) >= 1000 * timeout {
          assert LastPoll(authority, timeout, k);
          return Waited(state);
        }
        k := k + 1;
      }
    }

    method Deny(name: string, reason: DenyReason) returns (r: Option<CallResult>)
      requires Denying(name)
      modifies `trace
      ensures Phase() == if r.None? then Failed else Idle
      ensures r.Some? ==> r.value == RefusedBy(reason)
      ensures old(trace) <= trace
    {
      var ok := Write(PolicyDeny, name);
      if !ok {
        return None;
      }
      r := Close(name, RefusedBy(reason));
    }

    method Close(name: string, result: CallResult) returns (r: Option<CallResult>)
      requires
        || Phase() == Closing(name) || Phase() == Running(name) || Phase() == Attending(name)
        || (Phase() == Opened(name) && name == "approval.wait")
      modifies `trace
      ensures Phase() == if r.None? then Failed else Idle
      ensures r.Some? ==> r.value == result
      ensures old(trace) <= trace
    {
      var ok := Write(ToolResult, name);
      r := if ok then Some(result) else None;
    }

    /** Two checks: the right to call the tool, then the right to what it touches. */
    method Authorize(name: string, args: Json, ctx: ToolContext, authority: Authority)
      returns (decision: Decision, request: Option<Broker.CheckRequest>)
      requires name in tools && tools[name].meta.Some? && name != "approval.wait"
      requires Phase() == Opened(name)
      modifies `trace
      ensures
        var (first, second) := (|old(trace)|, |old(trace)| + 1);
        && old(trace) <= trace && |trace| <= |old(trace)| + 2
        && (|trace| == first <==> !Checkable(tools[name].meta.value, ctx))
        && (first < |trace| ==>
              && trace[first].Checked?
              && trace[first].request == ToCall(name, ctx.sandboxLevel, tools[name].effects(args)))
        && (second < |trace| ==>
              && trace[second].Checked? && trace[first].decision.Allow?
              && var (res, act) := ParseKey(tools[name].meta.value.requires_).value;
                 Named(tools[name].target(args))
                 && trace[second].request == ToTouch(tools[name], args, ctx, res, act, tools[name].target(args).value))
      ensures
        var fate := FateOf(tools[name], name, args, ctx, authority);
        if decision.Allow? then fate == Runs
        else if WantsHuman(decision) && request.Some?
        then fate == AfterCheck(authority, request.value) && decision == authority.check(request.value)
        else fate == Refuses(decision.reason)
      ensures decision.Allow? ==> Phase() == Cleared(name)
      ensures WantsHuman(decision) && request.Some? ==> Phase() == ToAsk(name, request.value)
      ensures decision.Deny? && !(WantsHuman(decision) && request.Some?) ==> Denying(name)
    {
      hide PhaseOf; hide LevelFor; hide ParseKey;
      var tool, meta := tools[name], tools[name].meta.value;
      if !Checkable(meta, ctx) {
        return Refuse(PolicyDenied), None;
      }
      var (res, act) := ParseKey(meta.requires_).value;
      var call := ToCall(name, ctx.sandboxLevel, tool.effects(args));
      decision := Check(authority, call);
      if !decision.Allow? {
        request := Some(call);
        return;
      }
      if res == Res.Tool {
        return decision, None;
      }
      var target := tool.target(args);
      if !Named(target) {
        return Refuse(PolicyDenied), None;
      }
      var touch := ToTouch(tool, args, ctx, res, act, target.value);
      decision := Check(authority, touch);
      request := Some(touch);
    }

    predicate Denying(name: string)
      reads this
    {
      || (Phase() == Opened(name) && name != "approval.wait")
      || Phase() == MayCall(name) || Phase() == Refusing(name)
    }

    /** Asks the human, who may have decided already. */
    method Approbation(name: string, request: Broker.CheckRequest, authority: Authority) returns (a: Answer)
      requires Phase() == ToAsk(name, request)
      modifies `trace
      ensures old(trace) <= trace
      requires WantsHuman(authority.check(request))
      ensures match AfterCheck(authority, request)
              case Runs => a.Ruled? && a.decision.Allow?
              case Waits => a.Submitted?
              case Refuses(reason) => a.Ruled? && a.decision.Deny? && a.decision.reason == reason
                                      && !WantsHuman(a.decision)
      ensures a.Submitted? && a.result.Some? ==> a.result.value == WaitingFor
      ensures a.Ruled? ==> if a.decision.Allow? then Phase() == Cleared(name) else Phase() == Refusing(name)
      ensures a.Submitted? ==> Phase() == if a.result.None? then Failed else Idle
    {
      var state := authority.ask(request);
      PhaseGrows(Touching(tools), trace, Asked(request, state));
      trace := trace + [Asked(request, state)];
      match state {
        case None => a := Ruled(Refuse(PolicyDenied));
        case Some(Resolved(Allow)) => a := Ruled(Decision.Allow(0));
        case Some(Resolved(Deny)) => a := Ruled(Decision.Deny(PolicyDenied, Some(HumanRule)));
        case Some(Expired) => a := Ruled(Decision.Deny(PolicyDenied, Some(HumanRule)));
        case Some(Pending) =>
          var ok := Write(ApprovalRequested, name);
          if !ok {
            return Submitted(None);
          }
          var closed := Close(name, WaitingFor);
          a := Submitted(closed);
      }
    }
  }

  /** A decision, or a question left with the human and the call's result. */
  datatype Answer = Ruled(decision: Decision) | Submitted(result: Option<CallResult>)
}
