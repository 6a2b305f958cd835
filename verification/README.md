# Prophet OS: a verified model of its stateful cores

Prophet OS runs AI agents under capabilities: `capd` issues and checks tokens and asks humans for
approval, `agentd` runs tasks under budgets, `ledger` keeps the audit journal, and a tool registry
stands between models and tools. This project models the parts of these daemons whose promises hold
over whole runs, and proves them with Dafny. `dafny verify dfyconfig.toml` checks everything.

Objects whose methods update fields in the original are classes here, each method proved against a
function of the old state or a full statement of the new one; what the original computes without
state is functions. Run-level results are lemmas over sequences of steps.

## How the files fit together

- `Pattern`, `PatternMeaning`, `Cap`: grant patterns on concrete strings, what they reach, the covering
  relation, constraints, tokens, the search for a grant. `Policy`, `PolicyCache`: default policies, action classes, the memoised
  engine. `Delegation`: the forest of issued tokens, depth, attenuation, revocation of subtrees.
  `Broker`: the class behind `capd`. `Revocations`, `Lines`, `Utf8`: the line file of revoked subjects,
  what of it is text after a cut, and its repair after a crash. `Capd`: the daemon as a step system
  with crashes and restarts.
- `Approvals`, `ApprovalRuns`, `ApprovalRestarts`: the approval queue, its runs, and the lives of its
  service with saves that succeed or fail and restarts. `Presence`: the code that proves a human is
  there, its lock and tickets.
- `Ledger`, `Canon`: sealed events, hash chains, canonical JSON. `DayFiles`, `Views`, `Reopening`,
  `Store`: day files byte by byte, sorting and filtering, what rereading the files in name order
  makes of a log, and the journal store. `TornJournal`: the same files when writes are cut short.
  `Outbox`: the queue of `agentd`, the journal, and a network
  that loses and repeats, with restarts of either side.
- `Mediation`: the tool registry as a class whose effects are a trace, and the protocol it follows.
- `Budget`, `Task`: budgets over a tree of tasks, life cycles, depth. `Reminders`: reminders replayed
  in every later view of a conversation.

## Main results

- Journal: `Store.Store.Query`, `Store.Store.Append`, `Store.Store.MaybeSeal`, `Store.Store.Verify`,
  `Store.Store.RebuildIndex`, `Store.ReopenedInOrderIff`; `Views.KindsNarrow`; `Outbox.RoundTripSettles`; `TornJournal.DayReadsIff`; `Outbox.ExactlyOnce`;
  `Ledger.HeadsAgreeIff`; `Canon.SortedIff`, `Canon.CanonicalIff`.
- Capabilities: `Pattern.CoversIsInclusion`, `Policy.SensitiveIff`, `Broker.AllowedIff`, `Cap.ParentAllowsIff`, `Capd.AllowWithinCeiling`,
  `Broker.MintStaysWithinIff`,
  `Capd.PermanentRevocation`, `Capd.RevokeInscribesIff`, `Capd.DepthWithin`,
  `Delegation.DepthIsChainLength`, `Revocations.CrashConsistent`, `PolicyCache.MemoTransparentIff`,
  `Broker.SecondCheckMisledIff`, `Broker.Broker.Check`.
- Humans: `ApprovalRuns.StandingAnswerIff`, `ApprovalRuns.DecisionsAreFinal`, `ApprovalRuns.IrreversibleIsPaidFor`,
  `ApprovalRuns.ReversiblePaysIrreversibleIff`, `ApprovalRestarts.PaidForAcrossRestarts`,
  `ApprovalRestarts.BackIff`, `Presence.GuessRateBounded`, `Presence.GuessRateTight`,
  `Presence.TicketAcceptedIff`.
- Tasks: `Mediation.Registry.TraceMeaning`, `Mediation.ExecutionLevel`, `Mediation.Registry.CallRecorded`,
  `Budget.NothingUncounted`, `Budget.TreeWithinRoot`, `Budget.OvershootIsOneStep`, `Task.FinalIff`,
  `Reminders.ViewShape`, `Reminders.Reminder.NextTurn`.

## Assumptions

The hash of an event tells apart exactly the events that differ otherwise than by the order of members
in their payload, as a collision-free digest of canonical forms does (`Ledger.CanonicalFormsHash`);
the digest of a token is injective where a lemma says so, and signatures are a function of the token.
Identifiers, nonces and keys are new when given. Time is a parameter in nanoseconds since midnight UTC
of some day: the journal service dates its events in UTC, so their date is the quotient by a day
(`crates/ledger/src/bin/prophet-ledger.rs:162`). A line codec reads back what it wrote and writes no
end of line. Where the lemma asks for it, a fragment that begins as a line does, followed by a line,
does not read (revocations), and starts of lines one after the other read only when they are one whole
line (the journal); lines of JSON objects are so. Characters stand for bytes; which bytes are UTF-8 is
modelled for the register of revocations. Fractions and costs are reals.

## Where the code and its documentation differ

The model follows the code. For each point a lemma gives the exact condition, for all inputs, and
another shows an input at which it fails.

- `covers` promises that a parent accepts what its child accepts. For paths and programs it does not
  when the parent is the child followed by `/**` and the child ends in `/*` (`CoversIsInclusion`,
  `TrapEscapesTheCeiling`).
- A delegated token is said to be a subset of its parent; it outlives a parent that has less than a
  second left (`DelegatedOutlivesIff`, `ShortLivedParentIsOutlived`).
- A child may be allowed where its parent has to ask a human (`ParentAllowsIff`,
  `ChildAllowedParentAsksHuman`).
- The policy memo is said to reflect the facts the policies read; its key misses the confined utility
  (`DefaultEngineDeterminedIff`, `SecondCheckMisledIff`, `ForbiddenProgramPasses`).
- A revocation that answers success may not be inscribed: when it repeats one whose inscription
  failed, or follows a half-written line, which also stops the next start (`RevokeInscribesIff`,
  `HalfWrittenLineStopsTheService`).
- The last line of the register cut by a crash is said to be removed; when the cut falls inside a
  character the register is no text and the service does not start (`CrashConsistent`,
  `WholeWriteKeepsTheServiceIff`, `AsciiNeverRefused`).
- The approval queue is said to be saved after each change. A failed save is only logged, and a sweep
  that forgets decisions without an overdue request saves nothing: what was consumed or forgotten is
  then back after a restart (`BackIff`, `PaidForAcrossRestarts`, `FailedSavePaysTwice`).
- The chain is said to show any modification of an event. The order of the members of a payload is not
  hashed (`HeadsAgreeIff`, `ReorderedMembersVerify`).
- Reading from a number is said to give exactly what follows. When a reopening made numbers repeat, an
  event written over in the index is missed (`ReadSince`, `RepeatedIsMissed`).
- Reopening reads files in name order: the next number, the head and the tasks' first numbers are
  right only under a condition on dates (`ReopenedInOrderIff`, `ClockSteppedBack`).
- A permission given once for a reversible request pays for an irreversible one on the same call
  (`ReversiblePaysIrreversibleIff`, `ReversiblePermissionPaysIrreversible`).
- Decided approvals are kept for an hour counted from the request, not from the decision
  (`RetentionCountsFromCreation`).
- Ended tasks are said to be definitive; the daemon writes failures past transitions (`FinalIff`,
  `Conclude`).
- A cost cap that is exactly reached gives an uncapped child (`ChildCappedIff`, `ReachedCapIsLifted`).
- The approval class of sensitive writes never reaches a human, since the default policies forbid them
  first (`SensitiveWritesNeverReachAHuman`).

## Model

| member | source | states |
|---|---|---|
| Pattern.CoversIsInclusion | crates/prophet-types/src/pattern.rs:184-250 | Where a valid parent covers a valid child, every target the child accepts is accepted by the parent under every home, exactly when the pair is not the one shape named `GlobTrap` |
| Pattern.CoversSound | crates/prophet-types/src/pattern.rs:257-313 | One target at a time: covering, outside that shape, carries each match of the child over to the parent, for every family |
| Pattern.TrapBreaksInclusion | crates/prophet-types/src/pattern.rs:276-293 | In that shape, under every home, a target is built that matches the child and not the parent |
| Pattern.TrapsExist | crates/prophet-types/src/pattern.rs:98-115 | The shape exists among valid patterns |
| Pattern.DomainCoversSound | crates/prophet-types/src/pattern.rs:218-239 | Ports, leading wildcards and suffixes of hosts: covering is inclusion |
| Pattern.NameCoversSound | crates/prophet-types/src/pattern.rs:242-254 | Covering of dotted names composes with matching |
| PatternMeaning.TreeReaches | crates/prophet-types/src/pattern.rs:276-293 | A path followed by `/**` reaches that directory and everything below it, its home resolved |
| PatternMeaning.StarReachesOneLevel | crates/prophet-types/src/pattern.rs:276-293 | A path followed by `/*` reaches exactly what is one level below |
| PatternMeaning.PlainReachesItself | crates/prophet-types/src/pattern.rs:276-301 | Any other path reaches itself alone |
| PatternMeaning.HostReaches | crates/prophet-types/src/pattern.rs:304-318 | A host pattern reaches itself, or under a star the names ending in it, on its port if it gives one |
| PatternMeaning.NameReaches | crates/prophet-types/src/pattern.rs:242-254 | A name followed by `.*` reaches the name and every longer one after a dot |
| PatternMeaning.PathCoversIff | crates/prophet-types/src/pattern.rs:202-216 | A tree covers its directory and every text below it; a star covers everything |
| PatternMeaning.HostCovers | crates/prophet-types/src/pattern.rs:218-239 | What a host pattern covers, ports, stars and drivers included |
| PatternMeaning.ValidPathIff | crates/prophet-types/src/pattern.rs:98-115 | Which paths are valid: absolute or in the home, never climbing, a double star at most last |
| PatternMeaning.ValidHostIff | crates/prophet-types/src/pattern.rs:117-152 | Which hosts are valid: two names or more between dots, none empty, and a port of sixteen bits |
| PatternMeaning.DecimalReads | crates/prophet-types/src/pattern.rs:132-136 | Reading a number written in decimal gives it back |
| Cap.StrictnessComposes | crates/prophet-types/src/cap.rs:150-187 | Being at least as strict, over all ten constraints, is transitive |
| Cap.StricterSatisfiesMore | crates/prophet-types/src/cap.rs:191-212 | What satisfies the stricter constraints satisfies the looser ones, in every context |
| Cap.CallsNarrow | crates/prophet-types/src/cap.rs:191-212 | A bound on calls lets through exactly the calls that come after fewer than that many |
| Cap.LevelNarrows | crates/prophet-types/src/cap.rs:191-212 | A level lets through exactly the calls from a sandbox at least as strong |
| Cap.BytesNarrow | crates/prophet-types/src/cap.rs:191-212 | A bound on bytes stops exactly the calls that say they are larger |
| Cap.FieldNarrows | crates/prophet-types/src/cap.rs:191-212 | A list of values stops exactly the calls with another value in that field |
| Cap.EachBoundIsKept | crates/prophet-types/src/cap.rs:150-187 | Being as strict means keeping each bound on calls, bytes, tokens and depth, no larger |
| Cap.EachOtherBoundIsKept | crates/prophet-types/src/cap.rs:150-187 | Likewise for bytes out, rates and children |
| Cap.LevelAndApprovalAreKept | crates/prophet-types/src/cap.rs:150-187 | Likewise for the level, no lower, and for a human to be asked |
| Cap.EachListIsKept | crates/prophet-types/src/cap.rs:150-187 | Likewise for each list of allowed values, no longer |
| Cap.InclusionPermitsMore | crates/prophet-types/src/cap.rs:267-274 | Whatever some child grant permits some parent grant permits, if every child grant is covered by some parent grant otherwise than by the one trapped shape |
| Cap.StaysWithinIff | crates/prophet-types/src/cap.rs:267-274 | A grant that some call can meet and an unconstrained ceiling covers permits nothing beyond it, for every target and home, exactly when it is covered otherwise than by the trapped shape alone |
| Cap.FindGrant | crates/prophet-types/src/cap.rs:498-524 | The loop with its flag computes the search function, first decisive grant and constraint failures included |
| Cap.FindGrantMeaning | crates/prophet-types/src/cap.rs:498-524 | The answer is that of the first grant that asks a human or grants; with none, constraint violated exactly when some concerned grant failed |
| Cap.FindGrantDecides | crates/prophet-types/src/cap.rs:498-524 | The search decides by the first grant that permits the call or asks a human for it; otherwise it tells apart no grant and a failed constraint |
| Cap.BuiltIff | crates/prophet-types/src/cap.rs:591-612 | A token is built exactly with a time to live and valid grants; it says what was asked and is signed over everything else |
| Cap.AllowMeansPermitted | crates/prophet-types/src/cap.rs:508-518 | An Allow names a grant that concerns the call, asks no approval and has its constraints satisfied |
| Cap.SearchAllowIff | crates/prophet-types/src/cap.rs:498-524 | The search allows exactly when some grant is satisfied and none before it asks a human |
| Cap.ParentAllowsIff | crates/prophet-types/src/cap.rs:508-513 | Where a child is allowed its parent is allowed too exactly when none of its grants asks a human before the first satisfied one, and otherwise asks a human |
| Policy.AutomaticIff | crates/capd/src/policy.rs:17-116 | Exactly which requests the default policies and the action classes let through without a human |
| Policy.PermittedIff | crates/capd/src/policy.rs:17-70 | What the default policies permit, pair by pair |
| Policy.AskedOfAHumanIff | crates/capd/src/policy.rs:299-309 | Which calls are left to a human whatever the policies say |
| Policy.SensitiveIff | crates/capd/src/policy.rs:134-157 | Files and programs are sensitive exactly in or below the thirteen protected places, under every home |
| Policy.ConfinedIff | crates/prophet-types/src/exec.rs:10-21 | Executions of confined utilities are exactly those of the twelve names |
| Policy.SensitiveWritesNeverReachAHuman | crates/capd/src/policy.rs:299-309 | The class of sensitive writes is always forbidden by the default policies |
| Policy.ActionNameRoundTrip | crates/capd/src/policy.rs:267-297 | A capability key parses to a pair exactly when it is that pair's action name |
| PolicyCache.MemoAgrees | crates/capd/src/broker.rs:393-418 | After any run of questions the service can ask and of policy replacements, an answer determined by its key is the engine's |
| PolicyCache.MemoTransparentIff | crates/capd/src/broker.rs:124-131 | For every engine, memoisation is invisible for a question in every run of questions the service can ask exactly when the key determines the answer among them |
| PolicyCache.DefaultEngineDeterminedIff | crates/capd/src/policy.rs:17-70 | With the default policies that fails exactly for execution below level 2 on a target that is not sensitive; the question that disagrees is about another program |
| Delegation.Attenuation | crates/capd/src/broker.rs:198-265 | At any depth, what a token's grants permit some grant of the root's ceiling permits |
| Delegation.RecordKeepsForest | crates/capd/src/broker.rs:228-265 | Recording a minted or delegated token keeps the registry a forest ranked by issuance |
| Delegation.RecordKeepsKeyed | crates/capd/src/broker.rs:250-265 | The registry keyed by digest stays exactly the issued tokens |
| Delegation.DepthBounded | crates/capd/src/broker.rs:267-280 | If no issued spawn grant goes above some d of at least 3, no token is deeper than d |
| Delegation.MaxDepthIs | crates/capd/src/broker.rs:239-250 | The bound on depth is that of the first grant to spawn tasks, three by default |
| Delegation.DepthIsChainLength | crates/capd/src/broker.rs:267-280 | The depth of an issued token is the length of its one complete chain of parents |
| Delegation.RevocationReachesSubtree | crates/capd/src/broker.rs:283-312 | A revoked subject anywhere in a chain of parents makes the ancestor walk refuse the token |
| Delegation.CutHasCulprit | crates/capd/src/broker.rs:295-312 | An issued token is cut only if its own chain really holds a revoked subject |
| Broker.DelegatedOutlivesIff | crates/capd/src/broker.rs:241-263 | A child outlives its parent exactly when the parent has less than a second left; otherwise it is a subset of it |
| Broker.DelegatedIff | crates/capd/src/broker.rs:228-265 | Exactly when a delegation succeeds, in what order it is refused otherwise, and what its child says |
| Broker.ShortLivedParentIsOutlived | crates/capd/src/broker.rs:252-258 | Every valid token that may still delegate and has less than a second left is outlived by a child with all its rights |
| Broker.Granted | crates/capd/src/broker.rs:206-217 | Minting grants exactly the requested grants that the manifest ceiling covers |
| Broker.CeilingIs | crates/capd/src/broker.rs:198-217 | The ceiling is exactly the patterns of the manifest under the pairs its keys name; the first other key is refused |
| Broker.MintedIff | crates/capd/src/broker.rs:198-225 | Exactly when a token is minted, and what it says |
| Broker.MintStaysWithinIff | crates/capd/src/broker.rs:198-225 | What a minted token permits stays within its manifest ceiling, for every call and home, exactly when none of its rights was obtained by the trapped shape alone |
| Broker.AllowPassedEveryGate | crates/capd/src/broker.rs:321-366 | An Allow means version, signature, ancestors, expiry, policy and class all passed, and a grant permits it |
| Broker.AllowedIff | crates/capd/src/broker.rs:321-366 | A call is allowed exactly when the token is valid, signed, neither revoked nor over, the policy permits it, its rights allow it and no human is to be asked |
| Broker.RefusedBy | crates/capd/src/broker.rs:321-366 | Otherwise it is refused by the first of these gates, in order |
| Broker.SecondCheckMisledIff | crates/capd/src/broker.rs:393-434 | Of two successive checks the second is answered otherwise than the default policies say exactly for two executions below level 2, declared alike, on a confined utility and another program, neither sensitive |
| Broker.ForbiddenProgramPasses | crates/capd/src/broker.rs:321-366 | After a check of a confined utility, a program the policies forbid gets the decision of the token's grants |
| Broker.Broker.Mint | crates/capd/src/broker.rs:198-225 | Issues the token the mint function gives and records it, or changes nothing |
| Broker.Broker.Delegate | crates/capd/src/broker.rs:228-265 | The same for a delegation by a known parent, with its depth |
| Broker.Broker.DepthOf | crates/capd/src/broker.rs:267-280 | The walk terminates and returns the depth in the forest of issued tokens |
| Broker.Broker.HasRevokedAncestor | crates/capd/src/broker.rs:295-312 | The loop decides exactly whether the token or an ancestor is revoked, an unknown parent counting as revoked |
| Broker.Broker.SignatureIsValid | crates/capd/src/broker.rs:370-390 | The memoised signature answer is the verification's, in every state |
| Broker.Broker.PolicyAllows | crates/capd/src/broker.rs:393-418 | Answers and remembers as the memo model does |
| Broker.Broker.Check | crates/capd/src/broker.rs:321-366 | The whole check computes the decision function from the signature, the forest, the revoked set and the memo; under the default policies nothing protected is ever allowed, whatever the token and whatever was asked before |
| Revocations.Register.Ouvrir | crates/capd/src/revocations.rs:40-80 | Reads the complete lines in order and drops a torn end from the file; refuses a file that is not UTF-8 or whose first unreadable line it names, leaving it alone |
| Revocations.Register.Inscrire | crates/capd/src/revocations.rs:84-104 | Appends one whole line, or its first bytes when the write fails, and says which |
| Revocations.CrashConsistent | crates/capd/src/revocations.rs:40-104 | Whatever writes are cut at whatever byte, the register opens after each exactly when no cut fell inside a character; opening then finds exactly the completely written subjects in order, and the file ends at a line |
| Revocations.AsciiNeverRefused | crates/capd/src/revocations.rs:40-104 | With lines in ASCII the register opens after every sequence of cut writes |
| Utf8.CutIff | crates/capd/src/revocations.rs:40-44 | The start of a UTF-8 text is one exactly when the cut falls between two characters |
| Utf8.TextIff | crates/capd/src/revocations.rs:40-44 | Bytes are a UTF-8 text exactly when they are the codes of some characters, one after the other |
| Revocations.InscriptionReadsIff | crates/capd/src/revocations.rs:84-104 | In a register that reads and stands at a line or after the start of one, a new line is read back as itself, or reads at all, exactly when the file stood at a line boundary |
| Capd.PermanentRevocation | crates/capd/src/bin/prophet-capd.rs:460-470 | Once inscribed, a subject is refused with its whole subtree in every later state, failed writes, crashes and restarts included, unless the service is down because its register no longer reads |
| Capd.RevokeInscribesIff | crates/capd/src/bin/prophet-capd.rs:266-287 | In every state a run can reach, a revocation that answers success is inscribed exactly if its subject is new in this process and the register reads and ends at a line, or if it already was |
| Capd.RestartForgetsTheRest | crates/capd/src/bin/prophet-capd.rs:463-470 | A restart succeeds exactly when the register reads, and then the revoked subjects are exactly the inscribed ones |
| Capd.IssuedIsRecorded | crates/capd/src/broker.rs:198-265 | A minted or delegated token is put on record under its ceiling or parent, and nothing else changes |
| Capd.HalfWrittenLineStopsTheService | crates/capd/src/revocations.rs:97-104 | An inscription cut in the middle of its line, the service living on, followed by a successful one leaves a register with which the service cannot start |
| Capd.WholeWritesKeepTheService | crates/capd/src/revocations.rs:40-104 | In a run where no write stops in the middle of a line, crashes between two characters excepted, the service always starts again |
| Capd.WholeWriteKeepsTheServiceIff | crates/capd/src/revocations.rs:40-104 | One step keeps the register readable and at a line exactly when it is such a write or writes nothing |
| Capd.AllowWithinCeiling | crates/capd/src/broker.rs:321-366 | In every run where no right was obtained by the trapped shape alone, an allowed call of a token at any depth is permitted by its root's manifest ceiling, in the same context and without approval |
| Capd.TrapEscapesTheCeiling | crates/capd/src/broker.rs:206-217 | One minting under a ceiling of the trapped shape, then a call the default policies and the token allow and no ceiling grant permits |
| Capd.DepthWithin | crates/capd/src/broker.rs:239-250 | Over every run, requested spawn bounds of at most d bound every depth by d |
| Approvals.Queue.Request | crates/capd/src/approvals.rs:225-271 | Answers from a standing rule, else by consuming the oldest one-time decision on the same call, else waits |
| Approvals.Queue.OldestOnce | crates/capd/src/approvals.rs:247-262 | The loop finds a one-time decision on this call older than or as old as every other, if there is one |
| Approvals.Queue.Resolve | crates/capd/src/approvals.rs:301-343 | Moves one pending request to its decision and makes the rule its scope asks for, never a standing permission for an irreversible one |
| Approvals.Queue.Expire | crates/capd/src/approvals.rs:354-372 | Removes exactly the overdue requests and the decisions past retention |
| ApprovalRuns.StandingAnswerIff | crates/capd/src/approvals.rs:117-271 | In every run, a request is answered at once without consuming a decision exactly when an earlier human decision for its task or agent, on the same action and target, not over and not removed, speaks for it; the answer is such a decision's |
| ApprovalRuns.NotOverruled | crates/capd/src/approvals.rs:232-243 | While no rule is removed, the oldest standing decision that speaks for a request answers it |
| ApprovalRuns.OneTimeAnswerIff | crates/capd/src/approvals.rs:244-271 | Where no rule answers, a request consumes the oldest one-time decision on the same call, or waits a day |
| ApprovalRuns.LeavesQueueIff | crates/capd/src/approvals.rs:301-372 | A request leaves the queue exactly when it is decided or swept a day after it was made |
| ApprovalRuns.OnceLeavesIff | crates/capd/src/approvals.rs:247-359 | A one-time decision leaves exactly when it is consumed or swept an hour after its request |
| ApprovalRuns.ReasonIs | crates/capd/src/approvals.rs:277-287 | A reason is kept without the blanks around it, cut at four hundred characters |
| ApprovalRuns.DecisionsAreFinal | crates/capd/src/approvals.rs:225-391 | Over every run an identifier goes from pending to at most one decision, which never changes, or is forgotten for good |
| ApprovalRuns.IrreversibleIsPaidFor | crates/capd/src/approvals.rs:225-271 | In every run, on every call, irreversible requests allowed at once never outnumber the one-time permissions a human gave on that call |
| ApprovalRuns.IrreversiblePaidByItsOwn | crates/capd/src/approvals.rs:247-262 | They never outnumber those given for irreversible requests where none is given for a reversible one |
| ApprovalRuns.IrreversibleAllowedIff | crates/capd/src/approvals.rs:243-262 | An irreversible request is allowed at once exactly when no rule answers and the oldest one-time decision kept for the call is a permission |
| ApprovalRuns.ReversiblePaysIrreversibleIff | crates/capd/src/approvals.rs:247-262 | It is paid by a permission given for a reversible request exactly when that one is the oldest kept and no rule answers |
| ApprovalRuns.IrreversibleConsumesOnePermission | crates/capd/src/approvals.rs:232-262 | Such a request consumes one one-time permission of the same call and no standing rule |
| ApprovalRuns.ConsumedOnce | crates/capd/src/approvals.rs:247-262 | Within one run of the service, a consumed or forgotten one-time decision never comes back |
| ApprovalRuns.StandingAllowIsReversible | crates/capd/src/approvals.rs:312-343 | No standing permission is born from an irreversible request |
| ApprovalRuns.RetentionCountsFromCreation | crates/capd/src/approvals.rs:354-359 | Whether a decision is still kept depends on when the request was made, not on when it was decided |
| ApprovalRestarts.BackIff | crates/capd/src/bin/prophet-capd.rs:34-40 | A decision that left the queue, consumed or forgotten, is in the copy a restart loads exactly when it was there and no save succeeded since |
| ApprovalRestarts.PaidForOrAgain | crates/capd/src/approvals.rs:182-215 | Over every life of the service, irreversible requests allowed at once on a call never outnumber the one-time permissions given on it plus the times a spent one was consumed again |
| ApprovalRestarts.PaidForAcrossRestarts | crates/capd/src/bin/prophet-capd.rs:34-40 | They never outnumber the permissions alone when no restart follows a failed last save |
| ApprovalRestarts.FailedSavePaysTwice | crates/capd/src/bin/prophet-capd.rs:34-40 | For every irreversible request, one failed save then a restart lets one permission be consumed twice |
| Presence.Proof.Compare | crates/capd/src/presence.rs:256-279 | Refuses without comparing while locked, counts failures, and locks at the fifth |
| Presence.Proof.Prove | crates/capd/src/presence.rs:223-240 | Draws a ticket for the account exactly on the right code |
| Presence.Proof.Validate | crates/capd/src/presence.rs:243-254 | Accepts exactly the account's own current ticket |
| Presence.Proof.Define | crates/capd/src/presence.rs:193-217 | Changes the code only with the old one or as administrator, and then drops every ticket |
| Presence.ProvesIff | crates/capd/src/presence.rs:223-279 | A ticket is drawn exactly on the current code while nothing is locked |
| Presence.ChangesIff | crates/capd/src/presence.rs:193-217 | Exactly when the code changes, and what a change drops |
| Presence.WrongTellsWhatIsLeft | crates/capd/src/presence.rs:256-279 | The number of tries left that a wrong code is told is exactly how many do not lock |
| Presence.LockedTellsTheTime | crates/capd/src/presence.rs:177-182 | A locked service tells the whole seconds left, one at least |
| Presence.GuessRateBounded | crates/capd/src/presence.rs:256-279 | Without the right code at most five comparisons per five minutes begun, and never five failures counted |
| Presence.GuessRateTight | crates/capd/src/presence.rs:256-279 | For every number of lock times some run of guesses reaches that bound |
| Presence.TicketsWereDrawn | crates/capd/src/presence.rs:223-254 | Every ticket held was drawn by a right code of that account, with no redefinition since |
| Presence.ValidTicketMeansRecentCode | crates/capd/src/presence.rs:243-254 | An accepted ticket means that account gave the right code less than ten minutes before |
| Presence.TicketAcceptedIff | crates/capd/src/presence.rs:223-254 | With a clock that never goes back, a ticket is accepted for an account exactly when its last drawing was by a right code of that account less than ten minutes before, with no redefinition since |
| Canon.SortedIff | crates/prophet-types/src/canon.rs:25-45 | Two values have the same sorted form exactly when they are equal up to member order at every depth |
| Canon.SortedIsSame | crates/prophet-types/src/canon.rs:25-45 | Sorting keeps every key and value and only orders members |
| Canon.SortedIdempotent | crates/prophet-types/src/canon.rs:25-45 | Sorting twice is sorting once |
| Canon.CanonicalIff | crates/prophet-types/src/canon.rs:49-61 | Canonical forms of objects agree exactly when what remains without the skipped root keys is equal up to order |
| Canon.SortValue | crates/prophet-types/src/canon.rs:25-45 | The recursive pass with its ordered map computes the sorted form |
| Canon.SortObject | crates/prophet-types/src/canon.rs:28-40 | Filling the map key by key gives the sorted members |
| Ledger.VerifyChain | crates/prophet-types/src/ledger.rs:387-412 | Accepts exactly the chained sequences and otherwise names the first event that does not fit |
| Ledger.ChainIs | crates/prophet-types/src/ledger.rs:387-412 | In a chain numbers count on from the first, each event carries its hash and names its predecessor's |
| Ledger.HarmlessIff | crates/prophet-types/src/ledger.rs:366-383 | A payload is refused exactly when some path through objects and lists leads to one of ten keys, in any case |
| Ledger.SealedIs | crates/prophet-types/src/ledger.rs:318-338 | A sealed event says what its draft says, at its place, under a hash of everything else |
| Ledger.HeadsAgreeIff | crates/prophet-types/src/ledger.rs:341-362 | Two verified chains have the same head exactly when they have the same length and say the same event by event, up to the order of members in payloads |
| Ledger.ReorderedMembersVerify | crates/prophet-types/src/ledger.rs:341-362 | Any payload stored with its members reordered leaves a different event, whose chain verifies with the same head |
| Ledger.CanonicalFormsHash | crates/prophet-types/src/canon.rs:49-61 | A collision-free digest of canonical forms identifies exactly the events equal up to member order |
| Ledger.ChainGrows | crates/prophet-types/src/ledger.rs:318-338 | Sealing a draft after a chain gives a chain whose head is the new event's hash |
| DayFiles.ReadFrom | crates/ledger/src/store.rs:347-371 | Reading lines from a byte gives their events, blank lines skipped, or the first bad line's number |
| DayFiles.DayIs | crates/ledger/src/store.rs:210-218 | An instant is on the day whose 86,400 seconds hold it |
| DayFiles.SeekReads | crates/ledger/src/store.rs:276-291 | From the byte where a day's m-th event starts one reads exactly the events from the m-th on |
| DayFiles.FilesGrow | crates/ledger/src/store.rs:242-267 | Appending a line to one day file keeps the files the log, day by day |
| DayFiles.FileOrderPermutes | crates/ledger/src/store.rs:157-165 | Reading the files in name order gives the events of the log, each as often |
| Views.SortedOneWay | crates/ledger/src/store.rs:335-342 | Events told apart by their numbers can be sorted by number in one way only |
| Views.SortIsStable | crates/ledger/src/store.rs:335-342 | Events of the same number stay in their order |
| Views.KindsNarrow | crates/ledger/src/store.rs:56-74 | A filter by kinds accepts exactly the events of those kinds among what it accepts without |
| Views.TaskNarrows | crates/ledger/src/store.rs:56-74 | Likewise for a task |
| Views.BoundsNarrow | crates/ledger/src/store.rs:56-74 | Likewise for both bounds, each included |
| Views.MissingBoundIsNone | crates/ledger/src/store.rs:56-74 | A missing bound is no bound |
| Views.NoConditionKeepsAll | crates/ledger/src/store.rs:56-74 | Without conditions everything is accepted |
| Views.ReadOrderIsWriteOrder | crates/ledger/src/store.rs:335-342 | Whatever the dates, a log written in number order is read back in the order it was written |
| Reopening.ReopenFindsTheEndIff | crates/ledger/src/store.rs:192-199 | Reopening finds the next number exactly when no event is dated after the last one's day, and otherwise a number already given |
| Reopening.ReopenFindsTheStartIff | crates/ledger/src/store.rs:192-194 | Reopening finds where a task starts exactly when no event of it is dated of an earlier day than its first |
| Reopening.DatedInOrderReopensSame | crates/ledger/src/store.rs:167-208 | When dates never go back a day, name order is write order |
| Store.IndexOneWay | crates/ledger/src/store.rs:190-191 | With distinct numbers there is one table of places, byte offsets included, so in-run and rebuilt tables are equal |
| Store.IdemsOneWay | crates/ledger/src/store.rs:195-197 | Likewise for the table of idempotence keys, for any dates |
| Store.LinesOneWay | crates/ledger/src/store.rs:180 | Likewise for the line counts |
| Store.TablesGrow | crates/ledger/src/store.rs:242-267 | Writing one line keeps files and all tables in agreement, whatever the date |
| Store.OrderGrows | crates/ledger/src/store.rs:233-239 | Numbers, links, head and tasks' first numbers stay right after an append |
| Store.ReopenedInOrderIff | crates/ledger/src/store.rs:167-208 | A reopened store of a whole chain is in order exactly when the last event is of the latest day and every task starts on its earliest day; otherwise the next number may repeat one |
| Store.ClockSteppedBack | crates/ledger/src/store.rs:192-199 | Any two events, the second dated of an earlier day, written to an empty journal: reopening gives a number already given |
| Store.Store.RebuildIndex | crates/ledger/src/store.rs:167-208 | Fails exactly on a bad line, which it names; on files a store wrote it makes every table agree with them and remembers what a scan in name order leaves |
| Store.Store.RebuildDay | crates/ledger/src/store.rs:169-205 | The same for one file, line by line and byte by byte |
| TornJournal.DayReadsIff | crates/ledger/src/store.rs:167-208 | After any sequence of writes cut at any byte, a day file reads exactly when each left nothing or a whole line, but for a last one that may lack its end; it then gives the events whose line reached it |
| TornJournal.OpensAgainIff | crates/ledger/src/store.rs:242-267 | The journal opens again exactly when that holds of every day |
| Store.Store.WriteLine | crates/ledger/src/store.rs:242-267 | Appends the event to its day's file and enters it in every table, keeping the invariant |
| Store.Store.Append | crates/ledger/src/store.rs:227-240 | A known key changes nothing and returns the event the index has under its number, which carries the key exactly if the key's event stands there, as it does when numbers are distinct; a refused payload changes nothing; anything else is sealed, numbered, linked and written once |
| Store.Store.EventAt | crates/ledger/src/store.rs:276-291 | A number in the index is read straight from its byte as an event with that number |
| Store.Store.MaybeSeal | crates/ledger/src/store.rs:307-329 | Seals exactly when due; the seal names its predecessor's number and hash, signed by the store's own key, and resets the count |
| Store.Store.ReadAll | crates/ledger/src/store.rs:335-342 | All events, sorted by number |
| Store.Store.ReadSince | crates/ledger/src/store.rs:347-371 | Seeking in each file gives, in number order, exactly the events the index leads to: those from the number on that stand in their day at or after the first line a number from it on leads to; with distinct numbers all events from it on |
| Store.RepeatedIsMissed | crates/ledger/src/store.rs:190-191 | Writing a number again on another day makes the reader miss its earlier event, unless the day of that one has a higher number |
| Store.SelectedDaysSorted | crates/ledger/src/store.rs:360-370 | Sorting what the concerned days give is the end of the full reading |
| Store.StartSelects | crates/ledger/src/store.rs:351-368 | A day read from its lowest indexed line loses no event of the wanted numbers |
| Store.StartStands | crates/ledger/src/store.rs:351-362 | An indexed place is where some event of its day starts, even when numbers repeat |
| Store.Store.Query | crates/ledger/src/store.rs:377-395 | Every event returned is of the task, of the kinds and within the bounds asked; whatever the numbers, the answer is exactly the accepted events that reading from its starting number comes across, in number order, cut to the limit; in a whole chain, whatever the dates, all that are of the task, of the kinds and within the bounds |
| Store.ReachesAllIff | crates/ledger/src/store.rs:379-385 | A query that starts at a number misses nothing exactly when no accepted event has a lower one |
| Store.OrderedReachesAll | crates/ledger/src/store.rs:379-385 | In a whole chain no accepted event is below the number a query starts from |
| Store.Store.Verify | crates/ledger/src/store.rs:401-443 | Reports ok exactly when the chain holds and, with a sealer, every seal is well signed; with only its own seals it reports ok and their exact number |
| Store.KeysAreTheTable | crates/ledger/src/store.rs:271-273 | A key is in the table exactly when an event of the log carries it |
| Outbox.Queue.Record | crates/agentd/src/runtime.rs:983-1006 | Queues under the given key, the oldest leaving when ten thousand wait |
| Outbox.StepKeepsFaithful | crates/agentd/src/bin/prophet-agentd.rs:1721-1775 | No step writes a key twice or an event that differs from what was recorded |
| Outbox.StepKeepsNothingLost | crates/agentd/src/bin/prophet-agentd.rs:1721-1775 | No step loses a saved key that is not settled |
| Outbox.ExactlyOnce | crates/agentd/src/runtime.rs:464-512 | Over every interleaving of loss, repetition and restarts: no key twice, task, step, actor, kind and payload as recorded, a saved key still queued unless written, refused or dropped, so exactly once when the queue is empty |
| Outbox.NothingDroppedBelowTheBound | crates/agentd/src/runtime.rs:991-1000 | The bound drops nothing in a run where fewer than ten thousand events ever wait |
| Outbox.RecordedWaits | crates/agentd/src/runtime.rs:983-1006 | A recorded event waits last under its key; beyond ten thousand the oldest goes |
| Outbox.SavedIsTakenUp | crates/agentd/src/runtime.rs:464-512 | A saved queue is taken up as it was at the next start |
| Outbox.RoundTripSettles | crates/agentd/src/bin/prophet-agentd.rs:1721-1775 | A sending that arrives and is answered takes its event off the queue, written exactly once with its contents, or refused for its payload |
| Mediation.Registry.Call | crates/mcp-system/src/registry.rs:312-329 | Keeps to the protocol; once a record failed nothing is done any more; a tool ran only if the authority lets the call |
| Mediation.Registry.CallRecorded | crates/mcp-system/src/registry.rs:331-444 | One call follows the protocol from record to result, and its result is its fate; the tool runs exactly when the authority lets it, and each access it asks for is answered by two checks made then |
| Mediation.Registry.RunTool | crates/mcp-system/src/registry.rs:144-167 | While a tool runs, the trace holds exactly its rechecks, and an access is allowed exactly if the call and the path both are at that moment |
| Mediation.Registry.Attend | crates/mcp-system/src/registry.rs:518-568 | Waiting for a decision explains once if a reason is given, then polls, at most twice a second and once, and returns the state of the first poll that is not pending or comes after the time |
| Mediation.Registry.Authorize | crates/mcp-system/src/registry.rs:570-644 | Makes the two checks in order, on the call and on what is touched, nothing else, and decides the fate of the call or leaves it to the human |
| Mediation.RunsIffLets | crates/mcp-system/src/registry.rs:380-444 | A call runs exactly when the authority lets it |
| Mediation.CheckableIff | crates/mcp-system/src/registry.rs:578-594 | Exactly when a call can be checked at all |
| Mediation.ChecksAre | crates/mcp-system/src/registry.rs:599-644 | What the two checks are about, with the effects the tool declares |
| Mediation.TargetIsNeeded | crates/mcp-system/src/registry.rs:611-621 | A call on a resource without a target, or with a blank one, is refused; otherwise its second check decides |
| Mediation.ToldIff | crates/mcp-system/src/registry.rs:144-167 | What a tool is told of its accesses: yes exactly when the call and the path were both allowed at that moment |
| Mediation.ExecutionLevel | crates/mcp-system/src/registry.rs:622-644 | An execution is judged at no lower level than the mission's or the one asked and no higher than needed; the default policies then permit every program that is not protected |
| Mediation.UtilityStays | crates/mcp-system/src/tools/system.rs:24-27 | A confined utility for which no level is asked is judged at the mission's |
| Mediation.TimeoutIs | crates/mcp-system/src/registry.rs:518-568 | The time waited is what is asked, between one and forty-five seconds |
| Mediation.Registry.Approbation | crates/mcp-system/src/registry.rs:451-512 | A human Allow clears the call, a pending question is recorded and closes it, anything else refuses it by the policy |
| Mediation.Registry.TraceMeaning | crates/mcp-system/src/registry.rs:312-512 | Between calls, over any run: the journal holds whole calls unless a record failed, which was then the last thing done, and every tool that ran was recorded and cleared first |
| Mediation.RunsOnlyWhenCleared | crates/mcp-system/src/registry.rs:380-444 | A tool runs only right after its recorded call and its required checks, all allowed, or the last one left to a human who allowed it |
| Mediation.BeforeARun | crates/mcp-system/src/registry.rs:380-444 | The entries just before a run, one by one: the taken record, the allowed checks, or the human's word on the last |
| Mediation.FailedRecordIsLast | crates/mcp-system/src/registry.rs:319-328 | Nothing at all follows a record the journal did not take |
| Mediation.JournalIsWords | crates/mcp-system/src/registry.rs:331-512 | What the journal took is whole calls, each with at most one refusal or question, then at most the start of one |
| Budget.NothingUncounted | crates/agentd/src/budget.rs:243-249 | A budget's spending is exactly what the whole tree of sub-tasks did, on tokens, steps, approvals and cost |
| Budget.ExhaustedIff | crates/agentd/src/budget.rs:167-193 | A task may go on exactly while no dimension is used up; what stops it is the first that is |
| Budget.ReserveIs | crates/agentd/src/budget.rs:224-240 | A sub-task starts with nothing spent and the whole part of its share of what is left, on every dimension |
| Budget.AbsorbIs | crates/agentd/src/budget.rs:243-249 | A sub-task's time is not added to its parent's, and of two quotas the higher counts |
| Budget.TimeIsItsOwn | crates/agentd/src/budget.rs:243-249 | A budget's time is its own task's last one, whatever its sub-tasks took |
| Budget.TreeWithinRoot | crates/agentd/src/budget.rs:224-249 | If every task stays within its own limits, the tree stays within the root's |
| Budget.OvershootIsOneStep | crates/agentd/src/budget.rs:167-193 | If nothing starts once a dimension is exhausted, the whole tree overshoots its root by at most one step's tokens and cost, and steps and approvals never |
| Budget.OneStepMayOvershoot | crates/agentd/src/task.rs:234-247 | That overshoot happens |
| Budget.ChildCappedIff | crates/agentd/src/budget.rs:224-240 | A child has a cost cap exactly when some cost is left and some share is given |
| Budget.ReachedCapIsLifted | crates/agentd/src/budget.rs:180-182 | A parent whose cost cap is just reached gives a child that may spend without bound within its own limits |
| Task.FinalIff | crates/agentd/src/local.rs:535-551 | A history as the daemon leaves it is final, nothing following an end but a rollback, exactly when no failure was written directly or one only on a task that had not ended |
| Task.LegalIsFinal | crates/agentd/src/task.rs:48-66 | Transitions alone make final histories |
| Task.ReachedFrom | crates/agentd/src/task.rs:48-71 | From where each state is reached |
| Task.TerminalIff | crates/agentd/src/task.rs:39-44 | A state is an end exactly when only a rollback follows it |
| Task.ActiveWasPlanned | crates/agentd/src/task.rs:48-66 | Whatever is neither pending, failed nor cancelled was planned first and ran next, direct failures or not |
| Task.Task.SpawnChild | crates/agentd/src/task.rs:188-209 | Succeeds exactly above the depth limit, and the child's budget is reserved from the parent's |
| Task.Task.Transition | crates/agentd/src/task.rs:215-228 | Moves exactly along allowed transitions, and never after a direct failure |
| Task.Task.Conclude | crates/agentd/src/local.rs:514-551 | One transition, then a direct failure if the last record was refused: a running mission keeps a final history exactly if it was taken |
| Task.Task.FailAtRestart | crates/agentd/src/bin/prophet-agentd.rs:2758-2775 | Fails missions under way at a restart, which keeps their history final, and makes it one of transitions only if they were not paused |
| Task.Task.AbsorbUsage | crates/agentd/src/task.rs:178-182 | Adds a sub-task's account model by model |
| Task.Task.AbsorbChild | crates/agentd/src/runtime.rs:585-594 | Charges a sub-task's budget and account to its parent |
| Task.Family.LinkChild | crates/agentd/src/runtime.rs:555-582 | Links a known child under a known parent that is not too deep, or changes nothing |
| Task.LinkKeepsRanksIff | crates/agentd/src/runtime.rs:555-582 | Linking keeps depths right exactly when the child is not its own parent and its own children already fit its new depth |
| Task.DepthIsChainLength | crates/agentd/src/task.rs:137-209 | The recorded depth is the number of parents above, at most three |
| Reminders.ViewShape | crates/agentd/src/livrables.rs:274-285 | A view is the history in order, each message moved by two per earlier insertion, and each insertion where it was made |
| Reminders.ViewGrows | crates/agentd/src/livrables.rs:274-285 | With a growing history a view starts every later view |
| Reminders.Reminder.BuildView | crates/agentd/src/livrables.rs:274-285 | The loop computes the view |
| Reminders.Reminder.NextTurn | crates/agentd/src/livrables.rs:293-318 | Terminates, asks at most once more than the reminders left, keeps every view a prefix of the next, counts all tokens, inserts each early conclusion with the reminder of its rank and of what was missing, and returns a conclusion only when nothing is missing or no reminder is left |

## Left out

- Sockets, HTTP, proxies, sandboxes, browser control, SQLite memory, rendering, messages, tracing and manifest syntax: plumbing without run-level properties.
- Cryptography and Cedar: signatures, digests and seals are functions with the stated assumptions, the default policies a decision function.
- Input and output errors other than writes cut short: what the running store answers after a failed write is not modelled, only what reopening finds (`TornJournal`); power loss is not modelled.
- Integer widths and saturation: counters are unbounded, fractions and costs are reals rather than 64-bit floats.
- Text as Unicode: outside the register of revocations, characters stand for bytes, so a journal line cut inside a character counts as one that does not read; white space is ASCII, and day files are integers instead of dated names (years of four digits).
- Threads: each public call is one atomic step; only the queue between agentd and the journal is interleaved.
- Store.Store.Query: when an out-of-order reopening made numbers repeat, accepted events may be missed, as in the code; `IsAnswer` and `FoundFrom` say which.
- Store.Store.Verify: a seal is checked with the key it carries and its head is not compared with the chain, as in the code, so no claim is made against a full rewrite.
- Capd.AllowWithinCeiling: asks that ceilings are well formed and that no right is covered by the trapped shape alone, which `TrapEscapesTheCeiling` shows is needed.
- Mediation.Registry.CallRecorded: the authority answers as a function during one call, by rank for rechecks and polls; what a tool does with its answers and the texts of results are not modelled.
- Budget.OvershootIsOneStep: assumes that steps and sub-tasks start only when the budget is not exhausted and that children are charged back one after the other; the mission loop that does so is not part of this model.
- Outbox.ExactlyOnce: keys are new when given and used by one emitter; the order in which events reach the journal is not claimed.
- ApprovalRestarts: the encoding of the saved queue; a save is the old queue or the new one, and a damaged file, which stops the start, is not modelled.
- Task.Task.Conclude: the texts of reasons, and which record was refused; other direct failures (panics, launches not persisted) are `FailDirectly`, whose histories `FinalIff` covers.
- Presence: the stored fingerprint's file and its salted derivation; the code itself stands for it.
- The store's summaries, subscriptions and batches, the registry's list of visible tools, budget warnings, model shares, and the choice of deliverables from an objective: easy members.
