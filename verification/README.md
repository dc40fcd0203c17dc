# atoms: a verification model

atoms is a crash-recoverable engine for transactions over several files. A transaction is recorded in a
SQLite store (a record, per-effect journals, write-once digests, one `active` slot, trigger gates) and in a
hash-linked directory of chain entries (genesis, intent, registered, settled). Execution, commit and recovery
write the two alternately, and a crash can fall between any two writes. This project models those two
substrates and the machinery around them, and proves what they promise together.

`dafny verify dfyconfig.toml` checks everything.

## The parts

**The crash protocol.** `ChainModel` holds entries, envelopes, digests and histories; a digest is the
constructor `Sha256` applied to a file's content, so it is injective and nothing else is assumed of it.
`ChainRules` says what a well-formed history is. `ChainDisk` is the chain directory as a disk: directory
operations take effect at once in the view and become durable at a directory flush; a power loss keeps any
subset of the unflushed operations and makes unflushed file content arbitrary. `RecordStore` has the
transaction record, the write triggers as guarded setters and the derivation of repairs. `Protocol` puts disk,
store and process phase into one step relation, with process exit, background write-back and power loss enabled
between any two steps. `Agreement`, `ProtocolSafety` and `ProtocolTheorems` prove the invariant over all runs;
`Convergence` proves that reconciliation, however often interrupted, reaches one goal. `UnflushedRecovery` proves
exactly where recovery may be entered, `BrokenRuns` reaches each forbidden place from a fresh engine, and
`ProcessExits` covers the runs in which processes die but the power does not fail. `CompleteRuns` shows that
nothing gets stuck: an admissible transaction can commit, and every crash short of a halt can come to rest.
`Inspect`, `EntryClasses` and `ChainDirectory` are the imperative validation and append code, proved against the
same histories, and `ChainMeaning` says what the entry-class rules demand position by position.

**The compiler and the approval over resolved directories.** `Effects` gives the effect set its meaning by
execution. `Timeline` proves that checks made path by path decide the global execution. `PathTrie` and
`SurfaceTree` prove the trie walks equal to the pairwise rules. `Topology` builds the parent tree of resolved
directories and re-derives the same rules from it. `Judgment` and `TreeConsistency` prove that every
intermediate state is a tree. `Compiler` joins them.

**Stateful supports.** `MetadataStore` (the poisoned, barriered write transaction and the blob index),
`RootLifecycle` (the root lifecycle and operation triggers), `Descriptors` (the held descriptor table and its
resumed walk), `CopyTree` (the resumable copy), `BuildRelation` (the chunked comparison), and the codecs
`Numerals`, `Base64` and `EntryCodec`, with `WireForm` giving the written form itself.

## What was found

*Recovery trusts what it can see.* Call a state *quiet* when no digest name in the chain directory is unflushed
and staged bytes, if they are exactly the envelope recovery would append there, are flushed. Any other staged
bytes, such as a half-written survivor, do not matter. The safety and convergence theorems hold for all runs in
which recovery is entered in quiet states; every power loss leaves one
(`PowerLossIsQuiet`), and so does a process that dies with its envelope half written (`HalfWrittenIsQuiet`). They fail otherwise, in three ways, each after a process that died without a power loss:

- It had renamed its registration or settlement and not flushed the directory. The next reconciliation binds the
  digest it sees without a flush (`python/src/atoms/coordinator/recover.py:258-292`); a power loss takes the
  entry and leaves the binding, and no later recovery accepts the record.
- It had renamed a genesis or an intent and not flushed the directory. The next command appends on top
  (`python/src/atoms/chain/append.py:211-253`); a power loss that keeps the second name and not the first leaves
  a directory that reads as no history.
- It had written the whole envelope and not flushed the file. `_finish` publishes the bytes without flushing them
  (`python/src/atoms/chain/append.py:107-131`); a power loss leaves a digest name over other bytes.

`RecoveryEntryIsExact` is the exact condition: from a reachable state in which recovery may be entered, every
continuation that enters it again only in quiet states stays sound under every power loss if and only if the
state is quiet. Without a power loss none of this shows: what a process reads is always sound, wherever recovery
is entered, and recovery reaches its goal (`ExitsStaySound`, `ExitRecoveryConverges`).

*A rerun of the copy is not durable as one run is.* `_copy_tree` flushes the directories the same call changed. A
run stopped before that flush leaves them, and the rerun skips the entries it finds
(`python/src/atoms/coordinator/lifecycle.py:1180-1186`), so the directories only the stopped run changed stay
unflushed when the tree proof is stored; the flush before it reaches the root alone
(`python/src/atoms/coordinator/commands.py:1590-1591`). `RerunLeaves` says exactly which, and
`RerunCanLeaveUnflushed` is an instance. The tree itself is that of one run.

*A self-move passes the local checks.* Phase 5 refuses a move onto itself; without that refusal the timeline
phases would accept one that cannot execute (`SelfMovePassesLocally`).

*The surface checks see only the endpoints.* A specification can pass phases 5 and 10 to 13 and still have an
intermediate state that is no tree (`EndpointsAreNotEnough`). The ancestor judgment is exactly what rules it out: on
a disk in the declared state it accepts a specification if and only if every state the effects pass through is a
tree (`JudgmentIsExact`), apart from names too long for their directory.

*The triggers alone do not keep the root-lifecycle commit rule.* One permitted statement can grant a root
without completing its operation; the rule is kept because the coordinator puts the two statements into one
transaction. Exactly which statements need that company is `StatementsThatNeedATransaction`.

*Adopting a planned directory that has an approved existing child loses the child.* It ends with neither a
descriptor nor a stop above it, and the table's invariant holds after adoption if and only if there is no such
child (`HandOver`; `ExistingChildIsLost` is an instance). The engine meets this only if the disk changed after
approval: capture refuses a stop at which it finds a directory
(`python/src/atoms/coordinator/capture.py:158-183`), and on an unchanged disk that rules the case out
(`CaptureRulesOutLostChildren`).

## Model

| member | source | states |
|---|---|---|
| ChainModel.FindMatchesDigests | python/src/atoms/chain/inspect.py:226-295 | a digest names an entry of a history exactly when it is the digest of one of the history's own envelopes, and the envelope found under it carries that entry |
| ChainModel.NextDigestIsFresh | python/src/atoms/chain/append.py:211-253 | an entry linked to the tip never gets a name already in the directory, so publication cannot collide |
| ChainModel.PredecessorIsPresent | python/src/atoms/chain/inspect.py:249-256 | a history holds the predecessor of every entry it holds |
| ChainModel.DigestsDetermine | python/src/atoms/chain/read.py:72-117 | two histories with the same set of names are the same history: the directory listing determines the chain |
| ChainRules.AtMostOnce | python/src/atoms/chain/inspect.py:339-406 | a clean chain registers and settles each transaction at most once and settles only what it registered |
| ChainRules.SettlementNamesRegistration | python/src/atoms/chain/inspect.py:339-406 | in a clean chain every settlement names a registration of its own transaction that is there |
| ChainRules.FulfilledAreCommitted | python/src/atoms/chain/inspect.py:320-336 | a digest counts as fulfilled if and only if a committing settlement in the chain names a registration that fulfills it |
| ChainRules.GateIsExact | python/src/atoms/coordinator/commands.py:276-317 | with nothing pending and a new txid, the submission gate accepts a `fulfills` if and only if registering and then committing keeps the whole chain clean; rolling back keeps it clean too |
| ChainRules.IntentKeepsClean | python/src/atoms/coordinator/commands.py:700-716 | an intent never spoils a clean chain and never changes what is pending |
| ChainMeaning.CleanIsPositional | python/src/atoms/chain/inspect.py:339-406 | a chain is clean if and only if at every position a registration is the first of its txid and fulfills only an intent below it, and a settlement is the first of its txid, names a registration of that txid below it and, if it commits, fulfills nothing a lower committing settlement fulfilled |
| ChainMeaning.FirstDefectIsPositional | python/src/atoms/chain/inspect.py:339-406 | each kind of defect is reported if and only if the lowest position that does not stand breaks that rule and none that is checked before it |
| ChainMeaning.FulfilledAreIntents | python/src/atoms/chain/inspect.py:298-317 | whatever a clean chain counts as fulfilled is an intent in it |
| ChainMeaning.RegistrationsFulfillIntents | python/src/atoms/chain/inspect.py:298-317 | in a clean chain what a registration says it fulfills is an intent below it |
| ChainMeaning.GateIsPositional | python/src/atoms/coordinator/commands.py:292-317 | the submission gate accepts exactly an intent that stands in the chain and that no committing settlement has fulfilled |
| ChainMeaning.UnsettledArePositions | python/src/atoms/chain/inspect.py:409-423 | the pending list is the unsettled registrations at increasing positions, each with its own txid and digest, and none is missing |
| ChainDisk.ReadsAsUnique | python/src/atoms/chain/read.py:72-117 | a directory reads as at most one history |
| ChainDisk.LastWins | python/src/atoms/chain/append.py:211-253 | the last operation on a name decides whether it is there and which file it names |
| ChainDisk.AnyLossIsPossible | python/src/atoms/chain/append.py:211-253 | a power loss may keep any subsequence of the unflushed operations and may leave any bytes in a file that was not flushed |
| ChainDisk.ReplayOutcome | python/src/atoms/chain/append.py:211-253 | replaying any selection of the pending directory operations gives the durable names, or those with exactly the one pending entry |
| ChainDisk.ViewReads | python/src/atoms/chain/read.py:72-117 | a running process reads the durable history plus the pending entry, if there is one |
| ChainDisk.PowerLossOutcome | python/src/atoms/chain/append.py:211-253 | whatever a power loss keeps, the directory then reads as the old history or the old history plus exactly the pending entry, with nothing left pending |
| ChainDisk.WritebackOutcome | python/src/atoms/chain/append.py:211-253 | background write-back changes nothing a process can read and at most makes the pending entry durable |
| ChainDisk.CreateStageHolds | python/src/atoms/chain/append.py:211-235 | creating the staging leaf keeps the disk invariant |
| ChainDisk.WriteFileHolds | python/src/atoms/chain/append.py:185-191 | writing a file no digest name reaches keeps the disk invariant |
| ChainDisk.FlushFileHolds | python/src/atoms/chain/append.py:230-237 | flushing a file keeps the disk invariant |
| ChainDisk.PublishHolds | python/src/atoms/chain/append.py:238-253 | renaming flushed staged bytes onto their digest turns the old history into the old history with one pending entry |
| ChainDisk.UnlinkStageHolds | python/src/atoms/chain/append.py:98-104 | dropping the staging leaf keeps the disk invariant |
| ChainDisk.FlushDirectoryHolds | python/src/atoms/chain/append.py:252 | a directory flush turns the pending entry into a durable one |
| RecordStore.DigestWrites | python/src/atoms/store/schema.py:79-147 | a registration digest is stored exactly on an unfrozen record in PREPARED with every journal pending and no digest yet, a settlement digest exactly on an unfrozen registered record in COMMITTED or ROLLED_BACK with none yet, each only if no other record has it; only that column of that record changes |
| RecordStore.ProgressWrites | python/src/atoms/store/schema.py:115-135 | a record leaves PREPARED only registered and a journal starts only while its registered record is APPLYING, a frozen record changes in neither, a halt remembers the state it left, and nothing else changes |
| RecordStore.AssemblyHaltWrites | python/src/atoms/store/schema.py:96-101 | an assembly halt is stored once and is all that is stored |
| RecordStore.PrepareWrites | python/src/atoms/store/connection.py:597-624 | a submission is stored exactly under a new txid with nothing active: its body, what it fulfills, one pending journal for each effect and no digests |
| RecordStore.ClearWrites | python/src/atoms/store/schema.py:153-168 | the active slot is cleared exactly when it is empty or its record is unhalted, ended and bound twice |
| RecordStore.RegistrationDue | python/src/atoms/coordinator/recover.py:148-189 | a bound registration needs no repair exactly when it resolves to a registration of the transaction; an unbound one is bound where it stands or appended, exactly while nothing has begun |
| RecordStore.SettlementDue | python/src/atoms/coordinator/recover.py:190-234 | a committed record is due a settlement that commits, a rolled-back record one that rolls back: appended exactly when the chain has none, bound exactly when the one it has says that, and refused otherwise |
| RecordStore.NoSettlementDue | python/src/atoms/coordinator/recover.py:190-234 | a record that has not ended is due no settlement and may have none |
| RecordStore.BoundSettlementHolds | python/src/atoms/coordinator/recover.py:190-221 | a bound settlement is accepted exactly when it resolves to this registration with the outcome of the state: committed for COMMITTED or a halt from there, rolled back for ROLLED_BACK |
| Agreement.AgreementIsClean | python/src/atoms/chain/inspect.py:339-423 | a history the store agrees with is clean, and nothing is pending in it but the active transaction |
| Agreement.DeriveSucceeds | python/src/atoms/coordinator/recover.py:148-234 | on an agreeing store and history the derivation never raises, never asks for two appends, and asks for exactly the repairs that are missing |
| Agreement.NothingLeftIsGoal | python/src/atoms/coordinator/recover.py:148-234 | when no repair is left the goal is reached, and deriving again yields no actions |
| ProtocolSafety.FaultKeeps | python/src/atoms/coordinator/recover.py:605-721 | power loss, write-back and process exit at any point keep the invariant |
| ProtocolSafety.ReadsKeep | python/src/atoms/coordinator/recover.py:605-721 | entering recovery or rollback in a quiet state keeps the invariant, whatever partial bytes are staged |
| ProtocolSafety.SurvivorKeeps | python/src/atoms/chain/append.py:133-182 | finishing or removing a survivor keeps the invariant |
| ProtocolSafety.ActBindKeeps | python/src/atoms/coordinator/recover.py:258-292 | a backfill of an entry already in the chain keeps the invariant |
| ProtocolSafety.ActAppendKeeps | python/src/atoms/coordinator/recover.py:258-292 | starting the append a reconciliation asks for keeps the invariant |
| ProtocolSafety.AppendKeeps | python/src/atoms/chain/append.py:211-253 | each of the four steps of an append keeps the invariant |
| ProtocolSafety.BindKeeps | python/src/atoms/coordinator/execute.py:153-221 | storing the digest of an appended entry keeps the invariant |
| ProtocolSafety.CommandKeeps | python/src/atoms/coordinator/commands.py:700-749 | intent, genesis, submission, registration and settlement keep the invariant |
| ProtocolSafety.StateKeeps | python/src/atoms/store/schema.py:74-196 | every state change the triggers and the phase order allow keeps the invariant |
| ProtocolSafety.JournalKeeps | python/src/atoms/coordinator/transitions.py:26-122 | journal writes and an assembly halt keep the invariant |
| ProtocolSafety.DetachAgrees | python/src/atoms/coordinator/transitions.py:125-144 | clearing the active slot of a terminal, doubly bound record keeps store and chain in agreement |
| ProtocolSafety.StepKeeps | python/src/atoms/coordinator/execute.py:153-221 | every step of the whole protocol keeps the invariant, recovery being entered in quiet states |
| ProtocolTheorems.RunsKeepInvariant | python/src/atoms/coordinator/recover.py:605-721 | the invariant holds in every state of every run from an empty engine that enters recovery in quiet states |
| ProtocolTheorems.AlwaysSound | python/src/atoms/coordinator/execute.py:164-219 | in every state of every such run, and after any power loss there, the directory reads as one clean history with at most one registration and one settlement per txid, whose pending registrations lie within the active transaction; every stored digest resolves in it to the record's own entry; every entry says what its record says, a commit exactly of a record that is committed or halted from there and a rollback exactly of one rolled back; and what counts as fulfilled is exactly what the settled records that committed fulfill |
| ProtocolTheorems.AgreementTells | python/src/atoms/coordinator/recover.py:140-145 | wherever store and chain agree every registration carries its record's submitted fields and every settlement its record's registration and outcome |
| ProtocolTheorems.AgreementTellsFulfilled | python/src/atoms/chain/inspect.py:320-336 | wherever store and chain agree the fulfilled intents are exactly those of the settled records that committed |
| ProtocolTheorems.DerivationAlwaysSucceeds | python/src/atoms/coordinator/recover.py:148-234 | in every state of every such run, halted or not and whatever is running, the chain validates and the derivation succeeds with at most one append |
| ProtocolTheorems.RecoveryAlwaysStarts | python/src/atoms/coordinator/recover.py:605-650 | so recovery can be entered whenever no process runs and the record is not halted |
| ProtocolTheorems.RecordsAreGuarded | python/src/atoms/store/schema.py:74-196 | under the triggers alone, every step keeps: leaving PREPARED needs a registration, a settlement needs a registration, a prepared record has started nothing, digests and submitted fields never change, journals only advance, a commit is never undone, a rollback and a halt are never left, an assembly halt freezes record and journals, and every record that is not active is terminal, doubly bound and unhalted |
| ProtocolTheorems.BindingsAreForever | python/src/atoms/store/schema.py:79-101 | over any run of steps at all, a digest once set is never changed, a committed record stays committed or is halted from there, journals never go back and a record never disappears |
| Convergence.GoalIsStable | python/src/atoms/coordinator/recover.py:237-293 | no recovery step and no fault changes the goal that the state determines |
| Convergence.RecoveryConverges | python/src/atoms/coordinator/recover.py:237-293 | any run of recovery steps, crashed anywhere and restarted in quiet states, that ends reconciled ends with the same chain entries and the same bound digests, and nothing more to derive |
| Convergence.BindingIsAccepted | python/src/atoms/store/schema.py:79-114 | no trigger refuses a binding that reconciliation asks for |
| Convergence.ReconciliationProgresses | python/src/atoms/coordinator/recover.py:237-293 | an unfinished reconciliation always has a step that brings it closer to its end |
| Convergence.ReconciliationFinishes | python/src/atoms/coordinator/recover.py:237-293 | from any point of a reconciliation a run of its own steps finishes it |
| CompleteRuns.SubmissionCanCommit | python/src/atoms/coordinator/execute.py:153-221 | an idle engine can carry any admissible transaction through: a quiet run ends idle with its registration and committing settlement as the last two entries and its record committed, every effect done and both digests bound |
| CompleteRuns.RecoveryComesToRest | python/src/atoms/coordinator/recover.py:605-721 | wherever recovery may be entered in a quiet state, by a command or by the failure handler, a quiet run leads to an idle engine whose record has ended, committed if it was committed before and rolled back, with every effect it had begun undone, if not, bound twice and settled so at the tip of the chain |
| CompleteRuns.CrashesComeToRest | python/src/atoms/coordinator/recover.py:605-721 | so every crash of every run, in a quiet state and short of a halt, can be recovered to an idle engine |
| CompleteRuns.FailuresComeToRest | python/src/atoms/coordinator/execute.py:105-150 | a failure anywhere between the submission and the commit decision, in a quiet state, can be brought to rest: the transaction rolled back and settled so |
| CompleteRuns.PlansMayHalt | python/src/atoms/coordinator/transitions.py:100-122 | a plan may halt its record from every state but a rollback, remembering the state it leaves, or freeze it by an assembly halt; either ends the process |
| UnflushedRecovery.VisibleSurvivesIffFlushed | python/src/atoms/coordinator/recover.py:258-292 | a digest a process can see is in the chain after every power loss if and only if no unflushed directory operation concerns its name |
| UnflushedRecovery.PublishSurvivesIff | python/src/atoms/chain/append.py:107-131 | publishing complete staged bytes leaves a readable chain after every power loss if and only if the bytes had been flushed and no earlier name was unflushed |
| UnflushedRecovery.BackfillBreaks | python/src/atoms/coordinator/recover.py:258-292 | with an active record and an unflushed registration or settlement name, recovery goes on to bind that name's digest |
| UnflushedRecovery.LostBindingIsUnsound | python/src/atoms/coordinator/recover.py:148-234 | a power loss then leaves a good chain that lacks the bound entry, and every later derivation contradicts the record |
| UnflushedRecovery.IntentBreaks | python/src/atoms/chain/append.py:211-253 | with nothing active and an unflushed genesis or intent name, a further intent and a power loss leave a directory that reads as no history |
| UnflushedRecovery.FinishBreaks | python/src/atoms/chain/append.py:107-131 | with the planned envelope staged and unflushed, finishing it and a power loss leave a directory that reads as no history |
| UnflushedRecovery.RecoveryEntryIsExact | python/src/atoms/coordinator/recover.py:605-721 | from any state of the invariant in which recovery may be entered, by a command or by the failure handler, every continuation that enters it again only in quiet states is sound after every power loss if and only if the state is quiet |
| UnflushedRecovery.HalfWrittenIsQuiet | python/src/atoms/chain/append.py:185-191 | a process that dies with its envelope half written leaves a quiet state |
| BrokenRuns.EveryKindIsReachable | python/src/atoms/coordinator/recover.py:605-721 | a fresh engine reaches, in a quiet run, an unflushed genesis, intent, registration and settlement and an unflushed survivor, each with the process dead and a continuation that breaks |
| ProcessExits.FlushedStep | python/src/atoms/coordinator/recover.py:605-721 | every step but a power loss is also a quiet step of the same engine with everything flushed |
| ProcessExits.ExitsStaySound | python/src/atoms/coordinator/execute.py:164-219 | in every run without a power loss, recovery entered anywhere, what a process reads is one clean history in which the store's bindings resolve |
| ProcessExits.ExitRecoveryConverges | python/src/atoms/coordinator/recover.py:237-293 | without a power loss every recovery that ends reconciled, wherever its process died and was started again, ends with the chain and bindings the state called for |
| Inspect.ArrangedRowsPass | python/src/atoms/chain/inspect.py:226-295 | rows that can be arranged as one chain show none of the linkage defects |
| Inspect.ArrangementUnique | python/src/atoms/chain/inspect.py:226-295 | rows with distinct digests have at most one arrangement, so the row order cannot matter |
| Inspect.NoRevisit | python/src/atoms/chain/inspect.py:270-295 | with distinct digests the walk never meets a row it has passed |
| Inspect.WalkCovers | python/src/atoms/chain/inspect.py:270-295 | a walk that ran out of successors has covered the arrangement, if one exists |
| Inspect.IndexRows | python/src/atoms/chain/inspect.py:238-247 | the digest index holds every row, and with distinct digests each row's own entry |
| Inspect.HasMissingPredecessor | python/src/atoms/chain/inspect.py:249-256 | finds a row whose predecessor no row carries exactly when there is one |
| Inspect.Successors | python/src/atoms/chain/inspect.py:258-268 | each digest's successor list is exactly the rows that name it |
| Inspect.Walk | python/src/atoms/chain/inspect.py:270-295 | terminates for any rows, with the visited set growing inside the scanned digests, and orders a genesis-rooted path |
| Inspect.Linearize | python/src/atoms/chain/inspect.py:226-295 | each linkage defect is reported exactly when it is the first that applies; on distinct digests a cycle never is, and success means exactly that an arrangement exists, which is what is returned |
| Inspect.LinkageDefectsAre | python/src/atoms/chain/inspect.py:238-268 | what the reported defects are: the geneses are not exactly one, some row names a predecessor no row carries, two rows name one predecessor |
| EntryClasses.NoDefectIsClean | python/src/atoms/chain/inspect.py:339-406 | there is no first defect if and only if the history is clean |
| EntryClasses.FulfillsFault | python/src/atoms/chain/inspect.py:298-317 | reports no fault exactly when the digest is that of an intent strictly below the entry, and otherwise whether it is missing, above it, or below it and no intent |
| EntryClasses.FindRegistration | python/src/atoms/chain/inspect.py:339-406 | finds the ancestor registration a settlement names, exactly when there is one |
| EntryClasses.InspectEntryClasses | python/src/atoms/chain/inspect.py:339-406 | the loop over the entries reports exactly the first defect in index order |
| EntryClasses.PendingOf | python/src/atoms/chain/inspect.py:409-423 | returns the registrations no settlement settles as they stand in the chain, in order and each as often, and their txids are the pending ones |
| EntryClasses.CommittedFulfillments | python/src/atoms/chain/inspect.py:320-336 | on a clean chain, exactly the intents that a committed transaction fulfils |
| EntryClasses.AdmissibleFulfills | python/src/atoms/coordinator/commands.py:292-317 | the two submission checks are exactly the gate of the history |
| ChainDirectory.ReadableIsArrangeable | python/src/atoms/chain/read.py:72-117 | a directory of intact entries reads as a history exactly when its rows can be arranged as that history |
| ChainDirectory.MidwayIsCrashSafe | python/src/atoms/chain/append.py:211-253 | every disk between the old history and the new one is crash safe |
| ChainDirectory.PublishReads | python/src/atoms/chain/append.py:238-253 | publishing extends what a reader sees by exactly the staged entry |
| ChainDirectory.Directory.Scan | python/src/atoms/chain/inspect.py:150-194 | succeeds exactly on a directory of intact digest-named leaves plus at most the staging leaf, and returns one row for each leaf and the staged bytes |
| ChainDirectory.Directory.Validate | python/src/atoms/chain/inspect.py:217-223 | the three passes succeed exactly when the directory reads as a clean history, and return that history and the staged bytes |
| ChainDirectory.Directory.ValidateChain | python/src/atoms/chain/read.py:53-117 | refuses a malformed or repeated plan before it looks, refuses a plan that neither stands in the chain nor links from its tip, and classifies the survivor: none exactly when nothing is staged, finished exactly when what is staged is planned and not in the chain, otherwise removed |
| ChainDirectory.Directory.WriteAll | python/src/atoms/chain/append.py:185-191 | any number of short writes ends with the whole content, and no intermediate disk is unsafe |
| ChainDirectory.Directory.StageEntry | python/src/atoms/chain/append.py:211-237 | ends with the staging leaf holding the flushed envelope, crash safe throughout |
| ChainDirectory.Directory.PublishStaged | python/src/atoms/chain/append.py:238-253 | ends with the entry durable under its digest and no staging leaf, crash safe throughout |
| ChainDirectory.Directory.AppendEntry | python/src/atoms/chain/append.py:211-253 | succeeds exactly when the proof is of the directory as it stands, clean and without a survivor, and the entry may stand at its tip; the entry then becomes durable under its digest, and at every disk passed through a power loss leaves the old history or the old history plus exactly the entry; otherwise nothing changes |
| ChainDirectory.Directory.RemoveSurvivor | python/src/atoms/chain/append.py:133-182 | drops exactly the staging leaf and keeps the history |
| ChainDirectory.Directory.FinishStaged | python/src/atoms/chain/append.py:107-131 | publishes the planned survivor; crash safe when its bytes had been flushed |
| ChainDirectory.Directory.FinishSurvivor | python/src/atoms/chain/append.py:107-182 | the planned entry ends in the chain exactly once with no staging leaf, whether or not it was already published; succeeds exactly on a finishable clean directory and refuses without a change otherwise |
| Effects.OneEffect | python/src/atoms/core/effects.py:69-99 | what each of the five effects needs of a surface and leaves behind: a replacement its pre state and then its post state, a creation absence, a deletion its pre state and then absence, a move its pre state at the source and absence at the destination and then the reverse |
| Effects.RunIsStepwise | python/src/atoms/core/effects.py:69-99 | the surface after one more effect is that effect on the surface before it |
| Effects.TouchedAreNamed | python/src/atoms/core/effects.py:69-99 | the touched paths are exactly those the effects name |
| Timeline.ExecutionIsPathwise | python/src/atoms/core/effects.py:69-99 | executing the effects in order is following each path on its own |
| Timeline.EffectIsPathwise | python/src/atoms/core/effects.py:69-99 | performing one effect at once is following its occurrences path by path |
| Timeline.LocalChecksAreExecution | python/src/atoms/core/compiler.py:438-474 | continuity, coverage and endpoints checked path by path hold if and only if the whole run executes from the initial surface to exactly the final one and both surfaces cover exactly the touched paths |
| Timeline.SelfMovePassesLocally | python/src/atoms/core/compiler.py:364-379 | a move onto itself passes the local checks and cannot execute, so phase 5's refusal is needed |
| Timeline.GroupAll | python/src/atoms/core/timeline.py:33-45 | the grouping loops give each touched path exactly its occurrences, in effect order |
| Timeline.BuildTimelines | python/src/atoms/core/timeline.py:33-64 | succeeds exactly when every path's occurrences are continuous, and returns them |
| Timeline.CoverageAndEndpoints | python/src/atoms/core/compiler.py:438-474 | accepts exactly when both surfaces declare the timelines' paths and agree with their ends |
| Timeline.ChecksExecution | python/src/atoms/core/compiler.py:438-474 | the three phases accept exactly the specifications that execute |
| PathTrie.LookupInsert | python/src/atoms/core/compiler.py:477-492 | inserting a path changes the value at that path and at no other |
| SurfaceTree.RequirementSplits | python/src/atoms/core/compiler.py:495-517 | carrying only the nearest declared constraint loses nothing: a subtree's requirement is its node's check and its children's requirements under the constraint it passes down |
| SurfaceTree.Walk | python/src/atoms/core/compiler.py:495-517 | the explicit-stack walk accepts exactly the tries in which nothing present lies below a declared non-directory |
| SurfaceTree.SurfaceTreeOk | python/src/atoms/core/compiler.py:495-517 | phase 12 accepts exactly the surfaces where every path below a declared non-directory is absent |
| TreeConsistency.SurfaceRuleIsPlaceable | python/src/atoms/core/compiler.py:495-517 | phase 12 accepts exactly the surfaces that some disk can hold |
| SurfaceTree.BuildCreators | python/src/atoms/core/compiler.py:520-546 | the trie holds for each created path the last effect that creates it |
| SurfaceTree.AncestorsCreatedBefore | python/src/atoms/core/compiler.py:520-546 | accepts exactly when no creator on the way down is as late as the effect |
| SurfaceTree.AncestorOrderOk | python/src/atoms/core/compiler.py:520-546 | phase 13 accepts exactly when each directory creation precedes every occurrence strictly beneath it |
| SurfaceTree.OrderIsPairwise | python/src/atoms/core/compiler.py:520-546 | phase 13's rule: what an effect names lies below no directory that the same or a later effect creates |
| TreeConsistency.TreeRunsAreOrdered | python/src/atoms/core/compiler.py:520-546 | phase 13 refuses no run that passes only through trees |
| Judgment.FirstTouches | python/src/atoms/fs/judgment.py:28-90 | each touched path is mapped to the first effect that touches it |
| Judgment.FirstCreatorsAndRemovers | python/src/atoms/fs/judgment.py:28-90 | each created or removed path is mapped to the first effect that creates or removes it |
| Judgment.PathLegal | python/src/atoms/fs/judgment.py:93-168 | accepts a path exactly when its frontier is convertible and every directory below the frontier is created before the path is touched and has a name that fits |
| Judgment.RequireAncestorsLegal | python/src/atoms/fs/judgment.py:28-90 | the judgment accepts exactly when every declared path is legal and every component to be created fits |
| TreeConsistency.AncestorFate | python/src/atoms/fs/judgment.py:28-168 | an ancestor of a declared path is an undeclared directory on disk or is created by this transaction before the path is first touched |
| TreeConsistency.EveryEffectFindsItsParents | python/src/atoms/fs/judgment.py:28-168 | when its turn comes, every path an effect touches lies inside existing directories |
| TreeConsistency.EveryStateIsATree | python/src/atoms/fs/judgment.py:28-168 | after any number of effects every present path, declared or not, lies inside directories |
| TreeConsistency.JudgmentIsExact | python/src/atoms/fs/judgment.py:28-168 | on a disk in the declared state, the ancestors are judged legal if and only if every state the effects pass through is a tree |
| TreeConsistency.EndpointsAreNotEnough | python/src/atoms/core/compiler.py:495-546 | a specification that passes the compiler's rules and whose state in between is no tree |
| Topology.KeysDiffer | python/src/atoms/fs/topology.py:284-298 | distinct directories, existing or planned, get distinct keys when existing ones have distinct identities |
| Topology.OneIdentityOneKey | python/src/atoms/fs/topology.py:284-298 | two existing directories have one key if and only if they have one identity |
| Topology.NodesByKey | python/src/atoms/fs/topology.py:301-326 | refuses if and only if two declared directories share a key; otherwise, in any order, a declared directory is its own node, the root the project root, and every other key one numbered node |
| Topology.NodesMean | python/src/atoms/fs/topology.py:301-326 | one node for each key and no two alike, a declared directory its own, the root the project root unless it is a declared directory too |
| Topology.AddEdges | python/src/atoms/fs/topology.py:150-168 | exactly the given paths' nodes gain an edge, each to the node of the path above, and an edge already there is kept |
| Topology.BuildTopology | python/src/atoms/fs/topology.py:128-190 | under exact-byte lookup and distinct identities it never refuses and yields a single-parent tree rooted at the project root with one node per path |
| Topology.StepUp | python/src/atoms/fs/topology.py:395-413 | one step up an edge drops exactly one component and the walk ends at the root and nowhere else |
| Topology.PathFits | python/src/atoms/fs/topology.py:395-413 | the ancestor walk terminates, visits exactly the lexical ancestors, and refuses exactly at one that cannot contain a present path |
| Topology.SurfaceRecheck | python/src/atoms/fs/topology.py:390-413 | the resolved surface rule accepts exactly what phase 12 accepts |
| Topology.Creators | python/src/atoms/fs/topology.py:415-419 | each created node is mapped to the last effect that creates it |
| Topology.OrderRecheck | python/src/atoms/fs/topology.py:415-432 | the resolved ordering rule accepts exactly what phase 13 accepts |
| Compiler.CompileSpec | python/src/atoms/core/compiler.py:564-586 | phases 5 and 10 to 13 together accept exactly the specifications that execute between two tree-shaped surfaces with every directory created in time |
| Compiler.OneEffectCompiles | python/src/atoms/core/compiler.py:364-379 | an effect compiles alone exactly between the two surfaces it names and on the kinds it may hold: files replaced, created and moved apart, files and symlinks deleted, directories created |
| Compiler.KindsOfChange | python/src/atoms/core/compiler.py:364-379 | in a compiled run a directory, once there, stays as it is, a symlink is one that was there from the start, and no declared path starts as a directory |
| Compiler.ResolvedRecheck | python/src/atoms/fs/topology.py:374-432 | the re-check over resolved directories never refuses a specification that compiled |
| Compiler.JudgeAncestors | python/src/atoms/fs/judgment.py:28-90 | of a compiled specification on the disk it describes, the judgment accepts exactly what passes only through trees and whose created components fit |
| Compiler.CompiledRunsStayTrees | python/src/atoms/fs/judgment.py:28-168 | a compiled specification whose ancestors are judged legal leaves a tree after any number of effects, and each effect finds its parents |
| MetadataStore.BarrierSuffices | python/src/atoms/store/connection.py:554-583 | checking the touched records, and that promoted digests are referenced, makes all records coherent and the blob index exactly the referenced digests |
| MetadataStore.PromotionStaysWithin | python/src/atoms/store/blobs.py:345-413 | indexing a manifest moves the database no further than its touched records and promoted digests account for |
| MetadataStore.ColumnWrites | python/src/atoms/store/connection.py:626-696 | each of the seven setters puts its value in its own column and leaves every other column as it was |
| MetadataStore.DigestsKeepApart | python/src/atoms/store/connection.py:664-678 | both digests, stored in either order, stand in their own columns |
| MetadataStore.FreshRecordCommits | python/src/atoms/store/records.py:511-590 | a record just inserted passes the commit check exactly when its specification compiles and each of its files is indexed with its length |
| MetadataStore.WritesThatNeedCompany | python/src/atoms/store/records.py:570-583 | exactly which single column writes the commit check refuses: a state without its rollback result or diagnostic, a result or diagnostic without its state, and a decision or journals that disagree with the diagnostic |
| MetadataStore.HaltPinsJournals | python/src/atoms/store/records.py:575-583 | a halted record's journals cannot move by themselves |
| MetadataStore.CommittedRecordsMean | python/src/atoms/store/records.py:511-590 | what every committed record satisfies: it compiles, its rows are its effects with their variants, its files are indexed with their lengths and have leaves, and result and diagnostic match its state, decision and journals |
| MetadataStore.Store.Begin | python/src/atoms/store/connection.py:878-895 | opens a fresh unpoisoned transaction on the committed database, and only when none is open |
| MetadataStore.Store.InsertRecord | python/src/atoms/store/connection.py:597-624 | adds the record and its journal rows exactly when the txid is new and no row is refused; otherwise fails and poisons the transaction |
| MetadataStore.Store.SetColumn | python/src/atoms/store/connection.py:626-696 | changes one column of an existing record exactly when no CHECK or trigger refuses, and marks the record as touched; otherwise changes nothing and poisons |
| MetadataStore.Store.SetJournal | python/src/atoms/store/connection.py:698-711 | changes one existing journal row exactly when no trigger refuses; otherwise changes nothing and poisons |
| MetadataStore.Store.SetActive | python/src/atoms/store/connection.py:778-787 | fills an empty slot with an existing record or clears it, exactly when the delete gate does not refuse; otherwise changes nothing and poisons |
| MetadataStore.Store.PromoteStaging | python/src/atoms/store/blobs.py:345-413 | indexes exactly the manifest with a leaf present for every digest, exactly when no leaf fails and no digest is indexed with another length; otherwise changes no row and poisons |
| MetadataStore.Store.Finish | python/src/atoms/store/connection.py:878-912 | commits exactly an unpoisoned transaction whose touched records are coherent and whose promotions are referenced; every commit leaves all records coherent and the blob index equal to the referenced digests, each with a leaf |
| MetadataStore.Store.Abandon | python/src/atoms/store/connection.py:895-912 | leaving by an exception or a crash keeps the committed database; only published leaves remain |
| MetadataStore.Store.RemoveUnindexed | python/src/atoms/store/blobs.py:201-255 | deletes a leaf exactly when no committed record references it and no transaction is open |
| RootLifecycle.StatementsKeepGuarded | python/src/atoms/store/schema.py:291-408 | no single statement the triggers permit leaves the guarded states, in which a writable created root has a proved operation and a serviceable root no incomplete one |
| RootLifecycle.GuardedMeans | python/src/atoms/store/schema.py:230-310 | what a guarded state promises: creation origins carry their operation and no others do, each origin has its two states, each kind and phase has exactly its proofs, a writable created root is proved, a serviceable one complete, and a complete operation has its grant |
| RootLifecycle.OperationMayBeInserted | python/src/atoms/store/schema.py:345-351 | an operation may be inserted exactly before the lifecycle row, recorded and without a proof |
| RootLifecycle.LifecycleMayBeInserted | python/src/atoms/store/schema.py:291-311 | a lifecycle row may be inserted exactly unserviceable beside the recorded operation of its kind, or serviceable by admission or writable by migration where there is none |
| RootLifecycle.LifecycleMayBeUpdated | python/src/atoms/store/schema.py:312-339 | a lifecycle row may change exactly from unserviceable, to serviceable for a complete replica or to writable for a tree-durable registration or fork, and keeps its identity |
| RootLifecycle.OperationMayBeUpdated | python/src/atoms/store/schema.py:352-402 | an operation row may change exactly to its next phase with that phase's proof, keeping its identity and earlier proofs, and to completion only where the lifecycle row has the final state |
| RootLifecycle.RunsAdvance | python/src/atoms/store/schema.py:312-408 | over any run of permitted statements rows never vanish, identities and proofs never change, and phases and grants only advance |
| RootLifecycle.StampWrites | python/src/atoms/coordinator/lifecycle.py:1005-1021 | stamping succeeds exactly on an empty store and writes both rows: the operation as requested and recorded, the root unserviceable with this machine, path and kind |
| RootLifecycle.SourceSnapshotWrites | python/src/atoms/coordinator/lifecycle.py:1024-1028 | a source snapshot is stored exactly for a copying operation that is only recorded |
| RootLifecycle.TreeProofWrites | python/src/atoms/coordinator/lifecycle.py:1031-1035 | a tree proof is stored exactly after the source snapshot, or after the record of a registration, with a genesis digest exactly unless the operation replicates |
| RootLifecycle.AdmissionWrites | python/src/atoms/coordinator/lifecycle.py:1284-1337 | a cold admission and a migration succeed exactly on a store with neither row |
| RootLifecycle.GrantWrites | python/src/atoms/coordinator/lifecycle.py:787-797 | completing writes the final state and the complete phase and nothing else; service is granted exactly to a complete replica, or again to what has it |
| RootLifecycle.EveryCommitIsSound | python/src/atoms/coordinator/lifecycle.py:787-797 | at every commit of every run of the coordinator's transactions, whatever their arguments and wherever they are cut off, an incomplete operation means no grant |
| RootLifecycle.GrantsAreEarned | python/src/atoms/store/records.py:811-835 | at every commit the pair rule holds, a writable registered or forked root has a complete operation with tree proof and genesis digest, and a serviceable root no incomplete operation |
| RootLifecycle.CompletionIsExact | python/src/atoms/coordinator/lifecycle.py:787-797 | the completing transaction succeeds if and only if the operation is tree-durable and is asked for its own kind's final state |
| RootLifecycle.CreationCompletes | python/src/atoms/coordinator/lifecycle.py:1005-1035 | every kind of creation can be carried from an empty store to its final state by its transactions, each once and in order |
| RootLifecycle.StatementsThatNeedATransaction | python/src/atoms/coordinator/lifecycle.py:1005-1035 | a permitted single statement breaks the commit rule if and only if it grants writability alone or records an operation alone |
| RootLifecycle.GrantWithoutCompletionIsPermitted | python/src/atoms/store/schema.py:320-339 | a concrete permitted statement that makes a root writable with an incomplete operation |
| Descriptors.ClosedHoldsAll | python/src/atoms/coordinator/descriptors.py:448-460 | a set closed under children that holds the stops holds everything at or below them |
| Descriptors.Closure | python/src/atoms/coordinator/descriptors.py:448-460 | the fixpoint terminates with exactly the reflexive-transitive descendants of the stops |
| Descriptors.HeldIsReachable | python/src/atoms/coordinator/descriptors.py:119-129 | nothing that has a descriptor lies at or below a stop |
| Descriptors.UnheldChildIsStop | python/src/atoms/coordinator/descriptors.py:291-348 | directly beneath a held directory, an approved directory without a descriptor is itself a stop |
| Descriptors.TableMeans | python/src/atoms/coordinator/descriptors.py:119-129 | what a valid table promises: the roots are held, a held directory hangs under a held one, every other approved directory is at or below a stop, and a stop is planned, stands once and waits under its parent's descriptor |
| Descriptors.LookedAtMeans | python/src/atoms/coordinator/descriptors.py:177-288 | the initial walk looks at a directory exactly when nothing planned is at or above its parent |
| Descriptors.HandOver | python/src/atoms/coordinator/descriptors.py:291-348 | after adopting a directory and registering its planned children the table's invariant holds if and only if it has no approved existing child |
| Descriptors.ExistingChildIsLost | python/src/atoms/coordinator/descriptors.py:291-348 | an instance: after the hand-over the existing child has neither a descriptor nor a stop above it |
| Descriptors.VerifyStops | python/src/atoms/coordinator/capture.py:158-199 | accepts exactly the tables whose every stop is a free name or the declared file or symlink |
| Descriptors.CaptureRulesOutLostChildren | python/src/atoms/coordinator/capture.py:158-183 | on a disk as it was at approval, a table capture accepts has no existing directory below a stop |
| Descriptors.DescriptorTable.Adopt | python/src/atoms/coordinator/descriptors.py:119-129 | accepts exactly an unheld stopped node of an open table, which then has the descriptor and no stop |
| Descriptors.DescriptorTable.AppendChildren | python/src/atoms/coordinator/descriptors.py:291-348 | appends exactly one stop, as observed, for each planned child directory; a failed observation leaves the rest unregistered |
| Descriptors.DescriptorTable.AdoptAndRegister | python/src/atoms/coordinator/descriptors.py:291-348 | on success the unreachable set is exactly what lies at or below the current stops, and each approved directory is held or unreachable, never both, if and only if no existing child was lost |
| Descriptors.DescriptorTable.ResumeDescent | python/src/atoms/coordinator/descriptors.py:351-381 | terminates; on success keeps the invariant and every earlier descriptor, and leaves at or below the node no stop that could still be opened |
| Descriptors.BuildDescriptorTable | python/src/atoms/coordinator/descriptors.py:177-288 | establishes the invariant, holds exactly the existing directories with no planned one above them, each by the descriptor its opening gave, stops at exactly the planned ones with none above them, and refuses exactly when such an existing one does not open as approved or such a planned name cannot be observed |
| CopyTree.FinishedCopyMatches | python/src/atoms/coordinator/lifecycle.py:1078-1223 | a finished copy holds every snapshot entry, matching, keeps everything it held before and adds nothing else |
| CopyTree.MatchesWhenObserved | python/src/atoms/coordinator/lifecycle.py:1128-1165 | an entry matches the snapshot exactly when a walk would record it as the snapshot has it, but for a symlink's mode |
| CopyTree.MadeIsObserved | python/src/atoms/coordinator/lifecycle.py:1110-1127 | exactly directories, symlinks and files whose source content is recorded the same can be made, and what is made is recorded as the snapshot has it, a symlink with mode 0o777 |
| CopyTree.FinishedCopyIsTree | python/src/atoms/coordinator/lifecycle.py:1078-1223 | everything in a finished copy sits in a directory |
| CopyTree.RerunIsOneRun | python/src/atoms/coordinator/lifecycle.py:1078-1223 | stopping after any whole number of entries and running again gives the tree and the verdict of one run |
| CopyTree.RerunLeaves | python/src/atoms/coordinator/lifecycle.py:1167-1219 | what stays unflushed after a stop and a rerun is what one run leaves and, beyond it, exactly the directories that only the stopped run changed |
| CopyTree.RerunCanLeaveUnflushed | python/src/atoms/coordinator/commands.py:1590-1591 | an instance: a directory filled by the stopped run is still unflushed after the rerun and the flush of the root |
| CopyTree.Destination.CopyFrom | python/src/atoms/coordinator/lifecycle.py:1078-1223 | with a source, succeeds exactly when every present entry matches and every absent one can be made from it, and then holds the finished copy with exactly the directories this call changed flushed; a refusal leaves the tree after some whole number of entries and what that changed unflushed |
| CopyTree.Destination.CopyAndSeal | python/src/atoms/coordinator/commands.py:1561-1591 | with the flush of the root that precedes the tree proof, exactly the directories this call changed and the root are flushed |
| CopyTree.Destination.MissingEntries | python/src/atoms/coordinator/lifecycle.py:1167-1191 | without a source, returns exactly the absent entries, or refuses exactly when a present entry does not match |
| BuildRelation.ChunksDecide | python/src/atoms/fs/observe.py:147-174 | behind a common prefix the first differing pair of chunks already decides the relation of the two files |
| BuildRelation.Stream.ReadExactly | python/src/atoms/fs/observe.py:326-336 | over arbitrary short reads, comes up short only at the end of the file |
| BuildRelation.Compare | python/src/atoms/fs/observe.py:147-174 | for any positive chunk size the answer is EXACT if and only if the files are equal, STRICT_PREFIX if and only if the staged file is a proper prefix, DIVERGED otherwise |
| Numerals.ModeIsExact | python/src/atoms/chain/model.py:116-136 | the mode reader accepts exactly the printed octal form of each mode up to 0o7777, as that mode |
| Numerals.CountIsExact | python/src/atoms/chain/model.py:139-152 | the length reader accepts exactly the printed decimal form of each count up to 2**63 - 1; its 19-digit cap turns none away |
| Base64.ReadUndoesEncode | python/src/atoms/chain/model.py:357-373 | reading an encoded payload gives the payload back |
| Base64.PayloadIsExact | python/src/atoms/chain/model.py:357-373 | a string decodes to a payload if and only if the payload encodes to that string (section 4 of RFC 4648) |
| EntryCodec.StateCodecIsExact | python/src/atoms/chain/model.py:166-285 | facts decode to a path state if and only if the state encodes to those facts |
| EntryCodec.SurfaceFromJson | python/src/atoms/chain/model.py:288-354 | the reading loops accept exactly the values that stand for a sorted, duplicate-free surface of legal paths and decodable states |
| EntryCodec.SurfaceIsDetermined | python/src/atoms/chain/model.py:288-308 | two canonical surfaces with the same entries are the same sequence |
| EntryCodec.SurfaceIsExact | python/src/atoms/chain/model.py:288-354 | a value decodes to a surface if and only if the surface is canonical and encodes to it |
| EntryCodec.EntryCodecIsExact | python/src/atoms/chain/model.py:376-551 | an object decodes to an entry with its predecessor if and only if the entry encodes to that object |
| WireForm.NumeralsSpell | python/src/atoms/chain/model.py:116-152 | a mode is 0o and its octal numeral, a length its decimal numeral, without leading zeros, each digit worth its place |
| WireForm.PayloadIsWritten | python/src/atoms/chain/model.py:357-373 | a payload is written as groups of four characters of the base64 alphabet that hold the bits of three bytes, the last group filled up with zeros and padding |
| WireForm.FileIsWritten | python/src/atoms/chain/model.py:241-285 | a file is exactly four facts in order, its hash without the prefix, its mode up to 0o7777 and its length up to 2**63 - 1, and is empty exactly when its hash is that of nothing |
| WireForm.SymlinkIsWritten | python/src/atoms/chain/model.py:241-285 | a symlink is exactly its non-empty NUL-free target and its mode |
| WireForm.DirectoryIsWritten | python/src/atoms/chain/model.py:241-285 | a directory is exactly its mode |
| WireForm.SurfacesAreOrdered | python/src/atoms/chain/model.py:288-308 | a surface may be written exactly when its paths are legal and strictly increasing by code point and its states decode |
| WireForm.SurfaceIsListed | python/src/atoms/chain/model.py:311-317 | a surface is written as the list of its paths, each with the list of its facts |
| WireForm.GenesisIsWritten | python/src/atoms/chain/model.py:376-431 | a genesis is exactly the object with class "genesis", a null predecessor, its payload and its baseline |
| WireForm.RegistrationIsWritten | python/src/atoms/chain/model.py:376-431 | a registration is exactly the object with its eight keys, each under its own name and in its own form |
| WireForm.SettlementIsWritten | python/src/atoms/chain/model.py:376-431 | a settlement is exactly the object with its five keys, whose outcome is "committed" if and only if it commits and "rolled-back" if and only if it does not |
| WireForm.IntentIsWritten | python/src/atoms/chain/model.py:376-431 | an intent is exactly the object with class "intent", its predecessor and its payload |

## Left out

- The recovery classifier, reducer and authorization are not modelled: a plan is any sequence of journal, state, halt and detach steps within the reducer's transaction edges, where COMMITTED moves only to HALTED and settlement is reconciled before detach. The edge from ROLLED_BACK to HALTED, taken only on an inconsistent journal vector or commit decision, is left out; an active rolled-back record is detached (`python/src/atoms/core/recovery/journal.py:206-210`). The effect executors' own file operations are not modelled.
- `persist_plan_prefix`, `_run_under_lease`, `finalize_commit` and `resolve` are steps of a relation rather than methods, because a crash may fall between any two of their writes; their SQLite rows are values in that relation, so update in place is not captured there. `MetadataStore` has the store as a class with update in place.
- The root lifecycle and root operation rows are values, one function per SQL statement; the read-only classification of a carrier, the claim leaf and the binding of machine and path are not modelled.
- The commit decision and rollback result columns are in `MetadataStore` only; the protocol's record carries the outcome in its state.
- Background write-back is modelled as all pending directory operations becoming durable or none; a power loss keeps any subset.
- Runs that combine a recovery entered in a state that is not quiet with a later power loss are outside the safety and convergence theorems, because there they are false: `UnflushedRecovery.RecoveryEntryIsExact`.
- A new transaction's txid is new to the store's records. A chain that was forked or replicated and contains txids without records is not covered by the protocol's runs; `ChainRules.GateIsExact` states the freshness it needs.
- The branches that meet an existing digest name on publication (`_prove_eexist`, and the same case in `_finish`) are not modelled; `ChainModel.NextDigestIsFresh` shows a linked entry cannot meet one.
- EntryClasses.InspectEntryClasses: states the kind of the first defect, not its subject or wording.
- Inspect.Linearize: states the kind of the linkage defect, not which row is named in the report.
- ChainDirectory.Directory.FinishStaged: crash safety is stated for survivors whose bytes had been flushed, because without that it is false; `UnflushedRecovery.PublishSurvivesIff` has the exact condition.
- ChainDirectory.Directory.AppendEntry: stated where every earlier name is flushed, because crash safety is false elsewhere by the same condition.
- CopyTree.Destination.CopyFrom: flushing is modelled as a set of paths whose last change is not flushed, not as a crash of the tree; it claims nothing for a stop inside one entry; a partly written file is refused on retry. The file system is a map from paths to entries, and descriptor caches are not modelled; any parents-first listing stands for the sorted one.
- Topology.BuildTopology: exact-byte lookup only; folding volumes, portability keys, scratch and work-root edges, the constraint records of directories and the refusal of contradictory observations are not modelled.
- Judgment.RequireAncestorsLegal: a directory node is its path, which is what exact-byte lookup gives; which names are over their directory's limit is a parameter, and the same check on the declared leaves (`require_endpoints_distinct`) is not modelled.
- Compiler.CompileSpec: phases 1 to 4 and 6 to 9, canonical ordering and the construction of the compiled value are not modelled.
- Descriptors.BuildDescriptorTable: observation and opening are functions of the node, given by the caller; path spelling, ownership of descriptors at close and constraint validation are folded into those.
- MetadataStore.Store.SetColumn: whether a CHECK or trigger refuses the statement is a parameter, as it is for SetJournal and SetActive; the rules themselves are in `RecordStore`.
- MetadataStore.Store.PromoteStaging: which leaves fail is a parameter; the preflight's individual refusals and the workspace descriptors are one failure.
- EntryCodec.EntryCodecIsExact: works on JSON values; printing and parsing JSON text, UTF-8, and the grammar of project paths (a parameter) are not modelled.
- SHA-256 is an injective constructor; envelopes are the value `Envelope` or some other content, and `EntryCodec` is not composed with the chain model.
- System calls, error numbers, locks, leases, SQLite pragmas, catalogue checks, mount and volume checks, and the certification tooling are not modelled.
- The observation pins and the tree snapshot walk are not modelled.
