# KernelSU-Next kernel core, verified in Dafny

This project models the parts of the KernelSU-Next kernel module whose correctness is hardest to see
by reading, and proves what they promise.

| file | what it models |
|---|---|
| `EventQueue.dfy` | the event queue: producers, a reader that copies outside the lock, drop reports |
| `LsmHook.dfy`, `LsmWalkers.dfy` | inserting and removing nodes of an LSM hook list one patched word at a time, under overlapping drains and moving walkers |
| `ConstraintExpr.dfy` | the SELinux constraint stack machine with its five-entry stack |
| `AccessVector.dfy` | the access vector computation with its constraints, role rules and type bounds |
| `Policy.dfy`, `PolicyEditor.dfy`, `RuleSemantics.dfy` | the live policy editor, and what an edit means for a later decision |
| `Xperms.dfy` | extended (ioctl) permission ranges in 256-bit arrays |
| `SepolicyBatch.dfy`, `RuleCommands.dfy` | the policy command batch that user space sends, and its rule commands from bytes to decisions |
| `Allowlist.dfy` | the reference-counted allowlist, its file, migration and pruning |
| `ApkSign.dfy` | the APK Signature Scheme v2 check |
| `SymbolResolver.dfy` | the batched kernel symbol lookup |
| `RcSplice.dfy` | appending to init.rc while init reads it |
| `MountIds.dfy` | giving mounts ids of a high range and handing ids back |
| `Bytes.dfy` | bytes and little-endian words |

`dafny verify dfyconfig.toml` checks all of it. Operations that change state are methods of classes
whose fields are the source's; each is proved against functions on values, and the theorems are about
those. What such a function means is stated a second time on raw fields, bytes and literal numbers, or
for runs on the steps taken. Locked regions and single patched words are one step each. Failing allocations, faulting copies
and fatal signals are inputs (`memory`, `published`, `fatalAt`) or are counted in ghost fields
(`faults`, `failures`), so that a method cannot meet its contract by failing without cause.

Three properties one would expect do not hold of the code. The contracts say exactly when they do, and
each comes with a concrete run in which it fails:

- A walker of an LSM hook list can miss every registered entry. This happens exactly when an insertion
  takes a node that is still stale: one that left the list, or whose insertion was rolled back, and
  that no drain begun since has covered (`WalksCompleteIff`). A failed insertion tried again at once does
  this (`RetryWithoutDrainIsUnsafe`), and so does a node taken again after a drain that was already
  waiting when the node left (`EarlierDrainDoesNotCover`).
- `read_iter_proxy` can put module text before the rest of the built-in text. It does so exactly when
  the copy of the built-in text stops short and the copy after it does not
  (`InitRc.ReadIterProxy`, `OvertakingExample`).
- After an error of `ksu_lookup_kernel_symbols` the outputs need not be 0. They are exactly if the
  scratch memory was there or they were 0 before (`LookupKernelSymbols`, `StaleOutputExample`); the one
  caller allocates them zeroed (kernel/supercall/dispatch.c:835).

An inverted ioctl request also does not do what its name says: it takes no permission away
(`Xperms.FillRange`).

## Model

| member | source | states |
|---|---|---|
| EventQueueModel.NextKeepsInv | kernel/infra/event_queue.c:96-310 | no locked region of any thread breaks the accounting of sequence numbers, drops and records |
| EventQueueModel.RunKeepsInv | kernel/infra/event_queue.c:96-370 | the accounting holds in every state of every interleaving of pushes, drops, closes and reader steps |
| EventQueueModel.EveryNumberInOnePlace | kernel/infra/event_queue.c:96-310 | in every reachable state each sequence number issued is in exactly one place: delivered, pending, reported dropped, dropped and being copied, dropped and still to report |
| EventQueueModel.LostInOnePlace | kernel/infra/event_queue.c:25-33 | a dropped number is covered by exactly one of the delivered reports, the report in flight and the report to come |
| EventQueueModel.ReportsAreExact | kernel/infra/event_queue.c:204-271 | delivered drop reports cover disjoint, increasing intervals, and each count is the number of sequence numbers lost since the previous report, whatever copies failed and whatever was dropped meanwhile |
| EventQueueModel.DataInPushOrder | kernel/infra/event_queue.c:273-310 | delivered data is a prefix of what was queued, in push order, each number once |
| EventQueueModel.CountersAgree | kernel/infra/event_queue.c:96-178 | `queued` is the list length within its bound, and `dropped_total` is the number of lost numbers and the sum of its three parts |
| EventQueueModel.PeekedNodeStaysHead | kernel/infra/event_queue.c:273-310 | the node peeked outside the lock is still the head at commit after any run of producers |
| EventQueueModel.PushStep | kernel/infra/event_queue.c:96-160 | every return value of a push with its exact cause in the arguments and the queue; a push is queued, as the last event and with the type, flags, time and payload it was given, exactly on an open queue below its bound with a node and a valid length |
| EventQueueModel.NodesWerePushed | kernel/infra/event_queue.c:113-160 | over every run: each event delivered or waiting was pushed by a step of that run which took its number and was given exactly its type, flags, time and payload |
| EventQueueModel.PushesAreKept | kernel/infra/event_queue.c:134-310 | and each push that is queued is delivered or waiting in every later state, as it was pushed |
| EventQueueModel.LostIffLosingStep | kernel/infra/event_queue.c:134-178 | a number counts as lost if and only if the step that took it was a drop, or a push without a node or at the bound |
| EventQueueModel.ClosedIffClosingStep | kernel/infra/event_queue.c:391-395 | a queue is closed exactly once a step closed it, and its bounds never change |
| EventQueueModel.RecordSizes | kernel/infra/event_queue.c:20-23 | an event takes 24 bytes and its payload, a drop report 48 |
| EventQueue.Queue.constructor | kernel/infra/event_queue.c:49-67 | an empty queue satisfies the invariant |
| EventQueue.Queue.NoteDropLocked | kernel/infra/event_queue.c:25-33 | a drop widens the pending interval and all counters as the state machine's drop does |
| EventQueue.Queue.PushEvent | kernel/infra/event_queue.c:96-160 | the push code refines the state machine's push; it returns 0 exactly on an open queue below its bound with a node and a valid length, and then the event is queued as given under the next number; otherwise the list stays |
| EventQueue.Queue.DropEvent | kernel/infra/event_queue.c:162-178 | the drop code refines the state machine's drop, also on a closed queue |
| EventQueue.Queue.Close | kernel/infra/event_queue.c:391-395 | closing changes nothing but the flag |
| EventQueue.Queue.ReadDrop | kernel/infra/event_queue.c:204-271 | a positive return is one whole drop record; a fault or a small buffer delivers nothing, and each error has its exact cause, with producers running while the lock is open |
| EventQueue.Queue.ReadNode | kernel/infra/event_queue.c:273-310 | a positive return is the whole record of the node that was head at the call; otherwise nothing is delivered |
| EventQueue.Queue.Read | kernel/infra/event_queue.c:312-370 | a positive return is the total size of the whole records delivered; no other return delivers anything; without a fault it stops only when nothing is queued or the next record does not fit |
| LsmHookModel.StepKeepsInv | kernel/susfs/lsm_hook.c:293-382 | every single-word patch of an insert, a removal or a rollback, and every drain that begins or ends at any moment, keeps the list invariant |
| LsmHookModel.RunKeepsInv | kernel/susfs/lsm_hook.c:293-382 | so does every run of them |
| LsmHookModel.WalkersSafeIff | kernel/susfs/lsm_hook.c:293-382 | at every word step of every run with any number of overlapping drains, a walk from the head and from every node a walker may stand on visits all original entries once and in order, if and only if no occupied node has just been cleared |
| LsmHookModel.ClearedNodeLosesWalkers | kernel/susfs/lsm_hook.c:293-341 | a walker that stands on a cleared node does not reach the original entries |
| LsmHookModel.RetryWithoutDrainIsUnsafe | kernel/susfs/lsm_hook.c:293-341 | from any initial list, a failed insert retried at once reaches an unsafe state in six steps |
| LsmHookModel.ListRestored | kernel/susfs/lsm_hook.c:343-382 | between operations the words lay out our nodes before the original list; with none left, the head and all forward and back pointers are the original ones, whatever the order of removals |
| LsmHookModel.RemovalNotRefused | kernel/susfs/lsm_hook.c:343-382 | the sanity checks of a removal never refuse a node that is linked |
| LsmWalkModel.WalkKeepsGood | kernel/susfs/lsm_hook.c:293-382 | a walker whose reads fall anywhere between the writes has called exactly the first registered entries in order at every moment, and all of them when it ends, as long as no occupied node is cleared |
| LsmWalkModel.CanStandOn | kernel/susfs/lsm_hook.c:293-382 | every node that counts as occupied can have a walker on it: some interleaving with the same writes puts one there |
| LsmWalkModel.ClearingLosesAWalk | kernel/susfs/lsm_hook.c:310-317 | whenever an occupied node is cleared, some walker ends there without having called one registered entry |
| LsmWalkModel.WalksCompleteIff | kernel/susfs/lsm_hook.c:293-382 | for every run of insertions, removals, rollbacks and overlapping drains: every walker calls all registered entries in order if and only if no insertion takes a stale node |
| LsmWalkModel.EarlierDrainDoesNotCover | kernel/susfs/lsm_hook.c:1235-1246 | a drain that was waiting when a node left does not cover it: taking the node again when that drain ends is a reuse |
| LsmWalkModel.ReusesIff | kernel/susfs/lsm_hook.c:293-382 | which insertions reuse a node, told from the steps alone: the node left the list or was rolled back, no walker has been let into it since, and no drain begun after that has ended |
| LsmWalkModel.ReturnedUnhookIsDrained | kernel/susfs/lsm_hook.c:1175-1246 | a node whose own drain has begun after it left and has ended is not stale, whatever other threads did to the list while that drain waited |
| LsmHook.HookList.InsertHead | kernel/susfs/lsm_hook.c:293-341 | each write is a step of the state machine; the node is linked exactly when both patches succeed, a rolled-back node is stale, and no walker can miss an entry at any moment of the call if and only if the node was not stale when it began |
| LsmHook.HookList.RemoveHead | kernel/susfs/lsm_hook.c:343-382 | the node is unlinked exactly when both patches succeed, otherwise the list is as before, and no walker can miss an entry at any moment of the call |
| LsmHook.HookList.Unhook | kernel/susfs/lsm_hook.c:1175-1246 | after a removal that succeeds a drain begins, which counts this node and every other that is out by then, and when the call returns none of them is stale |
| ConstraintExpr.ExecNode | kernel/feature/selinux_hide.c:956-1108 | one node on the array stack does what it does to the stack as a sequence, including every BUG and every early return |
| ConstraintExpr.ConstraintExprEval | kernel/feature/selinux_hide.c:945-1111 | the array machine computes the run on sequences, whose single tests and combinations the members below give a meaning |
| ConstraintExpr.LevelTests | kernel/feature/selinux_hide.c:1004-1054 | a list of one level test, on sensitivities and categories: for each of the six pairs of levels and each operator, which one must be below which |
| ConstraintExpr.ValueTests | kernel/feature/selinux_hide.c:970-1003 | the same for users, types and roles, with the direction of role dominance and every BUG |
| ConstraintExpr.NamesTests | kernel/feature/selinux_hide.c:1066-1101 | the same for tests against names: which context and which of its fields the flags pick |
| ConstraintExpr.NamesBug | kernel/feature/selinux_hide.c:1071-1090 | a test against names with no field picked, or without the third context it needs, is a BUG |
| ConstraintExpr.ExchangeContexts | kernel/feature/selinux_hide.c:945-1111 | any list, on any stack, gives the same when the two contexts are exchanged and so are dominating with being dominated and the sides named |
| ConstraintExpr.OrderLaws | kernel/feature/selinux_hide.c:988-1054 | levels are equal if each dominates the other, and levels and roles are incomparable if neither does |
| ConstraintExpr.PostfixPushes | kernel/feature/selinux_hide.c:945-1111 | on any stack, the postfix form of a tree pushes the tree's truth value, or the run returns 0 if the tree needs more stack than is left |
| ConstraintExpr.TreeEvaluates | kernel/feature/selinux_hide.c:945-1111 | the postfix form of a well-typed tree hits no BUG and gives its boolean meaning if it fits the stack, and 0 if not |
| ConstraintExpr.TrueIsATree | kernel/feature/selinux_hide.c:945-1111 | a run that returns true was given the postfix form of a tree |
| ConstraintExpr.TrueIffTreeHolds | kernel/feature/selinux_hide.c:945-1111 | an arbitrary node list evaluates to true if and only if it is the postfix form of a well-typed tree that fits and holds |
| AccessVector.AddTable | kernel/feature/selinux_hide.c:1156-1170 | the loop over matching nodes adds exactly the key's vectors |
| AccessVector.RuleVectors | kernel/feature/selinux_hide.c:1148-1173 | the two attribute loops collect exactly the vectors of the attribute pairs |
| AccessVector.ApplyConstraints | kernel/feature/selinux_hide.c:1175-1187 | a permission stays exactly when no constraint that fails names it, so the order of constraints does not matter |
| AccessVector.ApplyRoles | kernel/feature/selinux_hide.c:1189-1203 | process transition permissions go exactly when the role change is not allowed |
| AccessVector.RoleChangeNeedsRule | kernel/feature/selinux_hide.c:1189-1203 | the decision is the one without roles, but for transition permissions of the process class between different roles, which need a rule from the source's role to the target's |
| AccessVector.BoundsAv | kernel/feature/selinux_hide.c:889-932 | a bounded type keeps exactly what the pair of its bounds is allowed |
| AccessVector.ComputeAv | kernel/feature/selinux_hide.c:1117-1209 | with acyclic bounds the mutual recursion ends, and the allowed set and the audit vectors are exactly the declared ones |
| AccessVector.AllowsIffEveryAncestorPair | kernel/feature/selinux_hide.c:889-932 | a permission is allowed if and only if every pair up the chain of bounds passes rules, constraints and roles |
| AccessVector.BoundedNeverExceeds | kernel/feature/selinux_hide.c:889-932 | no type gets a permission that any ancestor pair lacks |
| AccessVector.LegalIffWellTyped | kernel/feature/selinux_hide.c:956-1108 | the legal trees are exactly those that run without a BUG when there is no third context, for every policy and every two contexts |
| AccessVector.LegalEvaluates | kernel/feature/selinux_hide.c:945-1111 | a legal expression never hits a BUG |
| Policy.UpdateNode | kernel/selinux/sepolicy.c:324-334 | writing a node's data changes the effective vector of its key and of no other |
| Policy.InsertedEffective | kernel/selinux/sepolicy.c:99-150 | inserting a node changes the effective vector of its key only, wherever it goes |
| Policy.RemovedEffective | kernel/selinux/sepolicy.c:163-211 | removing a node gives its key the effect's default and leaves the others |
| PolicyEditor.Editor.GetNode | kernel/selinux/sepolicy.c:99-150 | finding or making a node changes no effective vector and fails only for want of memory |
| PolicyEditor.Editor.RemoveAvtabNode | kernel/selinux/sepolicy.c:163-211 | the node goes, or nothing changes |
| PolicyEditor.Editor.Prune | kernel/selinux/sepolicy.c:152-211 | dropping a redundant node, or failing to, changes no effective vector; it fails only for want of memory, and otherwise leaves no redundant node there |
| PolicyEditor.LeanIffEveryEntryMatters | kernel/selinux/sepolicy.c:152-161 | a table has no redundant entry if and only if taking any access-vector entry out would change an effective vector |
| PolicyEditor.Editor.EditKey | kernel/selinux/sepolicy.c:305-340 | one key's effective vector changes by the requested bit operation, all others stay; an edit that only takes bits away does so even when it reports that pruning found no memory |
| PolicyEditor.EditedCompose | kernel/selinux/sepolicy.c:262-304 | edits of two key sets one after the other edit their union |
| PolicyEditor.Editor.AddRuleRaw | kernel/selinux/sepolicy.c:262-340 | exactly the keys of the wildcard expansion (all types when stripping, attributes only otherwise) change, by exactly the requested operation, all of them if it is a deny, whatever it reports, or succeeds; no other datum changes; a table without redundant entries stays so; failure is reported only for want of memory |
| PolicyEditor.Editor.AddRule | kernel/selinux/sepolicy.c:213-260 | names are resolved first: an unknown one changes nothing, otherwise the edit is the expansion's, and a deny of known names always takes effect |
| PolicyEditor.ResolveMeaning | kernel/selinux/sepolicy.c:213-260 | each name stands for the type, class or permission that carries it, on its own side of the rule; a rule is refused only when a name is unknown or a permission has no class |
| RuleSemantics.CollectedIsEffective | kernel/feature/selinux_hide.c:1156-1170 | what the decision loop collects for a key is the editor's effective vector |
| RuleSemantics.BitAfter | kernel/selinux/sepolicy.c:305-340 | for each key and bit: after an edit the bit is as requested in the expansion and as before elsewhere |
| RuleSemantics.WildcardKeys | kernel/selinux/sepolicy.c:71-73 | for each kind of rule, added or removed, between all types: the pairs it is written for, as declared types or as attributes |
| RuleSemantics.DontauditReachesAttributes | kernel/selinux/sepolicy.c:262-340 | after dontaudit(ALL, ALL, cls, p) denials of p in cls are logged for a pair exactly if they were and the pair is not one of attributes; every other bit is as before |
| RuleSemantics.AuditallowReachesAttributes | kernel/selinux/sepolicy.c:262-340 | after auditallow(ALL, ALL, cls, p) grants of p in cls are logged for a pair exactly if they were or the pair is one of attributes; every other bit is as before |
| RuleSemantics.DontauditReachesDecision | kernel/feature/selinux_hide.c:1148-1173 | the same for the audit vector that is computed for any two contexts after that dontaudit, over all their attributes |
| RuleSemantics.DenyRemovesEverywhere | kernel/selinux/sepolicy.c:262-340 | after a fully wildcarded deny, whether it reports success or not, no pair gets that bit from the unconditional table, and every other bit is granted exactly as before |
| RuleSemantics.AllowReachesAttributes | kernel/selinux/sepolicy.c:262-340 | after allow(src, ALL, ALL, ALL) a target gets every bit from the table exactly if it carries an attribute or had the bit before, although one expands over attributes and the other over types |
| RuleSemantics.DenyReachesDecision | kernel/feature/selinux_hide.c:1117-1209 | exactly what is allowed after such a deny, whatever it reports: the denied permission only where the conditional table grants it at every pair up the chain of bounds, everything else as before |
| RuleSemantics.EditReachesDecision | kernel/feature/selinux_hide.c:1117-1209 | for any edit of the rule table, exactly what is allowed afterwards in terms of the policy before it |
| RuleSemantics.AllowReachesDecision | kernel/feature/selinux_hide.c:1117-1209 | exactly what is allowed after allow(src, ALL, ALL, ALL): as before, and everything from src to targets that carry an attribute, where constraints, roles and bounds let it through |
| RuleCommands.ApplyRule | kernel/selinux/rules.c:274-295 | a rule command makes the edit its subcommand and names stand for, in full if it is a deny or succeeds, and with an unknown one changes nothing |
| RuleCommands.RuleNumbers | kernel/selinux/rules.c:274-295 | subcommand 1 allows, 2 denies, 3 has grants logged, 4 keeps denials out of the log, and any other changes nothing and fails |
| RuleCommands.ApplyPayload | kernel/selinux/rules.c:497-539 | a payload edits the policy by its decoded commands in turn, rule commands and others mixed, and returns how many succeeded; a payload that does not decode is refused |
| RuleCommands.BitAfterPayload | kernel/selinux/sepolicy.c:305-340 | after any payload each bit of the allow, auditallow and auditdeny vectors is what the last command naming it says, and as before if none does, once every command but a deny that names it reports success |
| RuleCommands.PayloadDecides | kernel/feature/selinux_hide.c:1117-1209 | exactly what is allowed after any payload, in terms of its commands and the rules before it |
| RuleCommands.DenyPayloadDecides | kernel/selinux/rules.c:274-295 | from payload to decision: after any payload that ends in the wildcarded deny of known names, whatever its commands report, every access is decided as above |
| RuleCommands.AllowPayloadDecides | kernel/selinux/rules.c:274-295 | the same for any payload that ends in allow(src, ALL, ALL, ALL), if that one succeeds |
| RuleCommands.DontauditPayloadDecides | kernel/selinux/rules.c:274-295 | the same for the audit vector after any payload that ends in dontaudit(ALL, ALL, cls, p), if that one succeeds |
| Xperms.SetAtTest | kernel/selinux/sepolicy.c:342-348 | setting a bit of the eight words adds that element of 0..255 and no other |
| Xperms.FillRange | kernel/selinux/sepolicy.c:402-416 | the loops set exactly the elements of the range, and none if the request is inverted |
| Xperms.MergeWords | kernel/selinux/sepolicy.c:418-427 | the words of two arrays merge to the union |
| Xperms.AddsRange | kernel/selinux/sepolicy.c:349-429 | every command of [low, high] is among those a request adds |
| Xperms.AddedRange | kernel/selinux/sepolicy.c:382-416 | what a request adds, in numbers: the range itself if both ends have the same high byte, else everything from the first to the last 256-block it touches |
| Xperms.CoversBits | kernel/selinux/sepolicy.c:342-348 | which bit of which word stands for a command, in driver and in function nodes |
| Xperms.WildKeys | kernel/selinux/sepolicy.c:349-381 | a request for all types and classes names every pair of attributes and every class |
| Xperms.FillIsRequest | kernel/selinux/sepolicy.c:391-416 | a node filled for a request covers the range itself within one driver, whole drivers driver(low)..driver(high) and nothing else otherwise, and nothing at all if inverted |
| Xperms.CoversMerge | kernel/selinux/sepolicy.c:418-427 | merging into a node adds exactly what the request covers |
| Xperms.XpermTable.AddRange | kernel/selinux/sepolicy.c:382-428 | coverage of the key becomes the old coverage plus the request, other keys keep theirs; it merges into a node that fits if there is one, and fails only if a new one cannot be had |
| Xperms.XpermTable.AddXpermRule | kernel/selinux/sepolicy.c:349-429 | exactly the keys of the wildcard expansion, over attributes only, gain exactly what the request adds; no coverage is ever lost; a key goes without only for want of memory |
| SepolicyBatch.DecodesExactlyEncodings | kernel/selinux/rules.c:184-272 | a payload decodes to a list of commands if and only if it is the encoding of that list and each command number has its documented number of arguments |
| SepolicyBatch.DecodeEncoded | uapi/supercall.h:71-81 | decoding undoes encoding for every list of valid commands |
| SepolicyBatch.DecodeCanonical | kernel/selinux/rules.c:194-237 | an accepted payload is the encoding of what it decodes to, byte for byte |
| SepolicyBatch.Cursor.ReadString | kernel/selinux/rules.c:207-237 | the cursor code accepts exactly the well-formed arguments and moves past them |
| SepolicyBatch.Cursor.ReadOne | kernel/selinux/rules.c:503-529 | a command is read exactly when its header, count and arguments are well formed |
| SepolicyBatch.ApplyBatch | kernel/selinux/rules.c:497-539 | the loop applies the decoded commands in order and counts those that succeed, or refuses the payload |
| SepolicyBatch.SelinuxState.HandleSepolicy | kernel/selinux/rules.c:448-559 | the live policy becomes the fold of the commands exactly when every precondition and the whole payload are good, and is otherwise untouched; each error has its number |
| SymbolNames.FirstMatchMeaning | kernel/infra/symbol_resolver.c:203-245 | the answer for a name is the address of the first match in table order, and 0 exactly if there is none |
| SymbolNames.FirstMatchStable | kernel/infra/symbol_resolver.c:203-245 | stopping the walk early does not change an answer already found |
| SymbolNames.MatchesIff | kernel/infra/symbol_resolver.c:203-231 | on bytes: a symbol with an address answers to its own name if that has neither `$` nor `.llvm.`, to what comes before its first `$`, or, without a `$`, before its first `.llvm.`, if that is 1 to 511 bytes long, and to nothing else |
| SymbolResolver.BatchCtx.BSearch | kernel/infra/symbol_resolver.c:193-201 | the binary search finds the key exactly if it is there |
| SymbolResolver.BatchCtx.FillRun | kernel/infra/symbol_resolver.c:235-244 | all unresolved entries of the name get the address, no resolved one changes, and `remaining` counts what is left |
| SymbolResolver.BatchCtx.Match | kernel/infra/symbol_resolver.c:203-245 | one symbol fills exactly the entries it matches, and the walk is told to stop exactly when none is left |
| SymbolResolver.BatchCtx.Walk | kernel/infra/symbol_resolver.c:247-260 | after the walk each request holds its first match |
| SymbolResolver.BatchCtx.LookupIndexed | kernel/infra/symbol_resolver.c:262-296 | the index is asked for every name, duplicates included |
| SymbolResolver.BatchCtx.LookupExact | kernel/infra/symbol_resolver.c:342-357 | without a symbol walker each name that is still missing gets its exact answer, and none that was found changes |
| SymbolResolver.HitsSorted | kernel/infra/symbol_resolver.c:298-375 | sorting the requests does not change how many are answered |
| SymbolResolver.HitsAreAnswers | kernel/infra/symbol_resolver.c:298-375 | the count returned is the number of nonzero addresses |
| SymbolResolver.LookupKernelSymbols | kernel/infra/symbol_resolver.c:298-375 | each output is the address of the first symbol that answers to the name at its own position (`MatchesIff`), null names give 0, the return value is the number of answers; after an error the outputs are 0 if and only if the scratch memory was there or they were 0 before |
| SymbolResolver.StaleOutputExample | kernel/infra/symbol_resolver.c:308-322 | an error that leaves an output as it was |
| ApkFormat.ReadLpIff | kernel/manager/apk_sign.c:86-97 | a length-prefixed value is read exactly when it is there |
| ApkFormat.CheckBlockBuilt | kernel/manager/apk_sign.c:99-145 | every v2 block built around the expected certificate passes |
| ApkFormat.CheckBlockParses | kernel/manager/apk_sign.c:99-145 | every block that passes was built around the expected certificate |
| ApkFormat.ParsePairsBuilt | kernel/manager/apk_sign.c:237-262 | a sequence of id-value pairs is read back from its bytes |
| ApkFormat.ParsePairsParses | kernel/manager/apk_sign.c:237-262 | bytes that parse are those of the pairs read |
| ApkFormat.EocdIffRecord | kernel/manager/apk_sign.c:172-192 | what the search tests for at a comment length is that the file ends in an end record with that comment, both ways |
| ApkFormat.RecordIsFoundIff | kernel/manager/apk_sign.c:172-192 | in a built file the search stops at the end record if and only if that record does not end in another one |
| ApkFormat.BuiltIsAccepted | kernel/manager/apk_sign.c:147-279 | every APK built from fitting parts whose pairs are one good v2 block and padding is accepted, if its end record does not end in another end record and what comes before does not end in a ZIP64 locator |
| ApkFormat.AcceptedIsBuilt | kernel/manager/apk_sign.c:147-279 | every accepted file is such an APK |
| ApkFormat.AcceptedIffBuilt | kernel/manager/apk_sign.c:147-279 | a file is accepted if and only if it is content, signing block, central directory and end record laid end to end, with those two conditions on its parts, whose pairs are one v2 block that holds the expected certificate and otherwise padding |
| ApkSign.VerdictIff | kernel/manager/apk_sign.c:237-279 | the counters the pair loop keeps accept exactly the lists of pairs with one good v2 block and otherwise padding |
| ApkSign.ApkFile.ReadExact | kernel/manager/apk_sign.c:78-84 | a read succeeds exactly within its bound and the file, unless the file system fails it, and moves the cursor by its size |
| ApkSign.ApkFile.ReadLengthPrefixedEnd | kernel/manager/apk_sign.c:86-97 | the end found is that of the value, within its container |
| ApkSign.ApkFile.CheckV2Block | kernel/manager/apk_sign.c:99-145 | the cursor code accepts exactly the blocks the format accepts |
| ApkSign.ApkFile.ScanPairs | kernel/manager/apk_sign.c:237-262 | the pair loop ends and accepts exactly the good lists of pairs |
| ApkSign.ApkFile.FindEocd | kernel/manager/apk_sign.c:172-192 | the search from the end finds the end record with the shortest comment, exactly if there is one and no read fails |
| ApkSign.ApkFile.CheckV2Signature | kernel/manager/apk_sign.c:147-279 | only accepted files pass, whatever reads fail, and all of them do if none fails |
| AppProfile.MigrateMeaning | kernel/policy/allowlist.c:496-519 | migration gives the current version, touches only the version, an old root domain and the flags of a root profile, and need not be done twice |
| AppProfile.LoadSaved | kernel/policy/allowlist.c:424-590 | loading a saved file gives the saved profiles back byte for byte and in order |
| AppProfile.LoadOld | kernel/policy/allowlist.c:521-590 | loading a version 2 or 3 file of 776-byte records, by offset: one profile per record; key, uid, permission and all else as they were; the domain `u:r:su:s0` of a version 2 root profile renamed; flag 1 in root profiles, uninitialised bytes in others |
| AppProfile.HeaderBytes | kernel/policy/allowlist.c:536-558 | the eight bytes that a loadable file starts with |
| AppProfile.SaveBytes | kernel/policy/allowlist.c:440-458 | a saved file is the magic, version 4 and the records |
| AppProfile.AcceptableBytes | kernel/policy/allowlist.c:119-194 | by offset, which profiles can be stored |
| AppProfile.SetProfileMeaning | kernel/policy/allowlist.c:167-256 | each return value of setting a profile with its exact cause; it changes the entry of the profile's uid or nothing |
| AppProfile.SavedFileMeaning | kernel/policy/allowlist.c:424-465 | if all writes succeed the file is the whole encoding; if one in the header fails, a load refuses the file |
| AppProfile.ReloadsIffUncut | kernel/policy/allowlist.c:451-458 | with a good header, loading a saved file gives the saved map back if and only if no record write was cut: a cut file holds fewer whole records than there are uids |
| AppProfile.SetAllRebuilds | kernel/policy/allowlist.c:167-256 | setting the listed profiles one after the other rebuilds the map they stand for |
| AllowTable.ListingStands | kernel/policy/allowlist.c:451-458 | a walk over all chains meets every entry of the map exactly once |
| AllowTable.MatchingMeaning | kernel/policy/allowlist.c:396-421 | the uids a listing gathers are exactly those whose profile has the wanted permission byte and that are not a manager's, each once |
| AllowState.ReplacedOk | kernel/policy/allowlist.c:196-215 | replacing a node keeps one node per uid in its own bucket, the counter, the reference counts and every reader's node |
| AllowState.AddedOk | kernel/policy/allowlist.c:217-243 | so does adding one, and the counter stays the size of the map |
| AllowState.PrunedOk | kernel/policy/allowlist.c:606-618 | so does unlinking one, and the cached default with it |
| AllowState.SurvivingBytes | kernel/policy/allowlist.c:592-625 | by offset, what a prune leaves: uid 9999, uid 1053 and profiles whose uid and key belong to an installed package |
| AllowState.DefaultBytes | kernel/policy/allowlist.c:245-252 | the cached umount default is byte 273 of the profile of uid 9999, or true without one |
| AllowState.RefusedIffFreed | kernel/policy/allowlist.c:105-107 | taking a reference is refused exactly for a freed node: one that a writer unlinked and no reader holds; freed nodes are freed once |
| AllowState.GotOk | kernel/policy/allowlist.c:105-109 | a taken reference is counted to a reader |
| AllowState.PutOk | kernel/policy/allowlist.c:156-165 | a returned reference frees the node exactly when it is the last |
| AllowState.SavedReloadsIff | kernel/policy/allowlist.c:424-590 | saving any table and loading the file into an empty one restores the map if and only if no record write was cut short |
| Allowlist.AllowList.constructor | kernel/policy/allowlist.c:40-57 | the empty list, unmounting by default |
| Allowlist.AllowList.FindInChain | kernel/policy/allowlist.c:93-103 | the chain walk finds the node of a uid exactly if the map has one |
| Allowlist.AllowList.CheckProfile | kernel/policy/allowlist.c:119-153 | the two scans for a terminating NUL decide exactly whether key and domain are terminated and the domain is not empty; for uid 9999 only the default key passes |
| Allowlist.AllowList.SetAppProfile | kernel/policy/allowlist.c:167-256 | refines setting a key of the map, with -EINVAL, -E2BIG only for a new uid in a full table, -ENOMEM; the cached default stays what uid 9999 stores |
| Allowlist.AllowList.GetAppProfile | kernel/policy/allowlist.c:87-110 | with writers and other readers running between lookup and reference: the answer is the map's at one moment of the call, the node returned is not freed, the references this thread holds stay, and the retry loop ends once the others pause |
| Allowlist.AllowList.GetRef | kernel/policy/allowlist.c:105-109 | a reference is taken exactly if the node has not been freed, whether a writer or another reader let it go |
| Allowlist.AllowList.PutAppProfile | kernel/policy/allowlist.c:340-344 | the reader's reference goes back and the last one frees |
| Allowlist.AllowList.GetAllowList | kernel/policy/allowlist.c:396-421 | the first `length` selected uids and their total, at most 65535, so that the 16-bit counters do not wrap |
| Allowlist.AllowList.Prune | kernel/policy/allowlist.c:592-625 | exactly the reserved uids and those still installed survive, and a change is reported exactly if there is one |
| Allowlist.AllowList.Save | kernel/policy/allowlist.c:424-465 | the file is the header and a full walk, each write cut where it fails; a failed header write ends the save |
| Allowlist.AllowList.Load | kernel/policy/allowlist.c:521-590 | a good header leads to setting every whole record, migrated (`LoadOld`, `LoadSaved`), in order; a bad one changes nothing; an old version schedules a save |
| Allowlist.MigrateSaveLoad | kernel/policy/allowlist.c:424-590 | an old file loaded, saved and loaded by the next boot gives the same map and the same umount default as migrating it once |
| RcSplice.InitRc.LoadModuleRcOnce | kernel/runtime/ksud_integration.c:223-283 | the module text is fixed by the first call |
| RcSplice.InitRc.Fstat | kernel/runtime/ksud_integration.c:582-619 | the size announced is that of the whole text init will read, or the original one if user memory cannot be read or written |
| RcSplice.InitRc.InstallHook | kernel/runtime/ksud_integration.c:431-468 | nothing read before, and the same module text as announced |
| RcSplice.InitRc.ReadProxy | kernel/runtime/ksud_integration.c:297-351 | for any short reads and faults the reader gets the next bytes of original, built-in and module text, and 0 only at the end or for a fault |
| RcSplice.InitRc.ReadIterProxy | kernel/runtime/ksud_integration.c:353-403 | the same on the iterator path, exactly when a short first copy is not followed by a second; otherwise what the reader gets instead |
| RcSplice.InitRc.PersistentFaultKeepsOrder | kernel/runtime/ksud_integration.c:371-402 | an iterator that copies less only when it is full or keeps faulting never reorders |
| RcSplice.InitRc.ReadToEnd | kernel/runtime/ksud_integration.c:292-403 | reading until 0, in pieces of any size by either path, ends and gives the whole text |
| RcSplice.Boot | kernel/runtime/ksud_integration.c:223-468 | size, hook and reads together: init reads original, built-in and module text, and as many bytes as announced |
| RcSplice.OvertakingExample | kernel/runtime/ksud_integration.c:371-402 | a fault that goes away between the two copies loses the order |
| MountIdModel.SwappedOk | kernel/susfs/sus_mount.c:2229-2235 | a swap keeps every live id in exactly one place: a mount, elsewhere or in hand |
| MountIdModel.ReleasedOk | kernel/susfs/sus_mount.c:321-330 | an id in hand is live, and releasing it keeps the accounts |
| MountIdModel.CandidateIff | kernel/susfs/sus_mount.c:2160-2221 | the mounts to mark are exactly those of the namespace among the first 65536 of its list, with an id below 2000000000, whose source is ours, or whose path is and can be rendered |
| MountIdModel.RescanContinues | kernel/susfs/sus_mount.c:2110-2270 | what a second scan would mark is what the first did not get to |
| MountIds.MountTable.IdaAlloc | kernel/susfs/sus_mount.c:290-308 | an id not in use, now in hand, or an error |
| MountIds.MountTable.IdaRelease | kernel/susfs/sus_mount.c:321-330 | only an id in use is released |
| MountIds.MountTable.FillBatch | kernel/susfs/sus_mount.c:2136-2148 | up to eight ids of the range; an id below it goes back at once; fewer only after a failure; other code may take and free ids in between |
| MountIds.MountTable.Walk | kernel/susfs/sus_mount.c:2160-2244 | the first mounts to be marked, as many as there are ids, get one each and no other mount changes; `replaced` does not overflow |
| MountIds.MountTable.HandBack | kernel/susfs/sus_mount.c:2251-2259 | every id of a stretch is released exactly once, with other code taking and freeing ids in between |
| MountIds.MountTable.ScanNs | kernel/susfs/sus_mount.c:2110-2270 | the allocator's live ids are again exactly those of mounts and elsewhere, without duplicates, and what is elsewhere changed only by the acts of other code; the return value is the number marked; short of the candidates only after eight or a failed allocation |
| MountIds.MountTable.Run | kernel/susfs/sus_mount.c:2110-2270 | over any sequence of scans, new mounts and unmounts, with other code at work, ids are conserved and the id of a mount that stays changes at most once, into the range |

## Left out

- Wrap-around of the 64-bit sequence number and counters: they are unbounded here.
- Waiting, wake-ups, poll and destroying the event queue: no state that the properties speak of.
- Memory barriers and RCU: a locked region, a chain walk of the allowlist and a patched word are each atomic, and a drain waits for every walker that was inside when it began, also where the source falls back to a delay.
- LsmHook.HookList.InsertHead: rollback writes are taken to succeed; the source only logs it when one does not.
- LsmHook.HookList.RemoveHead: rollback writes are taken to succeed; the source only logs it when one does not.
- Finding a hook's list head, the tracking array, replace mode and the static calls of Linux 6.12 and later: they depend on the kernel's layout.
- The hash chains of the policy table: it is one list in which the nodes of a key are found, and the conditional table is the list of its enabled nodes.
- Type, attribute, type-rule, file-transition and genfs editing: mostly plumbing over kernel tables.
- The parsing of an ioctl range: requests carry two command numbers.
- SepolicyBatch.SelinuxState.HandleSepolicy: what a single command does is a parameter, and so is the copy of the policy.
- RuleCommands.ApplyPayload: what a command of another kind does is a parameter that writes no access vector.
- Multi-level security parsing, the sid table and policy reading and writing: code of the kernel tree.
- The stack depth of the constraint machine is a constant of the kernel tree (5), which is not part of the repository.
- The size of the symbol name buffer is a constant of the kernel tree (KSYM_NAME_LEN, here 512), which is not part of the repository.
- SHA-256 is an uninterpreted function.
- Allowlist.AllowList.GetAppProfile: a lookup sees the table at one moment.
- Root profiles, the allow and umount decisions and the build without policies: they only read one profile.
- Opening the allowlist file and the deferred work that saves it.
- Seeking in init.rc and changes of the file while it is read.
- The id shown for a hidden mount, the identity list and the deferred-namespace ring.
