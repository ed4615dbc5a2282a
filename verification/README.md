# A verified model of the publication protocol, the executed composition, the replay chain and the allocation rule

Five parts of the repository are modelled, and properties of each are proved for all inputs and all runs. They share
nothing but `Bytes.dfy`. `dafny verify dfyconfig.toml` checks everything.

**A. Publication of output files** (`World`, `Kernel`, `AdapterErrors`, `LinuxPath`, `LinuxOutput`,
`LinuxOutputRollback`, `LinuxOutputTransaction`, `LinuxOutputSet`). Files are written as nameless inodes, checked, linked
under a name that must be free, checked again, and taken back through a quarantine name when something goes wrong.

- `World.dfy` holds the filesystem as a value: names, inodes, and what a crash would leave of a file's content. The link
  count of an inode is the number of its names. One counter per inode stands for mtime and ctime: every change of the inode
  or of its names moves it.
- `Kernel.dfy` is the class whose methods are the system calls. Each is atomic and may fail without effect. `Hooks` says who
  runs at the announced stages: with `NoHooks` nobody, with `Hostile` any number of steps of other processes (`Evolves`).
  Between two stages only the call itself runs. Other processes move the counter with every change, never give a nameless
  inode a name, and inode numbers are not reused.
- `mayFail` is false for a kernel in which a call fails only if the state of the world makes it fail; then a random name is
  one that its directory does not have. A random name is its prefix, hexadecimal digits and its suffix; how many digits is
  left open. `interrupts` bounds how often a transfer is interrupted.
- Every step of a call is recorded in `log` with the worlds before and after it, so a clause about the log speaks of every
  state on the way, which is what a crash would leave. `mine` are the inodes that calls created. `Clean` says that every
  recorded step was `ForeignSafe`: it rebinds no occupied name, leaves inodes of others as they are, and lowers no link count
  of theirs. Every operation keeps `Clean`.
- `Published`, `Intact` and `Holds` are what a reader of the result cares about: the name leads to a regular file with exactly
  the bytes, mode 0600, the owner, and one link; with unchanged metadata; and a directory of such files and nothing else.

**B. Executed composition** (`ExecutedComposition`, `ExecutedCompositionReader`). The host decides on each request and records
events; the checker accepts a run by computing everything again; the reader in JavaScript is a second checker. `HostEvents`,
`HostSink`, `StateAfter`, `Earliest` and `FirstForbidden` describe the host's runs without its loop. `Verdict` is the report
that a list of requests deserves and `Judges` the report that a run deserves: both checkers are proved against it. The
reader's typed admission is `Admitted`.

**C. Canonical encoding and replay chain** (`CanonicalTrace`, `ReplayChain`). Byte encodings, a decoder for them that the
repository does not have, and the chain of framed hashes. The hash is a parameter with 32-byte results; of collisions only
those among the payloads of the two compared replays are excluded.

**D. Allocation** (`BinaryParts`, `Allocation`, `Paradox`, `ParadoxSuite`). The proportional rule with its overflow-free
shares, the validation behind it, the paradox detectors and the suite that runs them, over exact reals; doubles have the
binary64 layout of section 3.4 of IEEE 754-2019. `Scaled(x, n)` is x times two to the n.

**E. Kernels** (`Boundary`, `Calendar`, `Ranks`). The dependency worklist, the calendar conversion and tie-averaged ranks.

Where the code and what one may expect of it part:

- The revalidation of a snapshot repeats interrupted reads, except the last one, which looks for a byte past the end
  (`cli/trajectory/linux_path.rs:197-199`). `Revalidate` states the exact condition: without failing calls it accepts if and
  only if the file is unchanged and that read was not interrupted. Statements that success follows when nothing goes wrong
  therefore ask for no inputs or no interrupts.
- A directory set that gives up before its staging directory is open leaves that directory behind
  (`cli/trajectory/linux_output_set.rs:89-101`). `PublishDirectorySet` states exactly what is left in each case.
- The random staging name may be the final name that was asked for, if that has the shape of a staging name. Then, and only
  then, a failed directory set can leave the final name bound (to its own empty directory), and a call that nothing hinders
  can fail. `PublishDirectorySet` says both exactly; `StagingNameCanBeRequested` shows that every such name is valid.
- The two checkers of executed compositions do not agree on every run. The reader refuses an event index above 2 to the 53
  less one before anything else (`docs/executed-composition-reader.js:19`, line 33), the host's checker only when it compares
  indices (`src/executed_composition/mod.rs:239-241`). `CheckBoth` says that they differ exactly on runs with such an index
  that the host's checker finds inconclusive; `DisagreementExample` is one.
- The paradox suite fails on some valid claims: with the claims "A" and "A_clone" the clone it makes of the first has the id
  of the second. `CheckProportionalSuite` says exactly when, and that for the proportional rule it otherwise reports a
  claimant addition precisely if the strongest claimant would lose more than the tolerance to its own clone.
- `FinalizeStaging` ignores a failed sync after its rename, as the code does; `publish_pair` takes nothing back.
- The public half of a pair is guarded by the sidecar alone, and the sidecar by nothing: the claims on the sidecar under
  interference are about the moment of the public link and one moment after it.

## Model

| member | source | states |
|---|---|---|
| FileWorld.SameMetadataSameInode | cli/trajectory/linux_output.rs:908-922 | Equal metadata at two moments means that neither the inode nor its names changed between them, whatever others did |
| KernelCalls.Kernel.Announce | cli/trajectory/linux_output.rs:551-570 | At a stage any number of foreign steps may run; every earlier world evolves into the new one |
| KernelCalls.Kernel.LinkAt | cli/trajectory/linux_output.rs:372-391 | A link succeeds only on a free name and then adds exactly that name; otherwise nothing changes |
| KernelCalls.Kernel.RenameNoReplace | cli/trajectory/linux_output_set.rs:178-195 | A rename succeeds only onto a free name and moves exactly one name; link counts stay |
| LinuxPath.ReadCapped | cli/trajectory/linux_path.rs:113-142 | Never more than the limit is held; unless the counter moved, what is held is a prefix of the content first observed, and all of it or a full limit at the end |
| LinuxPath.ReadFinal | cli/trajectory/linux_path.rs:79-165 | An accepted snapshot is the content the name has at the end, under interference; undisturbed the result is the whole content if it fits the cap and InputTooLarge otherwise |
| LinuxPath.ReadSnapshot | cli/trajectory/linux_path.rs:50-165 | The same from the path, at most cap + 1 bytes buffered, for any sizes of pieces and any interrupts |
| LinuxPath.ReadExactly | cli/trajectory/linux_path.rs:173-196 | Short and interrupted reads assemble exactly the first bytes of the file |
| LinuxPath.Revalidate | cli/trajectory/linux_path.rs:168-210 | Acceptance means the inode is unchanged; without failing calls acceptance is exactly: unchanged, and the last probe not interrupted |
| LinuxPath.VerifyHeldAndName | cli/trajectory/linux_path.rs:281-298 | Acceptance means the held file and the name are still the file first observed, and conversely |
| LinuxOutput.WriteAll | cli/trajectory/linux_output.rs:572-597 | On success the content is overwritten by exactly the bytes, whatever the short writes and interrupts; nothing else in the world changes |
| LinuxOutput.VerifyHeld | cli/trajectory/linux_output.rs:599-661 | Acceptance means exact kind, owner, mode, links and bytes with nothing trailing, and conversely when no call fails |
| LinuxOutput.VerifyFinalIdentity | cli/trajectory/linux_output.rs:679-703 | The name leads to the expected file with the expected properties, in both directions |
| LinuxOutput.PreflightFinal | cli/trajectory/linux_output.rs:763-781 | Acceptance means the name is free; what occupies it decides the code |
| LinuxOutput.PostlinkChecks | cli/trajectory/linux_output.rs:415-549 | Success means the file is intact now; the error is one of the three uncertain ones; undisturbed, a durability finding alone means the file is intact |
| LinuxOutput.PrepareTemporary | cli/trajectory/linux_output.rs:269-370 | Nothing is named before the link; on success the inode is new and nameless, and undisturbed it is exact and its bytes are on disk |
| LinuxOutput.LinkTemporary | cli/trajectory/linux_output.rs:360-391 | The link happens in the very world in which the guard last held, onto a free name, or not at all |
| LinuxOutput.CommitWithHooks | cli/trajectory/linux_output.rs:269-413 | Before the link no new inode has a name; after it exactly one new inode was linked, exactly once, with the guard holding at that moment; success means the complete file is there; alone, every state on the way has the name free or the complete and synced file |
| LinuxOutput.PrepareWithHooks | cli/trajectory/linux_output.rs:152-217 | Success means the path leads to that slot and it is free; alone and without failing calls, exactly then |
| LinuxOutput.PrepareRelative | cli/trajectory/linux_output.rs:219-259 | The same in a held directory, for a valid relative name |
| LinuxOutput.Publish | cli/trajectory/linux_output.rs:134-150 | Success means a new complete file under the name, under any interference; any error but the three uncertain ones means no new inode has a name; alone, every state on the way has the name free or the complete file, and success is decided by the path alone |
| LinuxOutputRollback.Quarantine | cli/trajectory/linux_output_rollback.rs:17-59 | Only moves within the directory; success means our complete file is under the quarantine name; a foreign file may be moved but nothing is removed |
| LinuxOutputRollback.RollbackCommitted | cli/trajectory/linux_output_rollback.rs:12-82 | Success leaves the inode without any name, under any interference; no foreign inode loses a link; alone, exactly the one name is gone, and an intact output is always taken back when no call fails |
| LinuxOutputTransaction.RankErrors | cli/trajectory/linux_output_transaction.rs:416-440 | The first error of the highest rank, or OutputPublish when there is none |
| LinuxOutputTransaction.RollbackAfterError | cli/trajectory/linux_output_transaction.rs:208-221 | The original code means that no output has a name any more; alone, exactly their names are gone; intact outputs are all taken back when no call fails |
| LinuxOutputTransaction.RejectCrossOutputAliases | cli/trajectory/linux_output_transaction.rs:75-79 | Accepts exactly the lists without two outputs for one slot |
| LinuxOutputTransaction.PublishSet | cli/trajectory/linux_output_transaction.rs:54-131 | All or nothing for any number of outputs: any error but OutputRollbackUncertain means every inode this call made has no name, under any interference; success means that each output was linked under its own requested name, no two under one slot, that nothing else was named, and that after the last link each output was seen intact at some moment, the last one at the end; alone, success means each name leads to a new file of its own with its exact bytes and a failure without failing calls restores all names; success is exactly: no late error, all slots free and distinct, inputs unchanged |
| LinuxOutputTransaction.PrepareSet | cli/trajectory/linux_output_transaction.rs:62-80 | What decides success before the first commit, in both directions |
| LinuxOutputTransaction.FinalCheck | cli/trajectory/linux_output_transaction.rs:118-126 | A late error wins; otherwise acceptance means every output was intact at some moment of the check, the last one still is, and alone that all are |
| LinuxOutputTransaction.PublishPair | cli/trajectory/linux_output_transaction.rs:233-321 | Under any interference only the two requested names are given, and the public one is linked only in a world where the file that this call linked under the sidecar's name is still complete there; alone, in every state on the way the public name is free or the complete sidecar is in place and on disk; success means both were linked, and after that the sidecar was seen intact and the public file is intact; an error after the public link is an uncertain one; success is decided by the arguments |
| LinuxOutputTransaction.JudgePair | cli/trajectory/linux_output_transaction.rs:286-321 | Success means the sidecar was intact at some moment of the judgement and the public file still is; once the public file is linked every error is an uncertain one |
| LinuxOutput.RevalidateCommitted | cli/trajectory/linux_output_transaction.rs:323-414 | Success means the output is intact now, although content and name were read at different stages; intact outputs are accepted when no call fails |
| LinuxOutputTransaction.PublishRelativeSet | cli/trajectory/linux_output_transaction.rs:138-199 | What was published is returned whether or not all of it was, and every new inode is one of those or nameless; without failing calls, valid free names and unchanged inputs mean that the result is the late error, if there is one |
| LinuxOutputSet.ValidateMembers | cli/trajectory/linux_output_set.rs:198-210 | Accepts exactly the lists that are not empty, with valid names and no name twice |
| LinuxOutputSet.VerifyStagingDirectory | cli/trajectory/linux_output_set.rs:257-293 | Acceptance means exactly the member names, each leading to an intact output, and conversely |
| LinuxOutputSet.CreateStagingDirectory | cli/trajectory/linux_output_set.rs:212-222 | Success adds one empty directory under a free name of the staging shape, by one step; failure changes nothing |
| LinuxOutputSet.OpenStaging | cli/trajectory/linux_output_set.rs:55-102 | The only step is the making of the staging directory, beside the final name; an error leaves exactly what was made; without failing calls success is decided by the members, the final name and the inputs |
| LinuxOutputSet.FinalizeStaging | cli/trajectory/linux_output_set.rs:151-196 | Success means the rename took a directory that held, at that moment, exactly the members with their exact bytes, while every input was unchanged; failure takes no step |
| LinuxOutputSet.CleanupStaging | cli/trajectory/linux_output_set.rs:333-392 | Success means neither the directory nor any member has a name; no foreign inode loses a link; alone and without failing calls it succeeds on what publication leaves |
| LinuxOutputSet.StagingNameCanBeRequested | cli/trajectory/linux_output_set.rs:224-236 | Every name of the shape of a random staging name is a valid name |
| LinuxOutputSet.PublishDirectorySet | cli/trajectory/linux_output_set.rs:45-149 | Ok means the last step, and no earlier one, gave the final name, to this call's directory, which at that rename held exactly the members, with every input unchanged; on an error the final name was given exactly if the staging directory was made under that very name, so never unless it has the staging shape; once staging is open, any error but OutputRollbackUncertain leaves no inode of this call with a name; alone and without failing calls, an error restores all names, a late error is the result, and success is decided by the arguments except for that one coincidence |
| ExecutedComposition.StateIsExposure | src/executed_composition/mod.rs:285-299 | A bit of the state says exactly that some delivered request put that actor's fragment on the public sink |
| ExecutedComposition.StateIsSink | src/executed_composition/mod.rs:285-310 | A bit of the state says exactly that the public sink contains that actor's fragment string |
| ExecutedComposition.NeverRecovers | src/executed_composition/mod.rs:104-131 | Once both fragments are out, every later state has both |
| ExecutedComposition.FirstEndsShortestPrefix | src/executed_composition/mod.rs:294-302 | The first forbidden event ends the shortest prefix whose effects are forbidden, and there is one exactly when the run violates |
| ExecutedComposition.FirstIsLaterWitness | src/executed_composition/mod.rs:337-343 | The first forbidden event is the later of the two earliest fragment deliveries |
| ExecutedComposition.GuardIsSafe | src/executed_composition/mod.rs:383-406 | No guarded run has both fragments on the public sink |
| ExecutedComposition.GuardOnlyWithholds | src/executed_composition/mod.rs:383-406 | What the guarded host delivers the unguarded one delivers at the same request with the same bytes, so each sink is a subsequence |
| ExecutedComposition.GuardIsTransparent | src/executed_composition/mod.rs:383-406 | If the unguarded run is safe, the guarded run has the same events, sinks and state |
| ExecutedComposition.WholeRunIsEachRequest | src/executed_composition/mod.rs:263-284 | Every request was delivered and permitted with full context exactly when all were delivered and the run is safe |
| ExecutedComposition.GovernanceIsFullContext | src/executed_composition/mod.rs:311-336 | On runs of the host the governance decision and the full-context baseline never differ |
| ExecutedComposition.RequestsAreUnique | src/executed_composition/mod.rs:210-260 | Complete events determine the requests they answer |
| ExecutedComposition.JudgementIsUnique | src/executed_composition/mod.rs:171-353 | A run deserves at most one report |
| ExecutedComposition.VerdictMeansEffect | src/executed_composition/mod.rs:227-343 | An accepted run is Violated exactly when the public sink contains both fragment strings; the participating events are the earliest public deliveries of the fragments, and the larger is the first forbidden event |
| ExecutedComposition.Check | src/executed_composition/mod.rs:171-353 | The checker gives every run, of any shape, the report it deserves: complete runs are Safe or Violated exactly when some request list makes the host produce exactly these events and sinks |
| ExecutedComposition.CheckEvents | src/executed_composition/mod.rs:227-353 | The loop accepts exactly the runs the host could have produced, and reports on the requests behind them |
| ExecutedComposition.Serve | src/executed_composition/mod.rs:371-410 | The host's loop produces the events and sinks of the specification |
| ExecutedComposition.DeclaredGrantsDelegate | src/executed_composition/mod.rs:363-380 | The declared grants delegate every message to both principals, except to the second one when it is revoked |
| ExecutedComposition.Execute | src/executed_composition/mod.rs:357-418 | The run carries the declared principals and grants, is complete, produced by its requests, and admissible for 1 to 256 requests |
| ExecutedComposition.ExecuteThenCheck | src/executed_composition/mod.rs:357-418 | Every run of the host with the declared grants is accepted with the verdict of its own requests, and a guarded one is Safe |
| ExecutedCompositionReader.Evaluate | docs/executed-composition-reader.js:30-71 | The second checker gives every run with admitted indices the report it deserves, and refuses every other run |
| ExecutedCompositionReader.ProducedIsAdmitted | docs/executed-composition-reader.js:19-19 | No run of at most 256 events that a host produced is refused by the typed admission |
| ExecutedCompositionReader.CheckBoth | docs/executed-composition-reader.js:30-71 | The two checkers agree in every field, an absent baseline counting as Review, exactly unless an event index is above 2 to the 53 less one and the first checker finds the run inconclusive; then one says Inconclusive and the other Invalid |
| ExecutedCompositionReader.DisagreementExample | docs/executed-composition-reader.js:19-33 | A run on which they disagree: not complete, with one event of index 2 to the 53 |
| CanonicalTrace.ParsesFrame | scripts/generate-trajectory-composition-fixtures.py:20-32 | A framed value is recovered from its bytes followed by anything |
| CanonicalTrace.ParsesEvent | scripts/generate-trajectory-composition-fixtures.py:67-89 | An event is recovered from its bytes followed by anything, with its source item or without |
| CanonicalTrace.ParsesTrace | scripts/generate-trajectory-composition-fixtures.py:92-103 | Every well-formed trace is recovered from its encoding followed by anything |
| CanonicalTrace.EncodingIsPrefixFree | scripts/generate-trajectory-composition-fixtures.py:92-103 | No encoding is a prefix of another, so the encoding is injective |
| ReplayChain.PayloadInjective | scripts/generate-trajectory-composition-fixtures.py:24-27 | The hashed payload determines the domain and the list of components |
| ReplayChain.HexInjective | scripts/generate-trajectory-composition-fixtures.py:27-27 | The hexadecimal digest determines the hash |
| ReplayChain.StepIsNoGenesis | scripts/generate-trajectory-composition-fixtures.py:110-144 | A chain step never yields a genesis digest, since the domains differ |
| ReplayChain.ChainsMeetAtGenesis | scripts/generate-trajectory-composition-fixtures.py:134-147 | Chains that meet have the same length and the same genesis |
| ReplayChain.HeadBindsTrace | scripts/generate-trajectory-composition-fixtures.py:106-147 | Two traces have the same replay head exactly when they are the same trace, events, count and order included |
| ReplayChain.FramedSha256 | scripts/generate-trajectory-composition-fixtures.py:24-27 | The loop hashes the payload of the specification |
| ReplayChain.CanonicalEvent | scripts/generate-trajectory-composition-fixtures.py:67-89 | The growing buffer ends as the bytes the decoder is proved for |
| ReplayChain.ReplayValues | scripts/generate-trajectory-composition-fixtures.py:106-147 | The procedure returns the trajectory digest, every event digest, and the head that binds the trace |
| BinaryParts.PartsAreUnique | src/rules.rs:102-113 | A positive number has at most one decomposition with a mantissa from 1 to 2 |
| BinaryParts.SubnormalIsSmall | src/rules.rs:104-105 | Comparing a value with the least normal double tells exactly the doubles with biased exponent zero |
| BinaryParts.BitsAreUnique | src/rules.rs:109-109 | A positive finite double is determined by its value, so the value has one bit pattern |
| BinaryParts.NormalizedIsProduct | src/rules.rs:104-109 | Multiplying a subnormal by 2 to the 52 gives exactly one double, the normal one whose bits are used |
| BinaryParts.BinaryPartsAreExact | src/rules.rs:102-113 | For every positive finite double, subnormals included, the parts are the unique decomposition of its value and the exponent lies between -1074 and 1023 |
| BinaryParts.ShareIsPlainFormula | src/rules.rs:81-100 | Both branches give strength times estate over the total |
| BinaryParts.ShareOfDoubles | src/rules.rs:84-100 | The same for the parts read off the bits of doubles |
| BinaryParts.PowerArgumentIsBounded | src/rules.rs:92-99 | With strength at most the scale the exponent given to powi is at most 1023 |
| Allocation.CheckedIsExact | src/lib.rs:384-396 | Accepted exactly when no id is blank and none occurs twice; otherwise the first offending claim is reported, blank before repeated |
| Allocation.ValidateAll | src/lib.rs:384-396 | The loop with its seen set gives that verdict |
| Allocation.ScaledTotal | src/rules.rs:54-65 | The sum of the ratios is at least one and times the scale it is the total strength |
| Allocation.ProportionalAllocate | src/rules.rs:41-79 | The loops compute each claimant's strength times estate over total strength, or the verdict on the claims |
| Allocation.SharesSumToEstate | src/rules.rs:19-24 | The shares of a list that is not empty add up to the estate |
| Allocation.RemovalIsConsistent | src/rules.rs:25-27 | Removing any proper subset of the claimants with their shares leaves every other share as it was |
| Allocation.SumOverAny | src/lib.rs:484-486 | The sum of an allocation does not depend on the order of its entries |
| Allocation.Validate | src/lib.rs:444-475 | Accepted exactly when the claimants and only they have shares, none negative; otherwise the first missing claimant in the order of ids is reported, or else the first faulty entry, with a negative value before an unknown claimant |
| Allocation.ValidateFeasible | src/lib.rs:484-499 | Accepted exactly when the sum exceeds the estate by at most the tolerance; otherwise both amounts are reported |
| Allocation.EvaluateRule | src/lib.rs:593-601 | What comes back from any rule is its own result, covered and, if asked for, feasible; a result that passes both is never refused |
| Allocation.EvaluateProportional | src/lib.rs:735-746 | The checks behind the proportional rule never fail: every well-formed list gets its shares |
| Paradox.DetectPopulation | src/paradox.rs:133-195 | Nothing is reported exactly when every comparison is clear; otherwise the first violation or error in the order of the search |
| Paradox.DetectPriority | src/paradox.rs:199-247 | The same for the search over entrants and pairs |
| Paradox.PairShareIsRatio | src/paradox.rs:322-337 | A pair share of proportional shares depends on the two strengths alone |
| Paradox.OrderFollowsStrength | src/paradox.rs:339-355 | The order of two proportional shares is the order of the strengths, or a tie |
| Paradox.PopulationIsClear | src/paradox.rs:133-195 | For the proportional rule no strengthening lowers a pair share or fails |
| Paradox.PriorityIsClear | src/paradox.rs:199-247 | For the proportional rule no entrant flips an order; a comparison fails exactly for an entrant whose id is blank or taken |
| Paradox.CheckProportional | src/paradox.rs:133-247 | On valid claims, with any entrants: the population search finds nothing, the priority search finds nothing, and the latter fails exactly when some entrant is not valid |
| ParadoxSuite.EntrantCandidates | src/paradox.rs:249-314 | The entrants are, in order, each claim's clone and half-strength clone, the latter for claims above the tolerance, and the average claim |
| ParadoxSuite.DetectClaimantAddition | src/paradox.rs:86-124 | Nothing is reported exactly when no entrant takes more than the tolerance from a claimant; otherwise the first violation or error in the order of the search |
| ParadoxSuite.RunParadoxSuite | src/paradox.rs:45-76 | For any rule: the error of the rule itself, or the first error of the three searches over the same entrants, or what they found in order |
| ParadoxSuite.AdditionFinding | src/paradox.rs:86-124 | For the proportional rule one comparison fails exactly for an entrant that is not valid, and is a violation exactly when the claimant's exact loss exceeds the tolerance |
| ParadoxSuite.LossesAreDecided | src/paradox.rs:249-314 | Over all claimants and all entrants the suite makes, some loss exceeds the tolerance exactly when m m E > EPSILON T (T + m), for the strongest claim m, the estate E and the total T |
| ParadoxSuite.CheckProportionalSuite | src/paradox.rs:45-76 | For the proportional rule the suite fails exactly when an entrant it makes has the id of a claimant; otherwise it reports one claimant addition exactly under that condition, and never a population or priority paradox |
| ParadoxSuite.CollisionExample | src/paradox.rs:257-260 | Two valid claims for which it fails |
| Calendar.ConversionIsTheCalendar | src/certificate.rs:134-152 | Over all integers: day 0 is 1970-01-01, every date is valid, the next day is the next calendar day, and counting days gives the argument back |
| Calendar.ConversionUndoesCount | src/certificate.rs:134-152 | Every valid date of the proleptic Gregorian calendar is the conversion of its day count |
| Boundary.Collect | src/extract/boundary.rs:110-140 | The worklist terminates, on cyclic graphs too, with exactly the reachable names |
| Boundary.AssessBoundaryCausalSafety | src/extract/boundary.rs:91-168 | The pairs are exactly the governance nodes with a parsed function and the reachable names that are not governance names; both counts are those of the pairs |
| Ranks.ComputeRanks | probes/scripts/archetypes.py:187-199 | Each rank is the number of smaller values plus half of one more than the number of equal ones, and the ranks add up to n(n+1)/2 |
| Ranks.RankDependsOnMultiset | probes/scripts/archetypes.py:187-199 | A rank depends only on the value and the multiset of values |

## Left out

- KernelCalls.Kernel: procfs lookups, O_TMPFILE flag checks, mount profiles and errno values are success or failure by chance; SHA-256
  comparisons of bytes that are compared anyway are not repeated; a link count is computed from the names.
- KernelCalls.Kernel.Announce: other processes run where a stage is announced, not at the notice that a stage is complete and not between
  a check and the system call that follows it.
- KernelCalls.Kernel.RandomName: the number of hexadecimal digits is left open, so that a directory never has all such names; that a
  name is unused is assumed only of a kernel without failing calls.
- LinuxOutput.Publish: durability is what the last successful fsync of the file saw; directory entries are not modelled as
  lost by a crash, so a failed directory sync shows only in the result.
- LinuxOutputTransaction.PublishSet: under interference and success only the last output is known to be intact at the end;
  each earlier one was intact when it was looked at, and others may change it after that.
- LinuxOutputTransaction.PublishPair: both halves take the same hooks, and equal paths are compared as parsed paths.
- LinuxOutputSet.PublishDirectorySet: the parent directory must exist in the model's namespace as a chain of names; parsing of
  path bytes, "." and ".." in paths, is not modelled.
- LinuxPath.ReadSnapshot: the owner and duplicate checks on snapshots, and reading through procfs, are not modelled.
- Endless interruption: the number of interrupts is finite, so the retry loops end.
- ExecutedComposition.Check: the table is the closed form of its rows, which the checker pins; JSON parsing and the reader's
  drawing code are not modelled.
- ReplayChain.HeadBindsTrace: the hash is any function with 32-byte results and no collision among the payloads involved.
- CanonicalTrace.ParsesTrace: strings are the bytes of their UTF-8 encoding; traces whose numbers or lengths reach 2 to the 64
  cannot be packed and are excluded. The datatype fixes the payload of every event as empty and the classification of every
  cited value as cites-raw-range: the source encodes constants for both, so traces that differ only there have the same head.
- Allocation.ProportionalAllocate: rounding and the error of the compensated sum; arithmetic is exact.
- ParadoxSuite.RunParadoxSuite: metrics and labels of entrants, descriptions, the unused list of claimants, and the ledger in which
  the findings are recorded, whose failure would be an error of the suite.
- ParadoxSuite.CheckProportionalSuite: overflow of doubles. The average entrant adds the strengths without scaling them
  (`src/paradox.rs:304-310`), so two claims of strength 1.7e308 make the suite fail although no id collides.
- Boundary.AssessBoundaryCausalSafety: the order of the reported pairs, which are a set, and the summary strings.
- Calendar.CivilFromDays: the narrowing of the year to 32 bits, which holds for every time stamp the program can make.
- Ranks.ComputeRanks: the values are reals, so NaN does not occur; sorting is an insertion sort by value and index.
- Not modelled at all: trajectory capture, the graph and ledger modules, the consistency, solidarity and monotonicity
  checkers, other rules, certificates and signatures, extraction from source text, and the process supervisor.
