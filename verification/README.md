# Sentry ingest core: models and proofs

A Dafny model of the parts of Sentry whose correctness is decided by more than one line of code: the
double-checked locking that sorts events into groups, the short-id counter and its repair, the
regression compare-and-set, the PII config merge, the import-tree printer, the CI test scheduler,
bit fields, the crash-report limit cache, reprocessing, the lint visitor, killswitches and feature
flags. `dafny verify dfyconfig.toml` checks all of it.

Concurrent code is a labelled step system: a `State`, a `Next(s, label, t)` relation with one
predicate per atomic step, `IsRun` for whole runs from any allowed start, an invariant that every
step keeps, and theorems about every state of every run. Code that mutates objects is a class or a
method with loops, proved against a specification function; what the code is for is then proved
about that function.

| files | what they model |
|---|---|
| `GroupAssignment.dfy`, `HashLookup.dfy`, `GroupLinks.dfy`, `GroupOutcomes.dfy`, `OneCreator.dfy` | hashes, row locks, stale reads and group links in `event_manager.py`, both the inline form and the refactored form, side by side |
| `ShortIds.dfy` | issuing short ids and unsticking the counter, any number of workers at once |
| `Regression.dfy` | reopening a resolved group |
| `PiiMerge.dfy`, `PiiMeaning.dfy` | the merge of two PII configs and what references mean before and after |
| `ImportTree.dfy` | the recursive tree printer over a possibly cyclic import graph |
| `Scheduler.dfy`, `SchedulerLaws.dfy` | test sharding: the code, then load bounds and conservation |
| `Bits.dfy`, `BitFields.dfy` | two's-complement bits of unbounded integers; flag handlers over them |
| `CrashReports.dfy` | the attachment filter, its cache, its refunds |
| `Reprocessing.dfy` | row migration, tombstone buffering, attachment copies, progress |
| `LintVisitor.dfy`, `LintRules.dfy` | the flake8 visitor against a pure traversal |
| `Killswitches.dfy`, `Flagpole.dfy` | condition matching, parsing and printing, rollouts |

## Assumed of the environment

- A committed row update is atomic and waits for the row's lock; `SELECT ... FOR UPDATE` takes the
  whole row set in one step; a plain read sees committed values only.
- The short-id counter adds its delta atomically and returns the new value. A unique index decides
  an insert against every other insert, committed or not, while a plain query may miss uncommitted rows.
- A Seer match is some existing group, chosen arbitrarily. Locks, sorts and set iterations that fix
  no order may use any order.
- The reprocessing store is a map from hashes to event lists; each call is atomic.

## Where the code and its comments disagree

- Hash stealing. The comments say a hash can change groups only if both processes found an existing
  group (`src/sentry/event_manager.py:1557-1568`, `:1695-1706`). The row locks give less: a worker
  that read a hash as unlinked and found its group through another hash can overwrite the link that
  a group creator commits in between. `GroupLinks.HashStolenFromCreator` is such a run, and
  `GroupLinks.OnlyStaleAttachSteals` the exact condition.
- Counter repair. The comment's hunch that concurrent repairs only over-increment
  (`src/sentry/event_manager.py:1874-1877`) is right: `ShortIds.RepairReturnsFreshId` and
  `ShortIds.RetryNeverCollides`.
- Rollouts. A rate is documented as the number of buckets granted, from 0 to 100
  (`src/flagpole/conditions.py:219-225`). The comparison is `<=`, so every rate strictly between
  grants one bucket more: `Flagpole.RolloutGrantsItsRateExactlyWhen`.
- Merged rule names are called unique references (`src/sentry/datascrubbing.py:116-117`). They are,
  but a reference that is unresolved in its own config can be captured by a merged key:
  `PiiMeaning.MergePreservesMeaning` is the exact condition and `PiiMeaning.CaptureExample` a case.
- The round robin writes to group `i % 4` whatever the number of nodes, so with fewer than four nodes
  it can hit a missing group: `SchedulerLaws.ScheduleFailsExactlyWhen` says when and
  `SchedulerLaws.OneNodeIsTooFew` is a case.
- The progress counter is truncated after scaling to the visible event count, so with `max_events` a
  group can count as finished while events are pending: `Reprocessing.FinishesEarlyExactlyWhen`, and
  `Reprocessing.FinishedWhilePending` for a case.
- A flush stops at the first empty bucket, so even a forced one may leave events buffered:
  `Reprocessing.FlushDrainsExactlyWhen`, and the run `Reprocessing.ForcedFlushLeavesEvents`.

## Model

| member | source | states |
|---|---|---|
| GroupAssignment.FirstSome | src/sentry/grouping/ingest/hashing.py:195-212 | among rows without tombstones, the first linked one in list order, and none only if no row is linked |
| HashLookup.FindExistingGrouphash | src/sentry/grouping/ingest/hashing.py:195-212 | the first row that is linked or tombstoned decides: its index if linked, a discard with its tombstone otherwise, and nothing only if there is no such row |
| HashLookup.TombstonesHideLaterGroups | src/sentry/grouping/ingest/hashing.py:198-210 | a linked deciding row gives the group of the tombstone-free lookup; a deciding tombstone discards an event that would otherwise get a group exactly if a later row is linked |
| GroupAssignment.StepKeepsInv | src/sentry/event_manager.py:1388-1510 | every step of either form keeps: a transaction holds all its rows, what it read under the locks is still in them, an update covers exactly the rows it read as unlinked that are not migrating, a group found is one seen on the rows unless none was seen, groups being created differ, and rows refer to committed groups |
| GroupAssignment.OthersStayOk | src/sentry/event_manager.py:1431-1443 | one worker's step takes nothing away from another worker's view of its locked rows |
| GroupLinks.WriteStep | src/sentry/event_manager.py:1457-1461 | a commit or attach logs and makes exactly the update its worker prepared (its group, kind and rows), a link made under locks finds the rows unlinked, and only an attach to another category writes nothing |
| GroupLinks.StepKeepsLog | src/sentry/event_manager.py:1534-1576 | the table always equals the replay of the committed links |
| GroupLinks.RunIsSound | src/sentry/event_manager.py:1348-1585 | every state of every run satisfies the invariant and the log accounts for every row |
| GroupLinks.LockedLinksAreDisjoint | src/sentry/event_manager.py:1388-1510 | over any interleaving, two updates made under row locks never write the same row, nor one linked at the start: created groups share no hash |
| GroupLinks.LinkedForever | src/sentry/event_manager.py:1435-1461 | a linked row is never unlinked |
| GroupLinks.RecheckedRowsStayUnlinked | src/sentry/event_manager.py:1437-1461 | from recheck to commit the rows of a creating or Seer-linking worker stay unlinked and nobody else is in a transaction on them |
| GroupLinks.MigratingRowsAreLeftAlone | src/sentry/models/grouphash.py:25-37 | no step links or relinks a row that is LOCKED_IN_MIGRATION |
| GroupLinks.OnlyStaleAttachSteals | src/sentry/event_manager.py:1534-1576 | a step replaces one group of a row by another if and only if it is an unlocked attach to a different ERROR group of a row read as unlinked and not migrating |
| GroupLinks.HashStolenFromCreator | src/sentry/event_manager.py:1557-1568 | a run in which a hash moves away from the group its creator just committed although the creator never found an existing group |
| GroupOutcomes.ReadsWereTrue | src/sentry/event_manager.py:1372-1374 | over whole runs, every group id a worker read was in that row at some earlier moment |
| GroupOutcomes.NewExactlyWhenNotCommitted | src/sentry/event_manager.py:1455-1510 | an event that ends in a group is new if and only if the group was not committed before; the group is committed then, no other one is, and an existing group is one seen on its rows or a Seer match |
| GroupOutcomes.NewExactlyWhenCommittedItself | src/sentry/event_manager.py:1463-1510 | over whole runs, a finished event reports a new group if and only if it committed that group itself when nobody had before |
| GroupOutcomes.NewGroupsHaveOneCreator | src/sentry/event_manager.py:1447-1510 | groups committed during a run and events that report them as new correspond one to one |
| GroupOutcomes.FinishedEventsAreLinked | src/sentry/event_manager.py:1549-1576 | when an event ends in a group, all its rows are linked, those it read as unlinked to that group, except migrating ones; no other row changes |
| GroupOutcomes.NoGroupExactlyWhenMismatched | src/sentry/event_manager.py:1521-1530 | an event ends without a group if and only if the group it found is of another category, and then changes nothing |
| GroupOutcomes.LookTakesTheFirstGroup | src/sentry/event_manager.py:1372-1388 | the first look finds the first linked row's group, and takes the creation path exactly if there is none |
| GroupOutcomes.EachFormKeepsToItsPath | src/sentry/event_manager.py:1447-1521 | only the inline form releases the locks before attaching and links a Seer match under them; only the refactored form asks Seer without locks and attaches under them |
| GroupOutcomes.EventsMayBeDiscarded | src/sentry/event_manager.py:1388-1402 | an event may be discarded at any point before it has an outcome, and then changes no row |
| GroupOutcomes.SomebodyCanGoOn | src/sentry/event_manager.py:1348-1585 | in every reachable state an unfinished worker can go on, or a row it needs is locked by a worker that can |
| OneCreator.StepInRace | src/sentry/event_manager.py:1431-1510 | with equal hash sets, every step leads from "nothing committed" to itself or to "one group, one creator, everybody else attaches" |
| OneCreator.CommitCloses | src/sentry/event_manager.py:1455-1461 | the first commit links all rows, and no other worker can then be past its recheck |
| OneCreator.ClosedLock | src/sentry/event_manager.py:1431-1443 | whoever takes the locks after that finds that one group and falls through to the existing path |
| OneCreator.AtMostOneCreator | src/sentry/event_manager.py:1784-1799 | two workers that created or are about to commit a group are the same worker |
| OneCreator.RaceCreatesOneGroup | src/sentry/event_manager.py:1348-1585 | over every interleaving: one group, created by the first commit only; every completed event is in it; exactly one completed or in-progress worker is its creator |
| ShortIds.StepKeepsInv | src/sentry/event_manager.py:1859-1892 | every step keeps: ids held by workers were issued to them, a measured maximum bounds every id that no worker inserted, and an id about to be retried is free |
| ShortIds.RetryNeverCollides | src/sentry/event_manager.py:1880-1892 | the single retry never violates uniqueness, under any concurrency, deletions included |
| ShortIds.IdsAreNeverShared | src/sentry/event_manager.py:1965-1973 | no two workers ever hold the same id |
| ShortIds.StuckIdsStayVisible | src/sentry/event_manager.py:1943-1945 | without deletions a stuck id is in the table and not another worker's fresh insert, so the maximum query sees it |
| ShortIds.RepairReturnsFreshId | src/sentry/event_manager.py:1947-1962 | without deletions a repair moves the counter, returns an id above every id the maximum saw and different from all issued, and the next free one exactly when no id was issued since |
| ShortIds.MaxQueryFindsRows | src/sentry/event_manager.py:1943-1948 | without deletions the maximum is never None |
| ShortIds.IdsAreIssuedInOrder | src/sentry/event_manager.py:1965-1973 | ids come from above the initial counter and, while nothing is repaired, without a gap |
| ShortIds.CreationInsertsAFreeId | src/sentry/event_manager.py:1859-1887 | the table grows only by a created group's id, which was free |
| ShortIds.TableIsStartPlusCreations | src/sentry/event_manager.py:1859-1887 | without deletions the table is what was there plus the ids of the created groups |
| ShortIds.StuckExactlyWhenTaken | src/sentry/event_manager.py:1863-1871 | the first insert fails if and only if its id is taken |
| ShortIds.RepairMovesCounterExactlyWhen | src/sentry/event_manager.py:1948-1962 | the counter moves, by what is lacking, if and only if the worker's id is not above the maximum; otherwise the worker keeps its id |
| ShortIds.RetrySucceeds | src/sentry/event_manager.py:1880-1887 | the retry creates its group |
| ShortIds.EveryWorkerCanGoOn | src/sentry/event_manager.py:1802-1892 | every unfinished worker can take its next step without a timeout |
| Regression.StepKeepsTrace | src/sentry/event_manager.py:1993-2014 | winners and successful updates stay in one-to-one correspondence, as do recorded winners and activities |
| Regression.RunIsSound | src/sentry/event_manager.py:1993-2115 | in every state `active_at` is the date of the last successful update, and winners, updates and activities correspond |
| Regression.UpdatesKeepTheirDistance | src/sentry/event_manager.py:2001-2007 | dates of successful updates are strictly increasing with gaps over five seconds, counted from the initial `active_at` |
| Regression.WinnersKeepTheirDistance | src/sentry/event_manager.py:1991-2005 | two workers that both reopened the group did so on dates more than five seconds apart |
| Regression.ActivitiesMatchUpdates | src/sentry/event_manager.py:2089-2108 | with nobody between update and activity, regression activities are the successful updates, each once |
| Regression.IgnoredStaysIgnored | src/sentry/event_manager.py:1997-2000 | an ignored group is never reopened by the update |
| Regression.ReopensExactlyWhen | src/sentry/event_manager.py:1994-2014 | the update succeeds if and only if the status is Resolved or Unresolved and the group was not active in the five seconds before the date or later, and then writes exactly that date |
| Regression.ResolvedGroupsAreReopened | src/sentry/event_manager.py:1994-2014 | a resolved group that was never active is always reopened |
| Regression.DatesAreDecidedOnce | src/sentry/event_manager.py:1993 | the date is the later of the event's and the known last seen, and is kept |
| Regression.EveryWorkerCanGoOn | src/sentry/event_manager.py:1993-2108 | every worker can take its next step, and a winner's next step writes its activity |
| PiiMerge.AddRules | src/sentry/datascrubbing.py:125-130 | the rule loop adds exactly the part's rules under prefixed names |
| PiiMerge.AppendApplications | src/sentry/datascrubbing.py:137-142 | the inner loop appends the renamed list in order |
| PiiMerge.AddAllApplications | src/sentry/datascrubbing.py:132-142 | the selector loop extends each selector's list and leaves the others |
| PiiMerge.MergePiiConfigs | src/sentry/datascrubbing.py:112-144 | the loops compute the part-by-part merge whose laws follow |
| PiiMeaning.OrganizationAndProjectArePrefixFree | src/sentry/datascrubbing.py:41-46 | neither of the two prefixes starts the other |
| PiiMeaning.NamesComeFromOnePart | src/sentry/datascrubbing.py:127 | a merged name determines its part and its original name |
| PiiMeaning.MergedRule | src/sentry/datascrubbing.py:125-130 | each rule's merged definition is its own with references renamed, whatever other parts define |
| PiiMeaning.MergeIsBijective | src/sentry/datascrubbing.py:112-130 | merged keys are exactly the renamed names and as many as all rules together |
| PiiMeaning.MergedApplications | src/sentry/datascrubbing.py:132-142 | a selector is merged exactly if some part has it, and its list is all parts' renamed lists in order |
| PiiMeaning.OrganizationAppliesFirst | src/sentry/datascrubbing.py:29-46 | the organization's applications come before the project's |
| PiiMeaning.RenamingKeepsShape | src/sentry/datascrubbing.py:176-193 | renaming changes the references of a "multiple" rule and nothing else |
| PiiMeaning.MeaningIsPreserved | src/sentry/datascrubbing.py:112-144 | expanding a rule's prefixed name to any depth equals expanding its name at home, cycles included, when nothing is captured |
| PiiMeaning.CaptureChangesMeaning | src/sentry/datascrubbing.py:180-184 | a captured reference changes what its rule expands to |
| PiiMeaning.MergePreservesMeaning | src/sentry/datascrubbing.py:112-193 | all of a part's rules keep their meaning if and only if no reference unresolved at home is a merged key |
| PiiMeaning.ApplicationKeepsMeaning | src/sentry/datascrubbing.py:137-142 | an applied name keeps its meaning if and only if it is custom at home or no merged key |
| PiiMeaning.BuiltInsAreNeverCaptured | src/sentry/datascrubbing.py:41-46 | references to '@' rules are never captured by the two prefixes |
| PiiMeaning.CaptureExample | src/sentry/datascrubbing.py:182-184 | a concrete organization rule whose meaning a project rule takes over |
| ImportTree.CollectDependencies | src/sentry/_importchecker.py:60-63 | the graph has exactly the observed imports |
| ImportTree.Sorted | src/sentry/_importchecker.py:79 | the imports in ascending order, each once |
| ImportTree.LessExactlyWhen | src/sentry/_importchecker.py:79 | one name sorts before another where they first differ, or where it ends |
| ImportTree.TreeWriter.Print | src/sentry/_importchecker.py:71-77 | a line is printed and counted, and all counters still agree with the lines |
| ImportTree.TreeWriter.WriteDep | src/sentry/_importchecker.py:67-81 | ends on every graph, restores the indentation, prints one tree headed by the module in which every expanded module is followed by its imports in sorted order, expands only reachable modules and adds one visit per newly expanded importer |
| ImportTree.TreeWriter.WriteChildren | src/sentry/_importchecker.py:78-81 | prints one tree per import, in sorted order, and every import has been visited once for the module |
| ImportTree.TreeWriter.WriteRoots | src/sentry/_importchecker.py:85-86 | prints one tree at depth 0 per entry of the import order, in order |
| ImportTree.EmitAsciiTree | src/sentry/_importchecker.py:59-86 | exactly the modules reachable from the import order are seen, each as often as it occurs there plus once per reachable importer; the printout is a forest whose roots are the import order, with sorted imports under every expanded module, and every repeated line shows the number of earlier ones |
| ImportTree.PrintoutIsDetermined | src/sentry/_importchecker.py:67-86 | that shape and those counts leave one possible printout, line by line |
| ImportTree.PrintingAppends | src/sentry/_importchecker.py:69-81 | a tree is a block of lines: one for its module at its depth, everything after it deeper |
| ImportTree.ImportsAreOneDeeper | src/sentry/_importchecker.py:77-80 | a module is printed at its depth and its imports, in order, at exactly one more |
| ImportTree.AgreesExtends | src/sentry/_importchecker.py:71-77 | the counter update keeps counters equal to line counts |
| ImportTree.OneMoreChild | src/sentry/_importchecker.py:79-80 | visiting one more import accounts for everything it newly expands |
| ImportTree.ExpandedOnce | src/sentry/_importchecker.py:71-77 | a module that is printed at all is expanded exactly once |
| Scheduler.DefaultsExtend | jest.config.ts:69-85 | the tests with stats come first and unchanged; the others are listed tests without a stat, at 1500 ms each; names stay distinct and durations positive |
| Scheduler.DefaultsCover | jest.config.ts:80-93 | every listed test is known |
| Scheduler.NothingIsMissing | jest.config.ts:87-93 | the check for missing tests never fires on a list without duplicates |
| Scheduler.FillGroup | jest.config.ts:114-133 | one group pops exactly the tests the specification says, in order |
| Scheduler.PackAll | jest.config.ts:113-134 | the greedy loop computes the specified packing |
| Scheduler.DealRest | jest.config.ts:136-145 | the round robin computes the specified dealing, or fails where a group is missing |
| Scheduler.GetTestsForGroup | jest.config.ts:52-163 | which error is raised, in order of the checks, and otherwise the node's share of the one schedule all nodes compute |
| SchedulerLaws.FillBounds | jest.config.ts:118-133 | a group stays below target plus 30 s; it ends at the target unless tests ran out or a long one blocks |
| SchedulerLaws.FillStopsExactlyWhen | jest.config.ts:118-133 | a group takes tests until it first reaches the target, runs out of tests, or meets one over 30 s that would overshoot |
| SchedulerLaws.GreedyLoadBound | jest.config.ts:113-134 | every group leaves the greedy phase below target plus 30 s |
| SchedulerLaws.LeftoverBound | jest.config.ts:58-134 | with no test over 30 s, leftovers total at most 1.5 s per test without a stat |
| SchedulerLaws.NothingLeftOver | jest.config.ts:58-134 | and with a stat for every test nothing is left over |
| SchedulerLaws.DealLoad | jest.config.ts:137-145 | dealing takes nothing from a group and adds at most everything left over |
| SchedulerLaws.FinalLoadBound | jest.config.ts:52-145 | with no test over 30 s every node's final group stays below target plus 30 s plus 1.5 s per test without a stat |
| SchedulerLaws.PackConserves | jest.config.ts:113-134 | packed groups and the rest are a permutation of the tests |
| SchedulerLaws.PackKeepsOrder | jest.config.ts:113-134 | the groups one after the other, then the rest, are the sorted tests from last to first |
| SchedulerLaws.DealConserves | jest.config.ts:136-145 | dealing moves every leftover test into some group |
| SchedulerLaws.DealGoesRound | jest.config.ts:137-145 | the k-th leftover test goes to group k % 4, behind what was packed there and the k / 4 dealt to it before |
| SchedulerLaws.DealKeepsGroups | jest.config.ts:137-145 | every group starts with its packed tests and grows by exactly its turns |
| SchedulerLaws.LeftoversAreSpread | jest.config.ts:137-145 | the first four groups' shares of the leftovers differ by at most one, the others get none |
| SchedulerLaws.ScheduleFailsExactlyWhen | jest.config.ts:137-145 | the round robin hits a missing group if and only if there are fewer nodes than the smaller of four and the leftovers |
| SchedulerLaws.OneNodeIsTooFew | jest.config.ts:137-145 | a concrete suite for one node on which the round robin hits a missing group |
| SchedulerLaws.EveryTestRunsOnce | jest.config.ts:52-163 | every listed test is on exactly one node in exactly one place, with four or more nodes always |
| SchedulerLaws.OffsetsAreContiguous | jest.config.ts:191-195 | each slice starts where the previous one ends, the first at 0, the last ending at the length |
| SchedulerLaws.Slice | jest.config.ts:191-197 | a slice has the rounded-down size, and one more for the first nodes up to the remainder |
| SchedulerLaws.EarlierSlicesAreLonger | jest.config.ts:192-195 | slices differ in size by at most one, the longer ones first |
| SchedulerLaws.SlicesCoverTests | jest.config.ts:189-197 | the slices of all nodes in order are the whole list |
| Bits.AndBit | src/bitfield/types.py:207-217 | `&` on signed integers, bit by bit |
| Bits.OrBit | src/bitfield/types.py:211-217 | the same for <code>&#124;</code> |
| Bits.NotBit | src/bitfield/types.py:216 | the same for `~` |
| Bits.SameBits | src/bitfield/types.py:115-118 | integers of either sign with the same bits are equal |
| Bits.ModBit | src/bitfield/models.py:138-142 | the remainder by a power of two keeps the low bits and clears the rest |
| BitFields.WithBitBits | src/bitfield/types.py:211-217 | setting or clearing a bit changes that bit and no other, on any signed integer |
| BitFields.MaskTest | src/bitfield/types.py:207-209 | the mask test is the bit |
| BitFields.WriteFlag | src/bitfield/types.py:184-189 | writing a flag's bit is updating the name-to-bool map at that name |
| BitFields.BitHandler.GetBit | src/bitfield/types.py:207-209 | `is_set` is the bit |
| BitFields.BitHandler.SetBit | src/bitfield/types.py:211-217 | the new value differs in that bit only and the returned bit is the one written |
| BitFields.BitHandler.SetFlag | src/bitfield/types.py:184-191 | an unknown name fails and changes nothing; a known one updates the map |
| BitFields.BitHandler.SetFlags | src/bitfield/types.py:184-191 | a sequence of assignments yields the specified value |
| BitFields.BitHandler.Items | src/bitfield/types.py:228-230 | the items are the names in order with the map's values |
| BitFields.HandlerRefinesMap | src/bitfield/types.py:182-230 | after any updates, visible flags equal the map after the same updates, and bits of no flag are unchanged |
| BitFields.OperatorsWriteFlags | src/bitfield/types.py:5-59 | <code>value &#124; bit</code> sets and `value & ~bit` clears that flag alone |
| BitFields.FoldDefault | src/bitfield/models.py:109-113 | the folded default has exactly the named flags' bits; it fails exactly on an unknown name |
| BitFields.ToPython | src/bitfield/models.py:131-148 | a negative value becomes its remainder by 2^len(flags), visible flags are unchanged and the result fits 63 bits |
| BitFields.OneMoreBit | src/bitfield/models.py:139-141 | one iteration of the repair loop extends the remainder by one bit |
| CrashReports.KeepsTheFirstThatFit | src/sentry/event_manager.py:2611-2642 | an attachment stays if and only if it is no crash report, storage is unlimited, or the reports before it leave room |
| CrashReports.FilterConserves | src/sentry/event_manager.py:2609-2660 | kept and dropped partition the input, non-crash attachments all stay in order, quantities add up |
| CrashReports.SelectKeepsOrder | src/sentry/event_manager.py:2609-2642 | the filtered list is an order-preserving subsequence: each kept attachment comes after exactly the kept ones before it |
| CrashReports.SizesAt | src/sentry/event_manager.py:2625-2635 | one outcome per dropped attachment, with its size |
| CrashReports.KeptFits | src/sentry/event_manager.py:2615-2649 | kept reports never pass the limit, and reach it exactly when there were enough |
| CrashReports.KeptCount | src/sentry/event_manager.py:2611-2642 | as many crash reports are kept as there is room for |
| CrashReports.QuantityCountsBytes | src/sentry/event_manager.py:2512 | quotas count bytes, and one for each attachment without any |
| CrashReports.Sift | src/sentry/event_manager.py:2607-2642 | the loop keeps the specified list, emits one outcome per dropped attachment with its size, refunds the sum of (size or 1) over exactly those, flags stripping only for positive limits |
| CrashReports.GroupReports.FilterAttachments | src/sentry/event_manager.py:2572-2660 | the same for the whole function; with an honest cache the limit is cached if and only if this event fills it |
| CrashReports.LimitIsCachedExactlyWhen | src/sentry/event_manager.py:2644-2649 | the cache entry after an event: the limit exactly if the reports reach it with this event, otherwise as before |
| CrashReports.EventStoresExactly | src/sentry/event_manager.py:2603-2649 | how many reports are stored after an event: all without a limit, otherwise as many as there is room for |
| CrashReports.CachedLimitDecides | src/sentry/event_manager.py:307-309 | a cached limit drops every crash report at that limit or a lower one, whatever is stored |
| CrashReports.GroupReports.ProcessEvent | src/sentry/event_manager.py:2572-2660 | filtering and then saving what was kept is the abstract event step, and the refund covers exactly what was dropped |
| CrashReports.DiscardAttachments | src/sentry/event_manager.py:2509-2533 | a discarded event emits one outcome per attachment and refunds all of them; nothing is refunded only for no attachments |
| CrashReports.CacheAgreesExactlyWhen | src/sentry/event_manager.py:300-315 | the cached decision differs from the counted one if and only if the cache claims at least today's limit and the stored reports do not fill it |
| CrashReports.EventKeepsCacheHonest | src/sentry/event_manager.py:2644-2649 | an event never caches more than is stored, nor stores past a finite limit |
| CrashReports.CacheIsInvisible | src/sentry/event_manager.py:294-315 | after any history of events with changing limits, expiries and deletions, the cache changes no decision |
| CrashReports.CacheRefinesCount | src/sentry/event_manager.py:294-315 | over any history exactly as many reports are stored as without a cache |
| CrashReports.StoredStaysBounded | src/sentry/event_manager.py:2603-2649 | while limits are finite the stored count never exceeds the larger of its start and the largest limit so far |
| Reprocessing.Database.StartGroupReprocessing | src/sentry/reprocessing2.py:519-606 | short ids stay unique at every write and migrated rows keep referring to groups; on success the old group is retired, the new one has its attributes and exactly its rows in every migrated table, and the old one has only the new activity; on an error nothing changes |
| Reprocessing.UniqueExactlyWhen | src/sentry/reprocessing2.py:542-545 | the constraint says that within a project a short id names one group |
| Reprocessing.Database.MigrateTables | src/sentry/reprocessing2.py:566-571 | every migrated table is updated and no other |
| Reprocessing.MigrationMovesEveryRow | src/sentry/reprocessing2.py:570-571 | the new group has exactly the old one's rows, the old one none, others theirs |
| Reprocessing.RowsFollowTheNewGroup | src/sentry/reprocessing2.py:566-598 | in every migrated table the fresh group ends with the old one's rows, the old one with at most the new activity, others with theirs |
| Reprocessing.StartTwice | src/sentry/reprocessing2.py:530-537 | a second start on the same group is refused |
| Reprocessing.TombstoneStore.Record | src/sentry/reprocessing2.py:362-372 | an event is recorded in its hash's bucket and the bucket's hash is remembered |
| Reprocessing.TombstoneStore.Send | src/sentry/reprocessing2.py:252-312 | exactly the buckets before the first empty one are flushed, if forced or over the threshold, each as one batch in iteration order; no event is lost or doubled |
| Reprocessing.TombstoneStore.Pop | src/sentry/eventstore/reprocessing/redis.py:49-82 | a popped bucket becomes exactly one batch of that hash, appended to those sent |
| Reprocessing.TombstoneStore.BufferedDelete | src/sentry/reprocessing2.py:315-384 | exactly the qualifying event is recorded, then exactly the buckets before the first empty one are flushed if forced or over the threshold; the killswitch changes nothing; every recorded event stays accounted for, early returns included |
| Reprocessing.ThresholdCountsUnsent | src/sentry/reprocessing2.py:258-269 | the count that decides about a flush is the number of events recorded and not yet sent |
| Reprocessing.EveryEventIsInOnePlace | src/sentry/reprocessing2.py:258-296 | with distinct recordings each event is in exactly one of its hash's bucket or that hash's batches |
| Reprocessing.FlushDrainsExactlyWhen | src/sentry/reprocessing2.py:271-280 | a flush empties the store if and only if no empty bucket precedes a filled one |
| Reprocessing.ForcedFlushLeavesEvents | src/sentry/reprocessing2.py:271-280 | two forced flushes after which an event is still buffered, the second having met the bucket the first emptied |
| Reprocessing.CopyAttachmentIntoCache | src/sentry/reprocessing2.py:387-421 | the cached chunks concatenate to the file, none empty, and the size assertion holds exactly for a truthful recorded size |
| Reprocessing.FinishedExactlyWhen | src/sentry/reprocessing2.py:609-643 | a group counts as finished if and only if pending times visible events is below the sync count (or 1) |
| Reprocessing.FinishesEarlyExactlyWhen | src/sentry/reprocessing2.py:584-585 | a started group can count as finished while events are pending if and only if the limit is below the event count |
| Reprocessing.FinishedWhilePending | src/sentry/reprocessing2.py:639-643 | two events, a limit of one and one mark: one event pending and the group finished |
| Reprocessing.ProgressStaysInRange | src/sentry/reprocessing2.py:639-643 | progress stays between 0 and the visible event count and starts at it |
| Reprocessing.ProgressIsRoundedDown | src/sentry/reprocessing2.py:618-643 | progress is the visible share of the pending events, rounded down; missing keys read as finished |
| Reprocessing.FinishFiresOnce | src/sentry/eventstore/reprocessing/redis.py:142-152 | the counter reaches zero for at most one caller, the last one when the marks add up |
| LintVisitor.SentryVisitor.Visit | tools/flake8_plugin.py:37-147 | the visit appends exactly the pure traversal's errors and restores the handler stack |
| LintVisitor.SentryVisitor.VisitExceptHandler | tools/flake8_plugin.py:103-108 | a handler's subtree is checked with its name on top and the stack is restored |
| LintVisitor.SentryVisitor.Check | tools/flake8_plugin.py:44-147 | each node's own errors, S009 from the top of the stack |
| LintVisitor.SentryVisitor.CheckImportFrom | tools/flake8_plugin.py:44-67 | the appends for an import-from, S008 independent of the others |
| LintVisitor.SentryVisitor.CheckAttribute | tools/flake8_plugin.py:83-95 | at most one error per attribute, by the first rule that applies |
| LintVisitor.SentryVisitor.CheckImport | tools/flake8_plugin.py:69-81 | one error at most per imported name, in order |
| LintVisitor.SentryVisitor.CheckOptions | tools/flake8_plugin.py:143-145 | one S011 per SENTRY_OPTIONS keyword |
| LintVisitor.SentryVisitor.GenericVisit | tools/flake8_plugin.py:103-108 | children are visited in order under the same handler |
| LintVisitor.NearestFromChild | tools/flake8_plugin.py:103-117 | the stack top passed down equals the nearest handler found by walking up |
| LintVisitor.ErrorsAreLocal | tools/flake8_plugin.py:37-147 | an error is reported if and only if some node causes it, judged by that node and its nearest enclosing handler |
| LintVisitor.ReraiseIsReportedExactlyWhen | tools/flake8_plugin.py:103-117 | S009 is reported at a position if and only if a raise there names the variable bound by its nearest enclosing handler |
| LintRules.LocalErrorsExactlyWhen | tools/flake8_plugin.py:44-147 | a node's errors are exactly the violations of the eleven rules, stated message by message |
| LintRules.ReportedExactlyWhenViolated | tools/flake8_plugin.py:37-147 | an error is reported if and only if some node of the tree violates its rule, judged by that node and the nearest handler around it |
| LintRules.RootExactlyWhen | tools/flake8_plugin.py:46 | the first dotted part is a package exactly if the name is it or continues it after a dot |
| LintRules.TryFieldsInOrder | tools/flake8_plugin.py:119-128 | errors in a try statement come in the order body, handlers, else, final, after the statement's own |
| LintRules.CallFieldsInOrder | tools/flake8_plugin.py:130-147 | errors in a call come in the order function, arguments, keywords, after the call's own |
| LintRules.HandlerFieldsInOrder | tools/flake8_plugin.py:103-108 | errors in a handler are those of the caught expression, then of the body, both judged inside the handler |
| Killswitches.Fields.FillMissing | src/sentry/killswitches.py:258-263 | fills every missing field of the caller's dictionary in place, or strictly changes nothing and reports whether one is missing |
| Killswitches.NormalizeEntry | src/sentry/killswitches.py:253-270 | one entry's normalized form, its error, and what happens to its dictionary |
| Killswitches.FillingKeepsMeaning | src/sentry/killswitches.py:258-270 | a dictionary already filled in normalizes to the same condition, so entries may share one |
| Killswitches.NormalizeValue | src/sentry/killswitches.py:245-272 | strict success equals non-strict normalization, strict mode succeeds exactly if every entry has exactly the known fields, the first offender is reported, a missing field before an unknown one; the option's dictionaries are filled in place, and left alone in strict mode |
| Killswitches.ConditionMatches | src/sentry/killswitches.py:298-309 | the inner loop ends normally if and only if every given field equals the context's |
| Killswitches.ValueMatches | src/sentry/killswitches.py:292-311 | true if and only if some normalized condition has all its given fields equal to the context's, with the option's dictionaries filled in |
| Killswitches.NormalizeIsIdempotent | src/sentry/killswitches.py:249-272 | normalizing twice is normalizing once |
| Killswitches.NormalizingKeepsMatches | src/sentry/killswitches.py:292-311 | a raw value matches as typed, legacy ids included, exactly if its normalization does |
| Killswitches.FirstOffenderIsUnique | src/sentry/killswitches.py:258-268 | strict mode has one error to report: the first entry that is not exact, as a missing field if it lacks one |
| Killswitches.NormalizedFields | src/sentry/killswitches.py:258-270 | a normalized condition has every known and every given field, given values as text, the others as wildcards |
| Killswitches.NormalizedIsExactExactlyWhen | src/sentry/killswitches.py:245-270 | what was normalized passes strict validation if and only if no unknown field was given |
| Killswitches.NumbersStayApart | src/sentry/killswitches.py:270 | different numbers are different texts |
| Killswitches.LegacyMatchesItsProject | src/sentry/killswitches.py:254-256 | an id in the legacy format matches exactly that project |
| Flagpole.ReadList | src/flagpole/conditions.py:229 | a list of entries is read if and only if every entry is, entry by entry and in order |
| Flagpole.ListRoundTrip | src/flagpole/__init__.py:134 | a written list reads back as itself unless one of its entries does not |
| Flagpole.ConditionRoundTrip | src/flagpole/conditions.py:199-208 | a condition's dictionary reads back as the condition |
| Flagpole.SegmentRoundTrip | src/flagpole/conditions.py:227-234 | so does a segment's, unless its rollout is None |
| Flagpole.ConditionDefaults | src/flagpole/conditions.py:199-208 | no operator is rejected; no value is None, no property its text |
| Flagpole.SegmentDefaults | src/flagpole/conditions.py:227-234 | the defaults of name, conditions and rollout |
| Flagpole.ConditionsMayBeEmpty | src/flagpole/conditions.py:229 | of values that are no list, an empty text or dictionary passes as no conditions and nothing else |
| Flagpole.FeatureDefaults | src/flagpole/__init__.py:128-147 | no segments is rejected; the defaults of owner, enabled and the date |
| Flagpole.FalsyExactlyWhen | src/flagpole/__init__.py:138 | what disables a feature |
| Flagpole.WrittenKeys | src/flagpole/__init__.py:183-186 | the keys a feature, its segments and conditions are written under |
| Flagpole.RoundTripsExactlyWhen | src/flagpole/__init__.py:128-186 | a feature survives writing and reading if and only if it has a creation date and every segment a rollout |
| Flagpole.ParsedFeaturesRoundTrip | src/flagpole/__init__.py:128-186 | every feature read from a dictionary survives |
| Flagpole.MatchSegment | src/flagpole/conditions.py:236-241 | a segment matches if and only if all its conditions hold; otherwise the first that does not hold decides, a no or an exception |
| Flagpole.Match | src/flagpole/__init__.py:106-115 | granted if and only if enabled and the first segment that is no plain no matches and rolls out to the id; raises if and only if that segment raises; later segments change nothing |
| Flagpole.GrantedCount | src/flagpole/conditions.py:243-253 | how many of the first buckets a rate grants |
| Flagpole.RolloutRepeats | src/flagpole/conditions.py:250-251 | ids that differ by a multiple of 100 are granted alike |
| Flagpole.WindowsAreAlike | src/flagpole/conditions.py:243-253 | any hundred consecutive ids are granted as often as the first hundred |
| Flagpole.GrantsAllOrNoneExactlyWhen | src/flagpole/conditions.py:243-253 | everybody is granted without a rollout or from 99 on, nobody at 0 or below |
| Flagpole.RolloutGrantsItsRateExactlyWhen | src/flagpole/conditions.py:219-253 | among any hundred consecutive ids a rate grants its number if and only if it is 0 or 100; every other rate grants one more |

## Left out

- Group assignment: deletion of the group found, and `_process_existing_aggregate` after the link; rows are locked all at once, so a deadlock from locking them one by one is outside the model, as is any bound on waiting.
- GroupAssignment.FirstSome: the rows of the step system carry no tombstones (`HashLookup` models the lookup with them); an event discarded by one is a worker that fails before or inside its transaction, which the steps allow at any point, and discarding a group while events are saved is left out.
- Group assignment: a Seer request and its failures; it is an arbitrary existing group or none.
- Short ids: a rollback of the surrounding transaction that also undoes its counter increment, and the column width; other integrity errors pass through unchanged in the source.
- Regression: the checks before the date is computed are an arbitrary yes or no; signals, resolutions and history rows are not modelled.
- PII merge: references in rule types other than "multiple", which the source does not rewrite; a key absent from the merged dictionary and an empty one are the same here; deep copies, hence aliasing, are not visible on values.
- Import tree: the text of a line, the list of top dependencies, `emit_dot`, `track_import` and Python's recursion limit.
- Scheduler: the sort comparator, which is no consistent order, so any permutation is allowed; floating-point rounding; reading the environment.
- Bit fields: shifts, addition and xor of handlers, labels, names starting with an underscore, dictionary-valued flags and database adapters.
- Crash reports: concurrent events of one group, admitted reports that fail to be saved, and limits below -1.
- Crash reports: quota and outcome back ends; what is sent to them is a result.
- Reprocessing: expiry of store keys, two flushes popping one bucket at once, event counts from Snuba, and the timeout that finishes a stuck group; floating-point rounding of the progress ratio.
- Reprocessing.TombstoneStore.Send: the early end at an empty bucket is modelled, but no bound on what stays buffered holds in the source and none is claimed.
- Lint visitor: non-ASCII letters in `lower()`; alias nodes are names only.
- Flagpole: how a single condition evaluates (yes, no or an exception is a parameter), floats, JSON and YAML text and the JSON schema; `str` and `int` are arbitrary functions with `str(s) = s` on text and `int(i) = i` on integers.
