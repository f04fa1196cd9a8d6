# Triplex: a verified model

Triplex keeps bitemporal facts, refuses transactions that would break its
constraints, stores configuration as a content-addressed graph, evaluates
three-valued rules over both, and projects validation results from them. This
project models the parts of it in which a finite or fast form must agree with an
infinite or simple one, and proves that they do.

| file | models |
|---|---|
| `Triples`, `Constraint`, `ConstraintMeaning`, `ConstraintBoundaries`, `ConstraintSlice` | rules over live facts, what accepting a transaction means for each, and checking it on a slice of the facts and at interval endpoints only |
| `Commit`, `PatternSafety`, `StoredValues`, `Journal`, `JournalMeaning`, `Enforcement`, `JournalBreaches` | what is written after the check and read back, what the journal says, what enforcement gives, and exactly which patterns, assertions and rules it is safe for |
| `Ledger`, `EnforcedRuns` | runs of enforced transactions: positions, command ids and ids that are never repeated, and safety over the whole run |
| `BoolExpr`, `Evaluator`, `EvaluatorMeaning`, `EvaluatorProofs`, `EvaluatorSemantics` | recorded three-valued evaluation over a possibly cyclic rule catalog, its Merkle tree, replay, and its meaning |
| `EvaluationCache`, `CacheHits`, `CacheSubjects` | the cache keyed on what an evaluation observed, when it hits, and the deploy preview |
| `ConfigNode`, `ConfigTree`, `ConfigDiff`, `Catalog`, `ConfigRuntime`, `DecisionMeaning` | the Merkle configuration tree, its store, its diff, rule catalogs, and deciding a deployed rule from prefetched facts |
| `RowTable`, `DependencyState`, `SqliteAdapter` | the append-and-close row table with commit positions, time travel, freshness tokens, and the adapter that writes it |
| `Pagination`, `PagedTraversal`, `PageOrder` | cursors, the order of rows, and following cursors while other transactions commit |
| `FdbChunks`, `FdbRange` | splitting a batch into transactions, and paged range scans |
| `EntityValidation`, `EntityValidationProofs`, `EntityValidationRuns`, `EntityValidationHealth`, `EntityValidationProjector` | the plan of one revalidation: heads, runs, checkpoint, and its source position |
| `ConsumerCheckpoint`, `ConsumerRuns` | the positions of feed consumers, moved by compare-and-retract in transactions without a journal |
| `EntityValidationStore`, `EntityValidationMachine`, `EntityValidationTwice`, `EntityValidationStatus`, `EntityValidationProgress` | source transactions, consumers' movements and revalidations in any order over rows with valid time: what every run keeps, a second revalidation, and a current status |
| `EntityValidationRecords`, `EntityValidationRecorded`, `EntityValidationHistory`, `EntityValidationQueries`, `EntityValidationAnswers` | what every stored result, violation, head, run and checkpoint says over every run, and what the queries for invalid entities and their violations answer |
| `EntityValidationRaces`, `EntityValidationClock`, `EntityValidationReserved` | plans committed against other facts, clock readings, and snapshots that define reserved types |
| `EntityValidationMisled`, `EntityValidationUnjournaled`, `EntityValidationCurrent` | runs after which a current status is wrong at every instant, and exactly the snapshots without one |
| `Wrappers`, `Seqs`, `Order` | options and results, filtered sequences, orders on strings |

Hashes are injective constructors: equal ids mean equal contents. Keys joined from
several strings are tuples. The clock, generated ids, the database behind a read,
and the datalog engine are parameters; what is asked of them is stated as a
predicate (`Serves`, `Generated`, `SetValued`, `DefinesOnce`). Failures are values of a
`Result`. Classes stand where the source updates fields in place (`FactScan`,
`Adapter`), methods with loops where it loops, functions where it computes.

## What the code does where one might expect otherwise

* The constraint check and the adapter read a retract pattern differently: the
  adapter compares only the type of a json or blob value and ignores an empty
  string. They agree exactly on the patterns `Commit.PatternsAgreeIffExact` names,
  and accepted transactions with a pattern keep safe stores safe exactly when it is
  one of them (`PatternSafety.PatternStaysSafeIff`). The theorems over runs are about
  exact patterns.
* What is stored is not always what was checked: an empty blob file name and an empty
  entity type are gone when a fact is read back. Accepted transactions with an
  assertion keep safe stores safe exactly when it names neither, or is never visible
  (`StoredValues.AssertionStaysSafeIff`). The other theorems about safety are about
  assertions that read back as they were checked.
* The transaction journal is written after the check. A rule about it can be broken
  by an accepted transaction, except the ones `Journal.KeptByJournals` lists;
  enforcement is safe for exactly the rule sets that hold no others
  (`JournalBreaches.EnforcementIsSafeIff`).
* A cache entry does not name the subject it was computed for. A cache filled for one
  subject answers another correctly exactly when the answer is not a hit or nothing
  reached reads `$subject` (`CacheSubjects.SharingIsRightIff`).
* A traversal that sends the basis it opened with along with its cursors is refused,
  unless the basis gave the recorded instant, and gave the valid instant too or the
  clock stands still (`PagedTraversal.RepeatingTheBasisContinuesIff`). A recorded
  instant given with a page does not move what the page reads;
  `PagedTraversal.PagesShowTheInstantIff` says when the pages show that instant anyway.
* A timestamp is not a commit: a commit leaves reads as of an instant alone exactly
  when its timestamp is later (`RowTable.InstantReadsAreStableIff`). Positions are
  stable.
* A freshness token taken as of an instant compares positions. Equal tokens mean equal
  facts, whatever is written, exactly when no commit has an earlier timestamp than the
  one before it (`DependencyState.InstantTokensSufficeIff`).
* The next temporal boundary counts rows with empty intervals, so a reader can be
  woken for nothing (`DependencyState.BoundaryIsTightIff` says when).
* A validation demands that the facts it retracts are still live, and nothing else.
  Two revalidations planned on the same facts can both commit, and a head they both
  observe keeps one result exactly when it had one before
  (`EntityValidationRaces.RacingValidationsKeepOneIff`).
* The projector reads its own heads at the clock's valid time. A reading earlier than
  the last commit misses them and adds a second result
  (`EntityValidationClock.EarlierReadingAddsASecond`);
  `EntityValidationClock.AnyReadingKeepsOneIff` says exactly when. The theorems over
  runs are about clocks that do not step back.
* A second revalidation with no transaction in between still writes when a source fact
  started or ended to be valid since (`EntityValidationClock.ExpiryIsNoticed`), and
  always can when the snapshot has a schema for a type of the projector's own or for
  `_Transaction`, since each revalidation then creates what the next one observes
  (`EntityValidationReserved.SecondSettlesIff`).
* A status of current means that the heads show what the present rows give at some
  instant up to now, over every run and however entities are judged, exactly when no
  snapshot has a schema for a type the system writes, or none has one for anything but
  results, violations and heads (`EntityValidationCurrent.CurrentIsShownIff`). The types
  are those of the projector, of the journal, and of consumers' checkpoints, whose
  movements are not journaled and so leave a status current
  (`EntityValidationUnjournaled.MovedConsumerMisleads`). That instant is the one that was
  validated; `EntityValidationStatus.ShowsAlsoAtIff` says when the present shows the same.
* `Exists` is false of an absent fact, so adding facts can flip an answer
  (`EvaluatorSemantics.ExistsIsNotMonotone`); without it adding inputs only refines
  `unknown`.
* A comment on `mentions` says that `Any` short-circuits
  (packages/core/src/config/BoolExpr.ts:129). Evaluation does not: every operand of
  `All` and `Any` is evaluated (packages/core/src/config/Evaluate.ts:287-308).

## Model

| member | source | states |
|---|---|---|
| Constraint.CountViolations | packages/core/src/Constraint.ts:192-223 | a required or cardinality rule reports exactly the subjects visible at the instant whose count of values breaks it |
| Constraint.CollectClaims | packages/core/src/Constraint.ts:226-233 | every claimed value is mapped to exactly the subjects claiming it |
| Constraint.UniqueViolations | packages/core/src/Constraint.ts:225-252 | a unique rule reports exactly the claimants of values claimed by two or more |
| Constraint.ReferenceViolations | packages/core/src/Constraint.ts:254-280 | a reference rule reports exactly the values that are no reference to a live entity of the target type |
| Constraint.EvaluateFacts | packages/core/src/Constraint.ts:169-292 | the loops report exactly the violations, defined without them by quantifying over the facts visible at the instant |
| Constraint.VisibleFactsDecide | packages/core/src/Constraint.ts:165-175 | facts not visible at an instant change no violation there |
| Constraint.IdentityFixesActual | packages/core/src/Constraint.ts:294-301 | violations with one identity at one instant have one count, so comparing counts by identity is well defined |
| Constraint.FreshOrWorse | packages/core/src/Constraint.ts:385-395 | reports exactly the violations whose identity is new or whose count grew |
| Constraint.Project | packages/core/src/Constraint.ts:327-361 | the projection loop computes the post-state of the operations in order |
| Constraint.NewlyViolated | packages/core/src/Constraint.ts:367-397 | the result holds exactly the violations new or worse at some interval endpoint of the pre- or post-state, and is empty exactly when the transaction is accepted |
| ConstraintMeaning.ViolationsAreReports | packages/core/src/Constraint.ts:192-280 | what is reported at an instant, written out over positions in the list of facts: for a maximum the very number of values held, for a unique value the number of its claimants, and every other field |
| ConstraintMeaning.AcceptedIffKept | packages/core/src/Constraint.ts:363-397 | a transaction is accepted if and only if, for each rule, at every instant and for every entity of the type: it has the required attribute or lacked it before, holds at most the maximum or had as many values before, shares no value or shared it with as many before, and has no dangling reference it had not before |
| ConstraintMeaning.Enforce | packages/core/src/Constraint.ts:367-397 | enforcement reports nothing exactly when every rule is kept so, and everything it reports holds afterwards at its instant |
| ConstraintMeaning.SafeIffObeyed | packages/core/src/Constraint.ts:169-292 | a store without violations is one in which, at every instant, typed entities have the required attributes, no more values than allowed, values of their own and references to live targets |
| ConstraintBoundaries.BoundarySeesTheSame | packages/core/src/Constraint.ts:376-383 | between two endpoints the visible facts do not change |
| ConstraintBoundaries.WorseSomewhereIsWorseAtABoundary | packages/core/src/Constraint.ts:363-397 | whatever is new or worse at any instant is new or worse at some collected endpoint |
| ConstraintBoundaries.BoundariesSuffice | packages/core/src/Constraint.ts:363-397 | a transaction is accepted at the endpoints if and only if it worsens nothing at any instant |
| ConstraintSlice.SliceHoldsTheRelevant | packages/core/src/Constraint.ts:106-148 | the loaded slice is part of the store and agrees with it on every fact that types a subject or target or belongs to a typed subject |
| ConstraintSlice.ProjectionKeepsSameRelevant | packages/core/src/Constraint.ts:327-361 | projecting any operations onto slice and store keeps that agreement, retract patterns and new subjects included |
| ConstraintSlice.SliceIsExact | packages/core/src/Constraint.ts:106-148 | slice and store have the same violations at every instant before and after the transaction, hence the same accept or reject decision |
| Commit.PatternsAgreeIffExact | packages/sqlite/src/SqliteAdapter.ts:560-608 | the adapter's and the check's reading of a retract pattern agree on every fact if and only if the pattern names no empty string and no json or blob value |
| Commit.CommitLandsTheProjection | packages/core/src/store/TriplesLive.ts:342-440 | committing operations with exact patterns leaves exactly the projected facts under generated ids, each assertion as it is read back |
| Commit.CommitIsTheProjection | packages/core/src/store/TriplesLive.ts:342-440 | when every assertion is read back as it was checked, that is the projection itself, up to generated ids |
| PatternSafety.PatternStaysSafeIff | packages/sqlite/src/SqliteAdapter.ts:560-608 | accepted transactions that retract by a pattern keep every safe store safe, whatever the rules, if and only if the pattern is exact; the assertions beside it read back as they were checked |
| PatternSafety.InexactPatternBreaksSafety | packages/sqlite/src/SqliteAdapter.ts:582-606 | for every inexact pattern, a safe store and an accepted transaction after which a required attribute is gone |
| StoredValues.EmptyNameBreaksSafety | packages/core/src/store/TriplesLive.ts:95-103 | for every visible assertion of a blob with an empty file name, a rule and an accepted transaction after which two subjects hold one value |
| StoredValues.EmptyTypeBreaksSafety | packages/core/src/store/TriplesLive.ts:120-120 | for every visible assertion with an empty entity type, a rule and an accepted transaction after which a reference dangles |
| StoredValues.AssertionStaysSafeIff | packages/core/src/Constraint.ts:151-162 | accepted transactions with an assertion keep every safe store safe, whatever the rules and the rest, if and only if it names no empty entity type and no empty blob file name, or is never visible |
| Journal.MetadataTally | packages/core/src/store/transactionMetadata.ts:29-57 | how often a written journal names each attribute: once per distinct entity and per change, and at most once for the others |
| Journal.JournalAddsNoViolation | packages/core/src/store/TriplesLive.ts:442-446 | the journal of a transaction adds no violation of a rule that `KeptByJournals` lists, rules about journals included |
| JournalMeaning.ChangesAreThoseMade | packages/core/src/store/TriplesLive.ts:348-440 | a change is recorded if and only if some operation asserted under its new id or lost a live fact, by id or by pattern, and it names that fact and its entity |
| JournalMeaning.JournalSays | packages/core/src/store/transactionMetadata.ts:29-57 | the facts of a transaction's own entity say its position and instant, the actor, command, correlation, causation and snapshot it was given, every entity it changed and every change, from its instant on, and nothing else |
| JournalMeaning.JournalSaysNoMore | packages/core/src/store/transactionMetadata.ts:29-57 | no other fact of that entity exists afterwards, and each is typed and valid from the transaction's instant |
| Enforcement.WritingKeepsKeys | packages/core/src/store/TriplesLive.ts:342-446 | writing under new ids keeps the ids of the store unique, journal included |
| Enforcement.EnforcementNeverWorsens | packages/core/src/store/TriplesLive.ts:299-446 | a transaction that passed enforcement, with assertions that read back as they were checked, and was written with a journal that repeats nothing introduces and worsens no violation of kept rules at any instant, over the whole store |
| Ledger.AdmittedIsWritten | packages/core/src/store/TriplesLive.ts:277-293 | a transaction under a later position, an unclaimed command id and generated ids repeats no position, command id or change text of the store |
| Ledger.LedgerStaysAccountable | packages/core/src/store/TriplesLive.ts:342-446 | writing it keeps ids unique and everything in the store accounted for: no retracted id is live again and no position or command id is unclaimed |
| EnforcedRuns.RunsStayAccounted | packages/core/src/store/TriplesLive.ts:245-450 | over any run of admitted transactions from an accounted store, the empty one for example, ids stay unique and nothing generated is ever repeated |
| EnforcedRuns.RunsNeverWorsen | packages/core/src/store/TriplesLive.ts:245-450 | over any such run no violation of kept rules appears and none grows, at any instant |
| EnforcedRuns.RunsStaySafe | packages/core/src/store/TriplesLive.ts:245-450 | a store with no violation of kept rules at any instant has none after any such run |
| JournalBreaches.RequiredIsBreached | packages/core/src/store/transactionMetadata.ts:43-56 | a required journal attribute that is not always written is missing after a first, empty transaction |
| JournalBreaches.CardinalityIsBreached | packages/core/src/store/transactionMetadata.ts:43-56 | for every maximum on changes or changed entities, a first transaction whose journal exceeds it |
| JournalBreaches.ReferenceIsBreached | packages/core/src/store/transactionMetadata.ts:43-56 | a first transaction whose journal refers to no entity of the target type |
| JournalBreaches.UniqueIsBreached | packages/core/src/store/transactionMetadata.ts:43-56 | two transactions that claim one journal value |
| JournalBreaches.EnforcementIsSafeIff | packages/core/src/store/TriplesLive.ts:299-446 | every enforced and written transaction whose assertions read back as they were checked keeps a safe store safe if and only if no journal can break any of the rules |
| Evaluator.DedupeKeepsAll | packages/core/src/config/Evaluate.ts:76-80 | deduplicating observations made in one environment loses none of them |
| Evaluator.GoHolds | packages/core/src/config/Evaluate.ts:155-310 | re-asking for anything an evaluation observed, in its own environment, gives the recorded observation, through calls and cycles |
| EvaluatorMeaning.NotAnswers | packages/core/src/config/Evaluate.ts:118-120 | negation exchanges true and false and keeps unknown |
| EvaluatorMeaning.AllAnswers | packages/core/src/config/Evaluate.ts:287-298 | a conjunction is true if and only if every operand is, and false if and only if some operand is |
| EvaluatorMeaning.AnyAnswers | packages/core/src/config/Evaluate.ts:300-308 | a disjunction is true if and only if some operand is, and false if and only if every operand is |
| EvaluatorMeaning.RuleAnswers | packages/core/src/config/Evaluate.ts:240-276 | a call answers as the rule under its key, and is unknown for its own reason when that is missing or already being called |
| EvaluatorMeaning.ExistsAnswers | packages/core/src/config/Evaluate.ts:176-184 | existence is true exactly of a fact in the world and false otherwise, and one read is recorded |
| EvaluatorMeaning.EqAnswers | packages/core/src/config/Evaluate.ts:185-202 | equality is true of the expected value, false of any other and unknown without one |
| EvaluatorMeaning.BeforeAnswers | packages/core/src/config/Evaluate.ts:204-238 | an instant is before the clock when its millisecond is, or, by the day, when some midnight lies after it and not after the clock; another kind of value or none is unknown; the read and the clock are recorded |
| EvaluatorMeaning.RuleObserves | packages/core/src/config/Evaluate.ts:240-276 | a call records which rule it found and what that rule's evaluation recorded |
| EvaluatorMeaning.OperatorObserves | packages/core/src/config/Evaluate.ts:277-308 | an operator records exactly what its operands do: none is skipped, whatever the others answer |
| EvaluatorMeaning.DefiniteIsClassical | packages/core/src/config/Evaluate.ts:155-310 | an evaluation in which nothing is unknown is true if and only if the expression holds in two-valued logic, rules unfolded |
| EvaluatorProofs.GoAgrees | packages/core/src/config/Evaluate.ts:155-310 | if the observations recorded in one environment hold in another, evaluation there returns the identical tree |
| EvaluatorProofs.ObservationsDetermineEvaluation | packages/core/src/config/Evaluate.ts:312-340 | two environments with one subject give the identical tree if and only if the recorded observations hold in both |
| EvaluatorProofs.ReplayIffInputsHold | packages/core/src/config/Evaluate.ts:614-631 | replay succeeds if and only if re-observing the record reproduces it, and then the whole tree is equal |
| EvaluatorProofs.VerifyFindsTampering | packages/core/src/config/Evaluate.ts:596-612 | verification reports nothing if and only if every node at every depth carries the id of its own contents |
| EvaluatorProofs.VerifyReportsTheAltered | packages/core/src/config/Evaluate.ts:596-612 | verification reports a node if and only if its id is not that of its contents, at its path, with the id it claims and the one it has |
| EvaluatorProofs.EvaluationsVerify | packages/core/src/config/Evaluate.ts:82-116 | every evaluation verifies |
| EvaluatorProofs.VerifiedTreesAreBound | packages/core/src/config/Evaluate.ts:581-612 | two verified trees have one root id if and only if truth, expression, observed closure, reason and children agree at every depth |
| EvaluatorSemantics.GuardFiresIffCyclic | packages/core/src/config/Evaluate.ts:258-268 | the recursion guard fires somewhere in the tree if and only if some chain of calls from the expression revisits a rule |
| EvaluatorSemantics.AcyclicMeansUnfolding | packages/core/src/config/Evaluate.ts:240-275 | without such a chain the truth is that of a guard-free evaluator that unfolds every call |
| EvaluatorSemantics.KleeneIsMonotone | packages/core/src/config/Evaluate.ts:118-126 | conjunction and disjunction keep definite answers when operands are only refined |
| EvaluatorSemantics.MoreInputsRefine | packages/core/src/config/Evaluate.ts:185-309 | without `Exists` in the expression or in a rule that a chain of calls reaches from it, adding absent facts and rules never changes a true or false answer |
| EvaluatorSemantics.ExistsIsNotMonotone | packages/core/src/config/Evaluate.ts:176-183 | a concrete `Exists` whose answer flips when its fact is added |
| EvaluationCache.HitIsFresh | packages/core/src/config/Evaluate.ts:409-419 | a closure that digests equal to a cached one forces the cached tree |
| EvaluationCache.AddingKeepsCoherence | packages/core/src/config/Evaluate.ts:421-443 | recording a miss keeps every entry genuine under its closure and shape keys pairwise distinct |
| EvaluationCache.CachedIsFresh | packages/core/src/config/Evaluate.ts:393-450 | one call on a coherent cache returns what a fresh evaluation returns and leaves the cache coherent |
| EvaluationCache.EveryAnswerIsFresh | packages/core/src/config/Evaluate.ts:386-450 | over any sequence of calls for one subject, with arbitrary worlds, clocks and catalogs, every answer equals a fresh evaluation |
| EvaluationCache.RepeatIsAHit | packages/core/src/config/Evaluate.ts:405-419 | repeating a call at once is a hit with the same answer and changes no entry |
| CacheHits.HitsIffNothingMoved | packages/core/src/config/Evaluate.ts:393-450 | after any calls from an empty cache, the next call hits if and only if everything some earlier call of the same expression observed is observed the same now |
| CacheHits.CallsAreCounted | packages/core/src/config/Evaluate.ts:411-448 | every call is counted once, as a hit or as a miss |
| CacheSubjects.SubjectsMustNotShareACache | packages/core/src/config/Evaluate.ts:405-411 | two concrete subjects sharing a cache, the second of which gets the opposite of its own truth |
| CacheSubjects.GoIgnoresSubjectIff | packages/core/src/config/Evaluate.ts:152-167 | two different subjects get the identical tree if and only if no leaf reached, through calls, reads the subject |
| CacheSubjects.SharingIsRightIff | packages/core/src/config/Evaluate.ts:393-450 | any cache filled for one subject, asked for another, answers correctly if and only if the call misses, which is its own result, or no leaf reached reads the subject, which `GoIgnoresSubjectIff` lets a caller check beforehand |
| CacheSubjects.SecondSubjectHits | packages/core/src/config/Evaluate.ts:405-419 | right after one subject's call the same call for another is a hit and gets the first one's answer |
| EvaluationCache.UnmovedIsUnaffected | packages/core/src/config/Evaluate.ts:504-512 | a subject none of whose recorded config reads moved gets the identical tree under the new catalog |
| EvaluationCache.DetectMove | packages/core/src/config/Evaluate.ts:504-507 | a move is detected exactly when re-observing the recorded config reads gives anything else |
| EvaluationCache.PreviewSubject | packages/core/src/config/Evaluate.ts:500-525 | skipping an unmoved subject still yields its truth under both catalogs |
| EvaluationCache.Impact | packages/core/src/config/Evaluate.ts:487-531 | the flips are exactly those found by evaluating every subject under both catalogs, the skipped are exactly the unmoved, skipped and re-evaluated add up, and the cache stays coherent |
| RuleCatalog.RuleNode | packages/core/src/config/Catalog.ts:48-61 | a rule's references are exactly the rules its expression calls |
| RuleCatalog.CatalogsAreAuthentic | packages/core/src/config/Catalog.ts:63-76 | under each key a catalog pins the id of a node holding exactly that expression, and it lists exactly the keys of rule nodes |
| RuleCatalog.LastRuleWins | packages/core/src/config/Catalog.ts:63-76 | under a key the catalog holds the expression and id of the last node that has a rule under it |
| BoolExpr.MentionsAreLookedAt | packages/core/src/config/BoolExpr.ts:133-151 | a fact is mentioned if and only if some expression inside asks whether it exists, what it equals or whether it is past |
| BoolExpr.RulesMentionedAreCalled | packages/core/src/config/BoolExpr.ts:154-169 | a rule is mentioned if and only if it is called somewhere inside |
| ConfigNode.Make | packages/core/src/config/ConfigNode.ts:134-171 | a node is made exactly when no two children share a slot, and then its id is the hash of its own body |
| ConfigNode.FindDuplicate | packages/core/src/config/ConfigNode.ts:145-159 | the reported slot is one an earlier child already occupies |
| ConfigNode.SortRefsLists | packages/core/src/config/ConfigNode.ts:94-107 | sorting references keeps exactly the ones given |
| ConfigNode.SortedRefsAreInOrder | packages/core/src/config/ConfigNode.ts:94-107 | sorted references ascend by relation, kind and key, each in code-unit order, so none is repeated |
| ConfigNode.SameRefsSameListing | packages/core/src/config/ConfigNode.ts:94-107 | the order and repetition of references is not content |
| ConfigTree.WalkVisitsSubIds | packages/core/src/config/ConfigNode.ts:304-314 | the walk meets exactly the ids of the subtree that the root's hashed body fixes |
| ConfigTree.Flatten | packages/core/src/config/ConfigNode.ts:316-330 | visiting each id once still collects exactly the ids the walk meets |
| ConfigTree.StoreTree | packages/core/src/config/InMemoryConfigStore.ts:284-293 | storing a tree adds exactly its ids, each under the hash of its body, and keeps what was stored |
| ConfigTree.RebuildReturnsTheTree | packages/core/src/config/ConfigStore.ts:247-280 | from any content-addressed superset of a tree's bodies its root id rebuilds the same tree, with no missing node and no cycle |
| ConfigTree.RebuildFailsOnlyWhenMissing | packages/core/src/config/ConfigStore.ts:251-253 | over content-addressed bodies rebuilding succeeds if and only if every id of the subtree is stored, and a failure names one that is not |
| ConfigTree.StoredTreesSurvive | packages/core/src/config/ConfigStore.ts:247-280 | a stored tree stays rebuildable however many others are stored later |
| ConfigTree.KnownProjectionIsTheFirst | packages/core/src/config/ConfigStore.ts:265-267 | a rebuilt node is read through the first recorded projection that is known, and through none only when none is |
| ConfigTree.StoredTreesAreReadable | packages/core/src/config/ConfigStore.ts:247-280 | a tree stored through known projections is rebuilt with a known one, recorded for it, at every node |
| ConfigDiff.EqualIdsEverywhere | packages/core/src/config/ConfigNode.ts:376-376 | trees with equal root ids have the same paths with equal ids along them |
| ConfigDiff.Diff | packages/core/src/config/ConfigNode.ts:370-426 | reports exactly the paths in both trees with different ids and the one-sided paths whose parent is in both, each path once, and nothing if and only if the root ids are equal |
| ConfigDiff.DifferentIdsHaveACause | packages/core/src/config/ConfigNode.ts:414-423 | ids differ if and only if kind, key, attributes, references, child order or some child differs |
| ConfigDiff.EveryChangedIsExplained | packages/core/src/config/ConfigNode.ts:388-423 | every reported change has a cause of its own or a reported change one step beneath it |
| ConfigDiff.WalkFollowsPaths | packages/core/src/config/ConfigNode.ts:304-314 | the walk visits exactly the nodes that paths lead to, each at its path |
| ConfigDiff.ReorderedIffMoved | packages/core/src/config/ConfigNode.ts:386-401 | children are reported as reordered if and only if some slot is at one position before and at another after |
| ConfigRuntime.FactReads | packages/core/src/config/ConfigRuntime.ts:94-123 | the search collects the facts named by the expression and by the least set of rules closed under calls from it |
| ConfigRuntime.FactScan.Visit | packages/core/src/config/ConfigRuntime.ts:102-117 | a visit adds exactly the reads of the rules it newly marks, marks everything they call, and marks nothing a call-closed set does not hold |
| ConfigRuntime.ObservedFactsArePrefetched | packages/core/src/config/ConfigRuntime.ts:89-123 | every fact evaluation observes, through any chain of calls and cycles, was collected |
| ConfigRuntime.PrefetchedFactsDecide | packages/core/src/config/ConfigRuntime.ts:216-219 | worlds that agree on the collected facts give the identical evaluation |
| ConfigRuntime.WorldFromReads | packages/core/src/config/ConfigRuntime.ts:141-179 | succeeds exactly when no collected fact is ambiguous or unsupported, and then holds exactly the collected facts that exist |
| ConfigRuntime.Decide | packages/core/src/config/ConfigRuntime.ts:203-229 | decides exactly when no fact the release names for the rule is ambiguous or unsupported, and otherwise fails on one of them; the decision is the evaluation over all facts, although only the named ones were read, and is sealed under its release, subject and evaluation |
| DecisionMeaning.ReadFactSays | packages/core/src/config/ConfigRuntime.ts:125-179 | a fact reads as absent when none is named, as the text of a string, reference or blob hash, the number of a number or instant, or the very flag when exactly one is, as ambiguous with their number when several are, and as unsupported when it is json |
| DecisionMeaning.FullWorldHolds | packages/core/src/config/ConfigRuntime.ts:141-179 | the world over all facts holds a scalar if and only if exactly one fact names the mention and shows it |
| DecisionMeaning.FullWorldLacks | packages/core/src/config/ConfigRuntime.ts:141-179 | it holds nothing if and only if no fact, several facts or a json fact names the mention |
| DecisionMeaning.ComparisonIsDecided | packages/core/src/config/ConfigRuntime.ts:203-229 | a deployed comparison of the subject is true if and only if the one fact shows the expected value, and false if and only if it shows another |
| DecisionMeaning.ComparisonIsReadable | packages/core/src/config/ConfigRuntime.ts:141-179 | it is decided at all if and only if no fact names that mention, or just one that is not json |
| DecisionMeaning.ReleaseHoldsItsRules | packages/core/src/config/ConfigRuntime.ts:216-216 | a release deploys exactly the keys under which some node of its tree, at any depth, holds a rule |
| DecisionMeaning.OnlyRuleIsDeployed | packages/core/src/config/ConfigRuntime.ts:216-216 | the only rule node under a key is the one deployed |
| ConfigRuntime.VerifiedDecisionsAreBound | packages/core/src/config/ConfigRuntime.ts:181-238 | two verified decisions have one id if and only if release, subject and evidence at every depth agree |
| RowTable.RunsKeepValid | packages/sqlite/src/SqliteAdapter.ts:105-122 | over every run no row is recorded or closed at a position beyond the current one or closed before it was recorded, and positions never decrease |
| RowTable.RunsAreInvisibleBefore | packages/sqlite/src/SqliteAdapter.ts:501-526 | whatever later transactions insert or retract, nothing changes up to an earlier cut |
| RowTable.ReadsAreStable | packages/sqlite/src/SqliteAdapter.ts:501-526 | a read as of a recorded position, or of an instant before all later commits, never changes |
| RowTable.TimeTravelIsExact | packages/sqlite/src/SqliteAdapter.ts:247-298 | the facts recorded as of a position are, forever after, exactly those live right after that commit |
| RowTable.InstantReadsAreStableIff | packages/sqlite/src/SqliteAdapter.ts:516-522 | commits with a timestamp leave every read as of an instant unchanged, in every table, if and only if the timestamp is later |
| RowTable.HeadShowsTheInstantIff | packages/sqlite/src/SqliteAdapter.ts:512-522 | a read cut at the last position shows what was recorded as of an instant if and only if no visible row was recorded or closed since |
| DependencyState.TokenIsTheLastTouch | packages/sqlite/src/SqliteAdapter.ts:144-153 | the token is the last position up to the basis at which a watched row was recorded or closed |
| DependencyState.EqualTokensIffUntouched | packages/sqlite/src/SqliteAdapter.ts:140-200 | two positions carry equal tokens if and only if no watched row was recorded or closed in between |
| DependencyState.EqualTokensEqualFacts | packages/sqlite/src/SqliteAdapter.ts:140-200 | equal tokens mean equal visible facts of the attributes |
| DependencyState.TokensAreStable | packages/sqlite/src/SqliteAdapter.ts:144-153 | a token taken at a position is the same whenever it is computed again later |
| DependencyState.FreshReadersAreUpToDate | packages/sqlite/src/SqliteAdapter.ts:140-200 | a reader whose token still is the token at the head of any later table sees the current facts |
| DependencyState.LiveIsTheHead | packages/core/src/store/TriplesLive.ts:653-657 | a live token and a live read, which name no cut, are those of the last commit position |
| DependencyState.LiveReadersAreUpToDate | packages/core/src/store/TriplesLive.ts:653-657 | a reader of live facts whose live token is unchanged after any later transactions sees the current facts |
| DependencyState.EqualInstantTokensIffUntouched | packages/sqlite/src/SqliteAdapter.ts:144-163 | with timestamps non-decreasing in position, two instants carry equal tokens if and only if no watched row was recorded or closed in between |
| DependencyState.EqualInstantTokensEqualFacts | packages/sqlite/src/SqliteAdapter.ts:144-163 | and then equal tokens at two instants mean equal visible facts |
| DependencyState.RunsKeepClocked | packages/sqlite/src/SqliteAdapter.ts:105-122 | over every run under a clock that does not step back, timestamps are non-decreasing in position |
| DependencyState.InstantTokensNeedTheClock | packages/sqlite/src/SqliteAdapter.ts:144-163 | two rows recorded under any clock that stepped back between them, with equal tokens and different facts at the two instants |
| DependencyState.InstantTokensSufficeIff | packages/sqlite/src/SqliteAdapter.ts:105-163 | whatever commits write at given timestamps, equal tokens at any two instants mean equal facts of any attributes, if and only if no timestamp is earlier than the one before it |
| DependencyState.NothingChangesBeforeTheBoundary | packages/sqlite/src/SqliteAdapter.ts:155-178 | until the next temporal boundary no visible fact of the attributes changes |
| DependencyState.BoundaryIsTightIff | packages/sqlite/src/SqliteAdapter.ts:171-178 | at the boundary the visible facts change if and only if a row turning there has a non-empty interval |
| SqliteAdapter.Adapter.NextCommitPosition | packages/sqlite/src/SqliteAdapter.ts:105-122 | allocates the successor of the last position |
| SqliteAdapter.Adapter.Insert | packages/sqlite/src/SqliteAdapter.ts:247-298 | appends an open row under its id, or fails and changes nothing when the id is taken |
| SqliteAdapter.Adapter.BatchInsert | packages/sqlite/src/SqliteAdapter.ts:300-454 | in chunks, writes all rows in order or none, and refuses a wrong number of ids |
| SqliteAdapter.Adapter.Retract | packages/sqlite/src/SqliteAdapter.ts:456-475 | closes the open row with the id, says whether there was one, and leaves every other row |
| SqliteAdapter.Adapter.Transact | packages/sqlite/src/SqliteAdapter.ts:90-122 | all writes of a transaction under one new position, or nothing at all |
| SqliteAdapter.Adapter.RetractMatching | packages/core/src/store/TriplesLive.ts:406-427 | closes exactly the live facts the adapter matches and changes no recorded fact |
| SqliteAdapter.Adapter.WriteOperations | packages/core/src/store/TriplesLive.ts:348-440 | the adapter's writes turn the live facts into exactly the committed facts of the operations, each assertion as it is read back |
| Pagination.FirstVariablesLists | packages/core/src/Pagination.ts:68-80 | the projected variables are listed once each, and only they |
| Pagination.NormalizePaginationOrder | packages/core/src/Pagination.ts:82-114 | the loops complete the caller's ordering or refuse a variable that is not projected |
| Pagination.OrderingIsComplete | packages/core/src/Pagination.ts:82-114 | an accepted ordering extends the caller's and names every projected variable exactly once |
| Pagination.KeyTrichotomy | packages/core/src/kv/datalog/executor.ts:631-675 | of two different keys exactly one precedes the other, in mixed directions and categories |
| Pagination.KeyTransitivity | packages/core/src/kv/datalog/executor.ts:631-675 | the key order is transitive |
| PagedTraversal.SortRowsSorts | packages/core/src/kv/datalog/executor.ts:628-643 | sorting rows with distinct keys yields a strictly ascending permutation |
| PagedTraversal.CompleteKeysAreDistinct | packages/core/src/Pagination.ts:82-86 | under a completed ordering no two answers of a set-valued query share a key |
| PagedTraversal.CursorSplits | packages/core/src/kv/datalog/executor.ts:930-953 | filtering by the key of the m-th row leaves exactly the rows after it |
| PagedTraversal.FirstPage | packages/core/src/Pagination.ts:220-227 | a first page is cut at the current commit position and holds the first rows of that snapshot |
| PagedTraversal.ResubmissionIsAccepted | packages/core/src/Pagination.ts:202-248 | the cursor a page returns is accepted with the same query at any later clock and position |
| PagedTraversal.NextPage | packages/core/src/Pagination.ts:271-296 | a resubmitted cursor gets exactly the page that starts after the rows already returned |
| PagedTraversal.TraversalIsTheSnapshot | packages/core/src/Pagination.ts:187-296 | whatever commits in between, the pages are a first part of the first page's sorted snapshot, all of it exactly when no cursor is left, each answer once, and there are no more pages than rows |
| PageOrder.SortedRowsAreListed | packages/core/src/kv/datalog/executor.ts:631-675 | in the first ordered variable in which two sorted rows differ, numbers and texts increase under ascending and decrease under descending, false comes before true under ascending, and numbers precede flags, flags texts and texts null in both directions |
| PageOrder.PagedRowsAreListed | packages/core/src/kv/datalog/executor.ts:631-675 | the rows of all pages of a traversal, one page after another, are in that order, whatever commits in between |
| PageOrder.OrderingIsRefusedIff | packages/core/src/Pagination.ts:68-116 | an ordering is refused if and only if it names a variable the query does not project, or there is nothing to page by |
| PageOrder.OrderingIsGivenInTurn | packages/core/src/Pagination.ts:68-116 | an accepted ordering keeps the caller's specs in turn, the first of each variable, and goes on with the other projected variables in the order they appear, ascending |
| PageOrder.CursorIsAcceptedIff | packages/core/src/Pagination.ts:138-249 | a request with a cursor is accepted if and only if the cursor is of this version, query, scope and number of values and the request names no other cut, and goes on from the cursor's cut |
| PageOrder.CursorRefusals | packages/core/src/Pagination.ts:138-249 | otherwise it is refused for the first reason that applies |
| PageOrder.PagesAreFull | packages/core/src/Pagination.ts:251-296 | a page holds no more rows than asked for, and exactly as many when a cursor follows |
| PagedTraversal.ExplicitBasisContinuesIff | packages/core/src/Pagination.ts:184-219 | a later page sent with a basis is the page after the rows already returned if the basis names the session's recorded and valid instant, and is refused with a mismatch, or as malformed, otherwise |
| PagedTraversal.RepeatingTheBasisContinuesIff | packages/core/src/Pagination.ts:184-219 | a traversal that repeats the basis it opened with continues, whatever was committed since, if and only if the basis gave the recorded instant, and the valid instant too or the clock has not moved |
| PagedTraversal.ValidInstantAloneIsRefused | packages/core/src/Pagination.ts:184-219 | a concrete traversal that opens with a valid instant alone, and whose second page is refused |
| PagedTraversal.PagesShowTheInstantIff | packages/sqlite/src/SqliteAdapter.ts:512-522 | the pages of a traversal show what was recorded as of the instant it asked for, whatever commits later, if and only if no visible row was recorded or closed between that instant and the opening |
| FdbChunks.ChunkEntriesByByteSize | packages/foundationdb/src/FdbKvBackend.ts:368-415 | fails exactly with the refusal of the first oversized entry, otherwise the chunks concatenate to the entries, respect both caps, are non-empty, and none could have taken the next entry |
| FdbChunks.NothingIsRefusedIff | packages/foundationdb/src/FdbKvBackend.ts:381-391 | chunking succeeds if and only if no entry is refused for its value or total size |
| FdbChunks.FewestChunks | packages/foundationdb/src/FdbKvBackend.ts:393-408 | no other split of the entries in order within the caps has fewer chunks |
| FdbChunks.FullSplitsAreUnique | packages/foundationdb/src/FdbKvBackend.ts:393-412 | the chunks are the only split that is full in this sense |
| FdbChunks.SplittableIffEveryEntryFits | packages/foundationdb/src/FdbKvBackend.ts:385-391 | some split within the caps exists if and only if every single entry fits, so refusing oversized entries refuses nothing that could be written |
| FdbChunks.ChunksAreWithinCaps | packages/foundationdb/src/FdbKvBackend.ts:356-408 | in every chunk the lengths of all keys and values, with the subspace prefix and 64 bytes for each entry, are within the byte cap, and it holds one entry or at most the entry cap |
| FdbChunks.ClosedForACap | packages/foundationdb/src/FdbKvBackend.ts:393-403 | a chunk before another ended because the next entry's lengths would have broken the byte cap, or because it held the entry cap |
| FdbChunks.NothingIsRefusedIffSmall | packages/foundationdb/src/FdbKvBackend.ts:381-391 | nothing is refused if and only if every value is within the value cap and every entry, with prefix and overhead, within the byte cap |
| FdbChunks.TheFirstIsRefused | packages/foundationdb/src/FdbKvBackend.ts:381-391 | otherwise the first entry that is not is refused, for its value before its total, with that length |
| FdbRange.KeyAfterIsTheSuccessor | packages/foundationdb/src/FdbKvBackend.ts:262-262 | nothing lies between a key and the key after it |
| FdbRange.CursorSkipsThePage | packages/foundationdb/src/FdbKvBackend.ts:449-461 | forward and reverse, the next cursor sees exactly what the page left, in the same order |
| FdbRange.PagingIsInvisible | packages/foundationdb/src/FdbKvBackend.ts:417-468 | over a fixed store the pages are the whole range read at once, cut to the limit, for every page size, limit and direction |
| FdbRange.EarlierPagesAreFull | packages/foundationdb/src/FdbKvBackend.ts:436-451 | every page but the last holds a full page of entries |
| FdbRange.ScanIsTheRange | packages/foundationdb/src/FdbKvBackend.ts:417-468 | what is scanned is what lies at or after the start and before the end, in the byte order of the keys or its reverse |
| EntityValidation.LatestSourcePosition | packages/core/src/config/EntityValidation.ts:443-458 | paging through a journal of any length finds the last position the validator did not write |
| EntityValidation.LastSourceIsLast | packages/core/src/config/EntityValidation.ts:443-458 | that position bounds every source transaction and is one of them, or is zero |
| EntityValidation.ValidatorWritesAreNotSource | packages/core/src/config/EntityValidation.ts:448-452 | a transaction of the validator's own does not move the source position |
| EntityValidationProjector.RecordViolations | packages/core/src/config/EntityValidation.ts:574-639 | the loop with its growing set of known violations asserts exactly the violations not stored before |
| EntityValidationProjector.ObserveSubjects | packages/core/src/config/EntityValidation.ts:519-725 | the loop over subjects asserts exactly what is new and moves exactly the heads that point elsewhere |
| EntityValidationProjector.Revalidate | packages/core/src/config/EntityValidation.ts:460-846 | the operations are those of the plan, and the preconditions are exactly the facts it retracts, in order |
| EntityValidationProofs.AppliedIsKeptAndCreated | packages/core/src/store/TriplesLive.ts:348-440 | committing a plan under generated ids keeps the facts it does not retract and appends the asserted ones |
| EntityValidationRuns.PlanMoves | packages/core/src/config/EntityValidation.ts:693-740 | a plan retracts exactly the results of the ref's heads that do not point right and a checkpoint that is not current |
| EntityValidationRuns.ActiveHeadPointsAtItsResult | packages/core/src/config/EntityValidation.ts:693-723 | afterwards the head of every observed subject points at its result and at nothing else |
| EntityValidationRuns.InactiveHeadsAreCleared | packages/core/src/config/EntityValidation.ts:727-740 | afterwards a head whose subject is no longer observed points at nothing |
| EntityValidationRuns.OtherRefsStay | packages/core/src/config/EntityValidation.ts:506-511 | heads of other refs are unchanged |
| EntityValidationRuns.CheckpointIsMoved | packages/core/src/config/EntityValidation.ts:781-827 | afterwards the checkpoint names this run, snapshot and source position and nothing else |
| EntityValidationRecorded.NewResultSays | packages/core/src/config/EntityValidation.ts:641-691 | a newly recorded result holds exactly what was observed: subject, entity type, schema, snapshot, root, state, and valid exactly when no issue was found |
| EntityValidationRecorded.RevalidationKeepsRecords | packages/core/src/config/EntityValidation.ts:574-827 | a revalidation keeps every stored result, violation, head, run and checkpoint saying what it stands for, and adds only ones that do |
| EntityValidationHealth.RevalidationKeepsHealth | packages/core/src/config/EntityValidation.ts:693-836 | a revalidation keeps ids unique, heads tagged with their ref, and every head and checkpoint pointing at one thing at most |
| EntityValidationHealth.SecondRevalidationEmitsNothingIff | packages/core/src/config/EntityValidation.ts:781-836 | after a revalidation, planning again for the same ref gives no operation if and only if observations, snapshot and source position are all the same |
| EntityValidationStore.OwnFactsDecidePlans | packages/core/src/config/EntityValidation.ts:495-511 | what a revalidation plans depends on the projector's own facts and its input alone |
| EntityValidationMachine.SubjectsAreObservedOnce | packages/core/src/config/EntityValidation.ts:471-526 | each subject of each defined type is observed exactly once |
| EntityValidationMachine.PlanOfAllFacts | packages/core/src/config/EntityValidation.ts:495-511 | a reading at or after the last commit misses none of the projector's rows, so the plan is that of all the live facts |
| EntityValidationMachine.RunsStaySane | packages/core/src/config/EntityValidation.ts:460-846 | over every interleaving of source transactions, consumers' movements and revalidations under a clock that does not step back, ids stay unique, heads tagged, pointers single, own rows typed and past, and the journal ordered |
| ConsumerCheckpoint.AdvanceMoves | packages/core/src/operational/ConsumerCheckpoint.ts:185-298 | a movement from the expected position leaves a checkpoint that names the consumer and stands at the next position, a later one than before |
| ConsumerRuns.OthersKeepConsumer | packages/core/src/store/systemNamespace.ts:48-66 | no step but a consumer's own movement touches the rows of its checkpoint |
| ConsumerRuns.RunsNeverRewind | packages/core/src/operational/ConsumerCheckpoint.ts:178-184 | over every run a checkpoint keeps its shape, is never lost, and never moves back |
| EntityValidationMachine.AdvanceLeavesTheRest | packages/core/src/operational/ConsumerCheckpoint.ts:222-276 | a consumer's movement touches no row of another entity |
| EntityValidationMachine.RunsStayClassed | packages/core/src/store/systemNamespace.ts:48-66 | over every run only the system's entities carry the system's types and the projector's attributes |
| EntityValidationMachine.HeadsHaveOneResult | packages/core/src/config/EntityValidation.ts:693-723 | over every such run from an empty store each head has at most one live result |
| EntityValidationHistory.RunsStayRecorded | packages/core/src/config/EntityValidation.ts:460-846 | over every run each stored result, violation, head, run and checkpoint says what it stands for, and points only at what is known |
| EntityValidationHistory.RecordedResultSays | packages/core/src/config/EntityValidation.ts:641-691 | a result on record holds exactly its subject, type, schema, snapshot, root, state and id, and is valid if and only if it has no issue |
| EntityValidationHistory.RecordedViolations | packages/core/src/config/EntityValidation.ts:574-639 | the violations on record of such a result are one for each index of its issues, that of the issue, and no other |
| EntityValidationHistory.RecordedViolationSays | packages/core/src/config/EntityValidation.ts:574-639 | each holds its issue's code, path, message and constraint, its result and its subject, and nothing else for these |
| EntityValidationQueries.LastInvalidIff | packages/core/src/config/EntityValidation.ts:362-372 | where the heads show an input, the query for the last invalid results of a ref answers exactly the subjects observed with issues, with their result, schema and snapshot |
| EntityValidationQueries.ViolationsTellTheIssues | packages/core/src/config/EntityValidation.ts:382-420 | the query for the violations of a result answers one row for each of its issues, in full |
| EntityValidationAnswers.RevalidationListsTheInvalid | packages/core/src/config/EntityValidation.ts:362-372 | after a revalidation, at every later reading, the invalid results of its ref are those of the subjects it found invalid |
| EntityValidationAnswers.EverInvalidIffFound | packages/core/src/config/EntityValidation.ts:374-380 | over every run from an empty store, a subject is answered as ever invalid if and only if some revalidation of the run found it so: no result is lost and none made up |
| EntityValidationAnswers.ReachableViolations | packages/core/src/config/EntityValidation.ts:382-420 | in every reachable store the violations of a result on record are its issues, one row each |
| EntityValidationAnswers.CheckpointNamesItsRun | packages/core/src/config/EntityValidation.ts:762-827 | after a revalidation the checkpoint names the run of its ref, snapshot root, source position and one result for each observation, in order |
| EntityValidationMachine.RevalidationLeavesTheRest | packages/core/src/config/EntityValidation.ts:829-836 | a revalidation leaves every row of other entities in place, adds its own journal and one transaction of the validator's exactly when it commits, and nothing else |
| EntityValidationProgress.RevalidationIsPossible | packages/core/src/config/EntityValidation.ts:460-846 | whatever the store, some revalidation is enabled at every reading of a clock that has not stepped back |
| EntityValidationTwice.RevalidationIsUnobserved | packages/core/src/config/EntityValidation.ts:519-526 | a revalidation changes nothing that a snapshot without reserved types observes, at any instant |
| EntityValidationTwice.AdvanceIsUnobserved | packages/core/src/operational/ConsumerCheckpoint.ts:222-276 | a consumer's movement changes nothing that a snapshot without a schema for checkpoints observes, at any instant |
| EntityValidationTwice.RevalidatingTwiceIsOnceIff | packages/core/src/config/EntityValidation.ts:829-836 | with no reserved type and no source transaction in between, a second revalidation does nothing if and only if the source shows the same at both instants |
| EntityValidationClock.RevalidatingTwiceIsOnce | packages/core/src/config/EntityValidation.ts:829-836 | it does nothing when no source fact starts or ends to be valid in between |
| EntityValidationClock.ExpiryIsNoticed | packages/core/src/store/TriplesLive.ts:512-517 | a concrete fact valid until 100, revalidated at 50 and again later with no transaction in between: the second writes if and only if it reads at 100 or later |
| EntityValidationReserved.NewCarrierIsNoticed | packages/core/src/config/EntityValidation.ts:519-526 | a new entity of a defined type changes what is observed |
| EntityValidationReserved.ObservationsAreJudgements | packages/core/src/config/EntityValidation.ts:519-572 | observed is each entity with a visible row of a defined type, as it is judged, and nothing else |
| EntityValidationReserved.JudgedAreOfCarriers | packages/core/src/config/EntityValidation.ts:519-526 | it is judged by the visible rows of the entities that carry a defined type |
| EntityValidationReserved.SecondSettlesIff | packages/core/src/config/EntityValidation.ts:215-235 | a second revalidation at the same instant does nothing, for every store and every way of judging, if and only if the snapshot defines no type of the projector's own and not `_Transaction` |
| EntityValidationClock.AnyReadingKeepsOneIff | packages/core/src/config/EntityValidation.ts:693-723 | at any clock reading, a revalidation leaves an observed head at most one result if and only if the reading sees a result of the head or there is none |
| EntityValidationClock.EarlierReadingAddsASecond | packages/core/src/config/EntityValidation.ts:693-723 | a concrete revalidation at 100 and another whose clock reads 50, after which the head has two results |
| EntityValidationStatus.RevalidationMakesCurrent | packages/core/src/config/EntityValidation.ts:850-880 | after a revalidation its ref is reported current at every later reading, whether or not anything was written |
| EntityValidationStatus.OtherRevalidationsKeepStatus | packages/core/src/config/EntityValidation.ts:850-880 | revalidating another ref does not change whether this one is current |
| EntityValidationStatus.SourceTransactionsMakeStale | packages/core/src/config/EntityValidation.ts:872-879 | a journaled source transaction makes a current projection stale |
| EntityValidationStatus.AdvancesKeepStatus | packages/core/src/store/systemNamespace.ts:35-46 | a transaction without a journal leaves the status of every ref as it was |
| EntityValidationStatus.RunsStaySound | packages/core/src/config/EntityValidation.ts:781-879 | when no snapshot defines a type the system writes, over every run each checkpoint names an input that the ref's heads show, which is what the present rows give at some instant unless the source has moved on |
| EntityValidationStatus.CurrentIsSound | packages/core/src/config/EntityValidation.ts:850-880 | and then, in every reachable store, current means that each head of the ref points at exactly the result of its observation, and the others at nothing, for what the present rows give at some instant up to the clock |
| EntityValidationAnswers.CurrentListsTheInvalid | packages/core/src/config/EntityValidation.ts:850-880 | and the invalid results reported with that status are exactly those of the entities that the present rows make invalid at that instant |
| EntityValidationStatus.ShowsAlsoAtIff | packages/core/src/config/EntityValidation.ts:850-880 | heads that show one instant show another if and only if the rows give the same observations at both |
| EntityValidationStatus.ShowsAfterwardsIff | packages/core/src/config/EntityValidation.ts:215-235 | a revalidation leaves the heads showing what the store gives at that instant, for every store and every way of judging, if and only if the snapshot defines no reserved type |
| EntityValidationMisled.TwoRefsMislead | packages/core/src/config/EntityValidation.ts:850-880 | with a schema for a type of the projector's or the journal's, revalidations of two refs one after the other leave the second current, and at no instant so far and for no snapshot do its heads show what the rows give |
| EntityValidationUnjournaled.MovedConsumerMisleads | packages/core/src/operational/ConsumerCheckpoint.ts:266-276 | with a schema for consumers' checkpoints, a checkpoint made, validated and then moved leaves the status current, and at no instant so far and for no snapshot do the heads show what the rows give |
| EntityValidationCurrent.CurrentIsShownIff | packages/core/src/config/EntityValidation.ts:215-235 | over every run from an empty store and every way of judging, current means that the heads show what the present rows give at some instant so far, if and only if no snapshot defines a type that the projector, the journal or a consumer writes, or none defines any but results, violations and heads |
| EntityValidationRaces.StalePlanLeaves | packages/core/src/store/TriplesLive.ts:382-395 | the results of an observed head after a plan made on other facts, all of whose preconditions hold: kept, replaced, or joined by a second |
| EntityValidationRaces.StalePlanKeepsOneIff | packages/core/src/store/TriplesLive.ts:382-395 | such a plan leaves the head at most one result if and only if it saw a result or there is none |
| EntityValidationRaces.RacingMovesConflict | packages/core/src/store/TriplesLive.ts:382-395 | of two plans that retract one fact the second is refused |
| EntityValidationRaces.RacingValidationsKeepOneIff | packages/core/src/config/EntityValidation.ts:693-723 | when two plans made on the same facts both commit, a head both observe keeps one result if and only if it had one before |

## Left out

- The order in which violations, reads, runs and invalid subjects are reported, and locale collation: membership is proved, order is not.
- The query for currently invalid results, which joins the last invalid ones with the snapshot the ref names, and the check that an answered schema is a content id.
- Duplicate reports: a reference rule reports a fact stored twice twice; the model says which violations are reported, not how often.
- Paths, messages and reason texts, except that evaluation reasons are distinct values.
- Encoding failures, SHA-256, base64url, JSON bytes and schema decoding: ids are injective constructors and cursors are envelopes or not.
- Floating point: instants and numbers are integers; a number in a cursor is always finite.
- Separator characters inside keys: joined keys are tuples.
- SQL text, indexes, pragmas, connection handling, and the PostgreSQL and Cloudflare adapters, which repeat the row semantics of the SQLite one.
- SqliteAdapter.Adapter.WriteOperations: writes assertions one at a time; the store batches runs of consecutive assertions into one insert, which `Adapter.BatchInsert` models by itself.
- EnforcedRuns.RunsStaySafe: does not model command receipts or the preconditions of a transaction, which only refuse more transactions.
- Journal.MetadataTally: the text of a recorded change names the fact and whether it was asserted or retracted; its other fields are left out.
- Type ids and `closureId` of the configuration graph, schema subsumption, revisions and refs of the configuration store.
- The datalog compiler and executor below sorting, filtering and cutting: a query is any function of the facts whose answers differ in a projected variable.
- Query filters, aggregates and total counts: part of that function.
- Retries, timeouts, watches and metrics of the FoundationDB backend; a range read is a filter of a sorted store.
- Which schema and graph issues a subject has: how an entity is judged is any function of the rows of entities that carry a defined type, which is all that schemas and graph constraints read.
- EntityValidationMachine.RunsStaySane: one clock reading stands for the several reads of a revalidation, and another for its commit.
- EntityValidationStatus.CurrentIsSound: assumes that no snapshot defines a type the system writes; `EntityValidationCurrent.CurrentIsShownIff` is the exact condition.
- ConsumerCheckpoint.AdvanceMoves: does not model the bound on the next position, the last committed one, so the theorems over runs hold for more runs than the store allows; `EntityValidationUnjournaled.MovedConsumerMisleads` moves to 0 and, two commits later, to 1, which is within it. The answers to a repeated or stale movement write nothing and are left out too.
- Duplicate entity schemas in one snapshot, and refs that do not exist: the validator fails before it plans anything.
