# SynapseGit: a verified model of its core

SynapseGit is a content-addressed history store with a protocol on top in which an AI proposes and
a human decides. This project models its five hardest parts in Dafny and proves what they promise.

* **Canonical JSON** (`Text`, `Json*`): the strict parser, the size pre-pass and the canonical
  printer. They are three separate pieces of code that must agree on nodes, depth, items and bytes.
  What they read and write is also said without them: `JsonSpelling` and `JsonGrammar` say which texts
  write a value (section 7 of RFC 8259 for strings), and `JsonCanonical` which of those is the
  canonical one (section 3.2.3 of RFC 8785 for key order).
* **Timestamps and the recording clock** (`Calendar`, `Timestamp`, `Clock`): the parser and the
  printer use different calendar formulas.
* **Closure verification** (`Split`, `Oid`, `Reference*`, `Record*`, `Closure*`, `PreparedVerifier`,
  `Tombstones`): the budgeted depth-first walk over Commits, Trees and Records. `RecordPointers`
  resolves JSON pointers (RFC 6901), by which `ReferenceExact` says what every object refers to.
* **Permits and fencing** (`Words`, `Security`, `SecurityRegistry`, `FairGate`, `Fencing*`,
  `Approval*`): epochs, generations, one-shot registrations and permits, deadlines and the ticket
  gate, as steps of interleaved threads. What is refused, what is shut out until it is undone, and
  what goes through when nobody interferes are separate theorems.
* **Review, recovery and artifacts** (`Reflog`, `Journal`, `Recovery*`, `Review*`, `Manifest*`,
  `Site*`, `DecisionChain`, `ChainVerifier`): sequential review, crash recovery, the path-to-tree
  mapping and its inverse, and the two authority walks of a checkout.

Code that only computes is a function with lemmas about it. Code that updates things step by step is
a method or a class, proved equal to such a function, so that the theorems apply to both. Protocols
are state machines; their theorems hold for every sequence of steps.

Environment. The clock, the authenticator, the NFC tables, case folding and content hashes are
parameters. Of content hashes only that a name carries its kind is assumed; a put whose name already
stands for other content is refused, as in the source (crates/synapse-cas/src/store.rs:897-928). The
Ref store gives an atomic compare-and-swap that appends to a chained reflog
(crates/synapse-sqlite/src/lib.rs:851-956), and journal calls are atomic row updates.

## What the proofs found

Six promises do not hold as the code stands. Each has a lemma with inputs that show it and a lemma
with the exact condition under which it does hold.

* *Recording clock.* Readings that all stay below the i128 maximum are not enough: a tick that lands
  one short of the maximum is bumped onto it, and the next tick then starts over from the system
  clock (`Clock.ClockRunsBackwardsAtTheCeiling`). If the system clock never passes a bound, successful
  ticks increase over every run of so many readings if and only if bound plus count is less than two
  above the maximum, or three if the bound is past the printable range
  (`Clock.TicksIncreaseExactlyUnderBound`). Over one given run they increase if and only if, whenever
  the clock stood on the maximum, before the epoch or had no time yet, a next tick that could be
  printed was past everything printed before (`Clock.TicksIncreaseExactly`). The logical clock
  advances over one given run if and only if every reading but the last leaves one nanosecond of room
  for each reading after it (`Clock.ClockAdvancesExactlyWithRoom`).
* *Approval fence.* The approval registry changes an access list before it advances the epoch. A run
  reaches the u64 ceiling, where an approval survives its own actor's removal
  (`Approval.ApprovalSurvivesRevocationAtTheCeiling`). After a change of a list no earlier approval of
  the project is ever accepted if and only if none issued at the ceiling is outstanding
  (`Approval.ListChangeVoidsApprovalsExactly`). The accepting continuation may grant the actor again,
  and its clock may read the time of issue again, so an approval past its deadline that was not yet
  dropped counts as outstanding.
* *Denied reviews.* If other writers may move a Ref anywhere, a review that was denied as stale can
  still be committed by the process that had already marked it
  (`RecoveryExact.DeniedReviewCanStillMoveTheRef`). A denied candidate is a head in some continuation
  without a foreign move to it if and only if it already was one or some process is marked
  (`RecoveryExact.DeniedCandidateMovesExactly`). If heads only extend their parents it cannot
  (`Recovery.DeniedNeverCommits`).
* *Retries.* Reconciliation reads its evidence and writes its verdict in separate transactions. So a
  review can be opened to retry when its candidate is already the head, with no foreign writer at all
  (`RecoveryExact.RetryIsAllowedAfterTheMove`). While nobody else writes a verdict this can happen if
  and only if, when the evidence was read, the row was open to a new attempt, or its outcome was
  unknown and some process marked (`RecoveryExact.RetriesTooLateExactly`). The first case needs nobody
  marked and does occur (`RecoveryExact.RetryIsLateWithNobodyMarked`). With other verdicts in between
  it can happen if and only if the review was not settled when the evidence was read
  (`RecoveryExact.VerdictComesTooLateExactly`). A verdict was always true at some point of the history
  (`Recovery.DenialAndRetryWereTrueOnce`).
* *Open proposals.* A preparer that checked availability early and registers late seals the head of
  a proposal published in between, replaces it, and is then told of an integrity error
  (`Review.OpenProposalCanBeDisplaced`). A publication that goes through meets an open proposal if and
  only if the head sealed at registration is present (`Review.PublicationMeetsOpenProposalExactly`).
  There is still never more than one open proposal.
* *Charged target bytes.* The quick lexical test for identifiers agrees with the parser except on
  the empty text (`Oid.UnchargedExactlyWhenIdentifier`).

## Model

| member | source | states |
|---|---|---|
| `JsonRoundTrip.CanonicalTextReadsBack` | crates/synapse-canonical/src/lib.rs:797-1187 | if a value can be canonicalised and the output limit is within the input limit, strict parsing of the canonical text under the same limits gives the value with every object in key order, and that value prints the same text |
| `JsonAccepted.AcceptedInputCanonicalises` | crates/synapse-canonical/src/lib.rs:440-501 | every accepted input can be canonicalised, in at most as many bytes as the input; the node, depth, item and byte checks of the passes agree |
| `JsonAccepted.CanonicalFormIsStable` | crates/synapse-canonical/src/lib.rs:440-501 | canonicalising accepted input reaches a fixed point whenever the input limit is within the canonical limit: the text parses back to the same content and prints itself |
| `JsonContent.CanonicalTextIdentifiesContent` | crates/synapse-canonical/src/lib.rs:797-875 | two values have the same canonical text if and only if they have the same content up to member order at every level |
| `JsonContent.SameContentNormalises` | crates/synapse-canonical/src/lib.rs:797-875 | values with the same content have the same normal form |
| `JsonContent.NormalFormDecides` | crates/synapse-canonical/src/lib.rs:797-875 | values with the same normal form have the same content |
| `JsonGrammarFound.ParsesExactlyWhatIsWritten` | crates/synapse-canonical/src/lib.rs:906-1187 | strict parsing accepts a text as a value if and only if the text writes that value by the grammar, every legal spelling and any blanks between tokens included, and the value is in the domain and within the limits; the grammar mentions no parser |
| `JsonGrammarFound.CanonicalIsShortest` | crates/synapse-canonical/src/lib.rs:797-875 | no text that writes a value is shorter than its canonical text |
| `JsonSpelling.StringReadExactly` | crates/synapse-canonical/src/lib.rs:1027-1123 | the string reader gives a string from a text if and only if the text starts with a legal spelling of it, character by character: itself, a short escape, or four hexadecimal digits of either case per UTF-16 code unit, pairs high half first |
| `JsonSpelling.SpellingReads` | crates/synapse-canonical/src/lib.rs:1027-1123 | every legal spelling of a string reads back as that string |
| `JsonSpelling.ReadIsSpelled` | crates/synapse-canonical/src/lib.rs:1027-1123 | whatever the string reader gives was spelled by exactly the text it consumed |
| `JsonCanonical.CanonIsCanonical` | crates/synapse-canonical/src/lib.rs:797-875 | the printed text is the only text that writes the value with no blanks, every string in its shortest lower-case spelling and the members of every object in strictly ascending order of their keys |
| `JsonCanonical.EscapedIsShortest` | crates/synapse-canonical/src/lib.rs:852-871 | the escape chosen for a character is the shortest legal spelling of it, the lower-case one among equals |
| `JsonCanonical.SortAscends` | crates/synapse-canonical/src/lib.rs:835-850 | sorting rearranges the members so that each key stands before the next one at the first UTF-16 code unit where they differ, or ends there |
| `JsonRoundTrip.ValueReadsBack` | crates/synapse-canonical/src/lib.rs:916-1153 | the parser reads a printed value from any following text, counts exactly its nodes and stops where it ends |
| `JsonRoundTrip.StringReadsBack` | crates/synapse-canonical/src/lib.rs:1027-1110 | a printed string, escapes included, reads back as itself |
| `JsonRoundTrip.IntegerReadsBack` | crates/synapse-canonical/src/lib.rs:1125-1153 | a printed safe integer reads back as itself |
| `JsonRoundTrip.ObjectReadsBack` | crates/synapse-canonical/src/lib.rs:937-990 | a printed object reads back with its members in key order |
| `JsonRoundTrip.ArrayReadsBack` | crates/synapse-canonical/src/lib.rs:992-1025 | a printed array reads back item by item |
| `JsonAccepted.ValueIsSound` | crates/synapse-canonical/src/lib.rs:916-935 | whatever the parser returns is in the domain, within depth and node limits, and prints in no more bytes than were consumed |
| `JsonAccepted.StringShrinks` | crates/synapse-canonical/src/lib.rs:1027-1110 | re-escaping a parsed string never takes more bytes than its source text |
| `JsonAccepted.NumberShrinks` | crates/synapse-canonical/src/lib.rs:1125-1153 | a parsed number prints in no more bytes than its token |
| `JsonAccepted.ObjectIsSound` | crates/synapse-canonical/src/lib.rs:937-990 | a parsed object has distinct NFC keys, fits the item limit and does not grow |
| `JsonAccepted.ArrayIsSound` | crates/synapse-canonical/src/lib.rs:992-1025 | a parsed array fits the item limit and does not grow |
| `JsonOrder.SortIsSorted` | crates/synapse-canonical/src/lib.rs:797-850 | members are written in key order, the order that `Text.KeyOrderIsDecided` characterises |
| `JsonOrder.SortIsPermutation` | crates/synapse-canonical/src/lib.rs:797-850 | sorting members loses and adds nothing |
| `JsonOrder.SortedIsUnique` | crates/synapse-canonical/src/lib.rs:797-850 | with distinct keys there is only one sorted order, whichever sort produced it |
| `JsonOrder.NormalKeeps` | crates/synapse-canonical/src/lib.rs:797-850 | putting objects in key order keeps the domain, all measures and the canonical text |
| `Text.KeyOrderIsTotal` | crates/synapse-canonical/src/lib.rs:873-875 | comparing UTF-16 code units is a total order in which only equal keys tie; which order it is, is `Text.KeyOrderIsDecided` |
| `Text.KeyOrderIsDecided` | crates/synapse-canonical/src/lib.rs:873-875 | one key is at most another if and only if they are equal or the first one ends, or has the smaller UTF-16 code unit, at the first place where they differ |
| `Text.SingleKeyOrder` | crates/synapse-canonical/src/lib.rs:873-875 | one-character keys compare by code point, except that a character beyond U+FFFF comes before those from U+E000 to U+FFFF |
| `Text.CharBytesIsShortest` | crates/synapse-canonical/src/lib.rs:644-762 | the byte length charged for a character is the least number of UTF-8 bytes whose payload bits hold its code point |
| `Text.Utf16Injective` | crates/synapse-canonical/src/lib.rs:873-875 | different strings have different UTF-16 code units |
| `JsonParser.ParseStrict` | crates/synapse-canonical/src/lib.rs:440-469 | the entry point returns what the grammar function gives, errors included; it succeeds exactly on the texts that write an admissible value, with that value |
| `JsonParser.Parser.Parse` | crates/synapse-canonical/src/lib.rs:906-914 | the position-based parser accepts one value and only blanks after it |
| `JsonParser.Parser.ParseValue` | crates/synapse-canonical/src/lib.rs:916-935 | dispatch, depth and node checks agree with the grammar function, and the position and node count advance with it |
| `JsonParser.Parser.ParseObject` | crates/synapse-canonical/src/lib.rs:937-990 | the member loop agrees with the grammar function, duplicate keys included |
| `JsonParser.Parser.ParseArray` | crates/synapse-canonical/src/lib.rs:992-1025 | the item loop agrees with the grammar function |
| `JsonParser.Parser.ParseString` | crates/synapse-canonical/src/lib.rs:1027-1059 | the scanning loop agrees with the grammar function |
| `JsonParser.Parser.ParseEscape` | crates/synapse-canonical/src/lib.rs:1061-1079 | an escape is read as the grammar function reads it |
| `JsonParser.Parser.ParseUnicodeEscape` | crates/synapse-canonical/src/lib.rs:1081-1110 | surrogate pairs are combined and lone ones refused as in the grammar function, which `JsonSpelling.StringReadExactly` characterises |
| `JsonParser.Parser.ParseHexUnit` | crates/synapse-canonical/src/lib.rs:1112-1123 | exactly four hexadecimal digits are read |
| `JsonParser.Parser.ParseNumber` | crates/synapse-canonical/src/lib.rs:1125-1153 | the token is taken up to a delimiter and must be a canonical safe integer |
| `JsonParser.Parser.ParseKeyword` | crates/synapse-canonical/src/lib.rs:1155-1161 | a literal is taken whole or refused |
| `JsonPrinter.CanonicalJson` | crates/synapse-canonical/src/lib.rs:490-501 | succeeds if and only if the value fits the limits, with the one text that is canonical for it by the relation of `JsonCanonical`; the writer never fails after the size pass; a value of the domain is refused only for a resource limit |
| `JsonPrinter.CanonicalSize` | crates/synapse-canonical/src/lib.rs:644-713 | the size pass, in stored order, gives the exact byte length of the text written in sorted order, and fails exactly on values out of domain or limits |
| `JsonPrinter.CanonicalArraySize` | crates/synapse-canonical/src/lib.rs:644-713 | the same for arrays, accumulating item by item |
| `JsonPrinter.CanonicalObjectSize` | crates/synapse-canonical/src/lib.rs:644-713 | the same for objects, duplicate keys refused |
| `JsonPrinter.CanonicalStringSize` | crates/synapse-canonical/src/lib.rs:751-762 | the size of a string is the byte length of its quoted form, or the limit is exceeded |
| `JsonPrinter.WriteCanonical` | crates/synapse-canonical/src/lib.rs:797-850 | appends exactly the canonical text, the one that `JsonCanonical.CanonIsCanonical` characterises, and fails only outside the domain |
| `JsonPrinter.WriteJsonString` | crates/synapse-canonical/src/lib.rs:852-871 | appends the quoted, escaped string |
| `Calendar.CivilDateCountsBack` | crates/synapse-creator/src/time.rs:74-87 | the printer's era formula gives, for every day from year zero on, a valid date that the parser's day count maps back to that day |
| `Calendar.CivilFromDaysInverts` | crates/synapse-creator/src/time.rs:74-87 | every valid date is the one the era formula gives for its own day count |
| `Calendar.DaysFollowDates` | crates/synapse-canonical/src/lib.rs:340-382 | later dates have larger day counts |
| `Calendar.CountsDayByDay` | crates/synapse-canonical/src/lib.rs:340-382 | the day count is zero on the first of January 1970 and grows by one from every date to the next day of the calendar |
| `Timestamp.PrintedTimestampParses` | crates/synapse-creator/src/time.rs:52-72 | every printed timestamp parses to exactly the nanosecond it was printed for |
| `Timestamp.AcceptedTimestampPrintsBack` | crates/synapse-canonical/src/lib.rs:301-359 | every accepted timestamp at or after the epoch is what the printer writes for its instant, character for character |
| `Timestamp.FormatSucceedsExactly` | crates/synapse-creator/src/time.rs:52-72 | printing succeeds if and only if the seconds are from the epoch to the end of year 9999 |
| `Timestamp.TextOrderIsTimeOrder` | crates/synapse-canonical/src/lib.rs:301-359 | accepted timestamps sort as texts exactly as they sort as instants, and equal instants are equal texts |
| `Timestamp.AcceptedExactly` | crates/synapse-canonical/src/lib.rs:301-359 | a text is accepted as an instant if and only if it is the fixed layout of a valid moment at that instant, before the epoch too |
| `Timestamp.MomentReadsBack` | crates/synapse-canonical/src/lib.rs:301-338 | the fixed layout of a moment is lexical and its fields read back |
| `Timestamp.MomentPrintsBack` | crates/synapse-canonical/src/lib.rs:301-338 | an accepted text is the fixed layout of the fields read from it |
| `Clock.RecordingClock.Tick` | crates/synapse-creator/src/time.rs:27-50 | one tick updates the last time and answers as the specification functions say; a failed reading leaves the clock |
| `Clock.PrintedSucceedsExactly` | crates/synapse-creator/src/time.rs:27-50 | a tick can be printed if and only if its time is in the non-negative i64 range, and then the text parses to it |
| `Clock.ClockAdvancesExactlyWithRoom` | crates/synapse-creator/src/time.rs:27-50 | over a run of readings the logical times strictly increase if and only if the readings leave room below the ceiling |
| `Clock.TicksAndTextsIncrease` | crates/synapse-creator/src/time.rs:22-72 | over any run with room, failed readings and backward jumps included, successful ticks and their printed texts strictly increase |
| `Clock.TicksIncreaseExactlyUnderBound` | crates/synapse-creator/src/time.rs:22-72 | with readings that never pass a bound, successful ticks and their texts strictly increase over every run of at most so many successful readings if and only if bound plus count is less than two above the ceiling, or three if the bound is past the printable range |
| `Clock.TicksIncreaseExactly` | crates/synapse-creator/src/time.rs:27-50 | over one given run, failures included, successful ticks and their texts strictly increase if and only if, whenever the clock had no time yet, stood before the epoch or on the ceiling, a next tick that could be printed was past everything printed before |
| `Clock.FailuresLeaveTheClock` | crates/synapse-creator/src/time.rs:27-50 | the clock's state is that of the successful readings alone |
| `Clock.ClockRunsBackwardsAtTheCeiling` | crates/synapse-creator/src/time.rs:27-50 | for any two printable times there are readings, all below the ceiling, after which a tick gives the smaller time after the larger |
| `Split.JoinParts` | crates/synapse-canonical/src/lib.rs:163-185 | splitting a text at a separator and joining the parts gives the text |
| `Split.PartsOfJoin` | crates/synapse-canonical/src/lib.rs:163-185 | joining separator-free parts and splitting gives the parts |
| `Oid.OidLayout` | crates/synapse-canonical/src/lib.rs:163-185 | parsing by colon-separated parts accepts exactly kind, tag and 64 lower-case hex digits |
| `Oid.UnchargedExactlyWhenIdentifier` | crates/synapse-cas/src/graph.rs:1482-1496 | a target is charged nothing if and only if it is an identifier or empty |
| `ReferenceExtractor.ReferenceCollector.TryPush` | crates/synapse-cas/src/graph.rs:961-1007 | a reference is kept, or the first budget it would break is marked, and nothing else changes |
| `ReferenceExtractor.ExtractReferences` | crates/synapse-cas/src/graph.rs:1060-1075 | extraction gathers exactly what the budget lets through of the object's items, in order; which items those are is said by pointers in `ReferenceExact` |
| `ReferenceExtractor.ExtractCommitReferences` | crates/synapse-cas/src/graph.rs:1077-1137 | the four fields of a Commit in order, with missing fields reported even when a budget is spent |
| `ReferenceExtractor.AppendArrayReferences` | crates/synapse-cas/src/graph.rs:1368-1404 | a list field element by element, stopping once a budget is spent |
| `ReferenceExtractor.ExtractTreeReferences` | crates/synapse-cas/src/graph.rs:1406-1480 | a Tree entry by entry |
| `ReferenceExtractor.TakeEntry` | crates/synapse-cas/src/graph.rs:1420-1479 | one entry is kept, or the first thing wrong with it is reported |
| `ReferenceExtractor.CollectRecordOidStrings` | crates/synapse-cas/src/graph.rs:1139-1294 | the walk over a Record feeds the collector the identifier strings that `RecordPlaces.ValueFinds` and `ReferenceExact.RecordReferenceExactly` characterise, and stops once a budget is spent |
| `ReferenceExtractor.AppendPointerKey` | crates/synapse-cas/src/graph.rs:1521-1551 | the escaped key is appended if and only if the pointer stays within the limit |
| `ReferenceExtractor.AppendPointerIndex` | crates/synapse-cas/src/graph.rs:1504-1519 | the index is appended if and only if the pointer stays within the limit |
| `ReferenceExact.RecordReferenceExactly` | crates/synapse-cas/src/graph.rs:1139-1278 | a Record lists a target under the role of a pointer, the supersedes role included, if and only if that JSON pointer resolves in its body to that string, the string is an identifier and the pointer is within the limit |
| `ReferenceExact.RecordEventsExactly` | crates/synapse-cas/src/graph.rs:1139-1294 | the references with their kinds, constraints and costs, the self-targeting Tombstones and the overlong pointers met in a Record are exactly those that its pointers produce |
| `ReferenceExact.RecordRolesOnly` | crates/synapse-cas/src/graph.rs:1139-1278 | a Record lists nothing else |
| `ReferenceExact.ExtractionFindsExactly` | crates/synapse-cas/src/graph.rs:1060-1075 | an extraction no budget stopped has gathered a target under the role of a pointer if and only if the pointer resolves to that identifier |
| `RecordPlaces.ValueFinds` | crates/synapse-cas/src/graph.rs:1164-1278 | the references of a value are, one each and in document order, the places that hold an identifier at a pointer within the limit |
| `RecordPlaces.ValueProduces` | crates/synapse-cas/src/graph.rs:1164-1278 | an event is met if and only if some place of the value produces it |
| `RecordPlaces.ConstraintsAreTyped` | crates/synapse-cas/src/graph.rs:1280-1294 | the typed fields are exactly the seven of the table |
| `RecordPointers.PlaceResolves` | crates/synapse-cas/src/graph.rs:1504-1551 | the pointer built for a place resolves to what stands there, if no object repeats a key |
| `RecordPointers.ResolvedHasPlace` | crates/synapse-cas/src/graph.rs:1504-1551 | a pointer that resolves is the one built for the place it names |
| `RecordPointers.ValidIsDistinct` | crates/synapse-canonical/src/lib.rs:937-990 | values of the parser's domain never repeat a key at any level |
| `RecordPointers.KeyReadsBack` | crates/synapse-cas/src/graph.rs:1521-1551 | an escaped key unescapes to itself and holds no slash |
| `ReferenceExact.CommitEventsExactly` | crates/synapse-cas/src/graph.rs:1077-1137 | a Commit lists exactly its parents, snapshot, transitions and bound declarations, each with its kind, index and cost, and reports exactly the lists that are missing, the elements that are not strings and a missing snapshot |
| `ReferenceExact.CommitRolesAscend` | crates/synapse-cas/src/graph.rs:1077-1137 | in that order, and no role twice |
| `ReferenceExact.TreeEventsExactly` | crates/synapse-cas/src/graph.rs:1406-1480 | a Tree has one event per entry, in order: the reference to the entry's target with its kind and segment if and only if the segment is portable and kind and target can be read, a fault otherwise |
| `ReferenceExact.SourceReads` | crates/synapse-cas/src/graph.rs:1139-1171 | the record type and entity id a Record is read with are the texts at two pointers, or empty |
| `ReferenceExact.SemanticsRead` | crates/synapse-cas/src/graph.rs:1296-1312 | the semantics a constraint is compared with are the texts at three pointers |
| `References.InBudgetGathersAll` | crates/synapse-cas/src/graph.rs:961-1007 | an extraction within budget gathers every reference and its whole cost, and reports nothing malformed only if there is nothing |
| `References.BudgetIsKept` | crates/synapse-cas/src/graph.rs:961-1007 | no extraction gathers more references or bytes than its budget |
| `References.LargerBudgetSame` | crates/synapse-cas/src/graph.rs:961-1007 | an extraction that fits is the same under any larger budget |
| `ClosureVerifier.VerifyClosure` | crates/synapse-cas/src/graph.rs:328-625 | the loop over the work stack gives exactly the verdict of the state machine, and terminates on every store; what that verdict says is `ClosureTruth.EveryReportIsTrue` and `ClosureExact.CompleteExactlyWhenSound` |
| `ClosureVerifier.ClosureWalker.VisitObject` | crates/synapse-cas/src/graph.rs:378-429 | the branches of entering an object, in order: depth, active, finished, object budget, open |
| `ClosureVerifier.ClosureWalker.OpenObject` | crates/synapse-cas/src/graph.rs:431-534 | lookup, tombstones, damage, kind mismatch and record semantics |
| `ClosureVerifier.ClosureWalker.ExpandObject` | crates/synapse-cas/src/graph.rs:536-620 | edges, issues and pending visits of one object, and the stop when a budget is spent |
| `ClosureVerifier.ClosureWalker.LeaveObject` | crates/synapse-cas/src/graph.rs:371-377 | an object moves from active to finished |
| `ClosureVerifier.ClosureWalker.ReportCycle` | crates/synapse-cas/src/graph.rs:400-409 | the reported path starts at the first occurrence of the revisited object on the active path |
| `ClosureVerifier.TakeReferences` | crates/synapse-cas/src/graph.rs:553-601 | every reference becomes an edge; each leads to a visit or to one issue |
| `ClosureWalk.StepAdvances` | crates/synapse-cas/src/graph.rs:368-623 | every step adds a node or shortens the stack, within the object budget |
| `ClosureShape.StepKeepsShape` | crates/synapse-cas/src/graph.rs:368-623 | every step keeps the stack, path, active and finished sets consistent and the budgets kept |
| `ClosureShape.ReportsAreBoundedAndCyclesReal` | crates/synapse-cas/src/graph.rs:369-621 | in every report, complete or not, nodes, edges and charged bytes are within their limits, so the budget subtractions never underflow, and every reported cycle is a closed path of recorded edges |
| `ClosureTruth.EveryReportIsTrue` | crates/synapse-cas/src/graph.rs:328-625 | in every report, complete or not, each node says what the store and the tombstones say and is within the depth limit, each edge is a reference of its source, each issue of each kind names something that is so together with the object and role it came from, and the report is marked truncated if and only if a spent limit is among its issues |
| `ClosureTruth.StepKeepsTruth` | crates/synapse-cas/src/graph.rs:368-623 | every step keeps that |
| `ClosureComplete.CompleteNodesAreReachable` | crates/synapse-cas/src/graph.rs:328-625 | a complete report has a node for exactly the objects reachable from the root through references of present objects |
| `ClosureComplete.CompleteClosureIsSound` | crates/synapse-cas/src/graph.rs:328-625 | behind a complete report the root is present, every reachable object is present under its own kind and well formed with references that lead on, or is tombstoned; every constraint holds, not just the first one met; and the recorded edges are exactly the references, in order |
| `ClosureComplete.SoundRecordIsReadable` | crates/synapse-cas/src/graph.rs:1296-1366 | a sound Record has readable semantics, so its constraints are not vacuous |
| `ClosureComplete.CompleteClosureHasNoDependencyCycle` | crates/synapse-cas/src/graph.rs:390-410 | behind a complete report no reachable object depends on itself through Commit, Tree or supersedes references |
| `ClosureComplete.DependencyRanksLower` | crates/synapse-cas/src/graph.rs:371-377 | such a reference always leads to an object that was finished earlier |
| `ClosureLimits.LargerLimitsSameReport` | crates/synapse-cas/src/graph.rs:284-296 | a report that no limit cut short is identical under any larger limits |
| `ClosureExact.CompleteExactlyWhenSound` | crates/synapse-cas/src/graph.rs:328-625 | on every store and under every limit a report is complete if and only if the closure is sound and the report neither was cut short nor names a cycle |
| `ClosureExact.SoundClosureIsBlameless` | crates/synapse-cas/src/graph.rs:328-625 | a sound closure is always reported, with no issues besides cycles and spent limits, and a spent limit exactly when the report is truncated |
| `ClosureSufficient.RankedClosureIsCompleteWhenSound` | crates/synapse-cas/src/graph.rs:328-625 | where only plain record references can form cycles and the limits hold the closure, neither happens: a report is complete if and only if the closure is sound |
| `ClosureSufficient.StrictRankIsShallow` | crates/synapse-cas/src/graph.rs:378-410 | where every reference goes down in rank, as digests force, those conditions hold once the root's rank is within the depth limit |
| `PreparedVerifier.PreparedClosureVerifier.VerifyCached` | crates/synapse-cas/src/graph.rs:263-270 | a cached answer is the answer of a fresh verification |
| `PreparedVerifier.PreparedClosureVerifier.VerifyWithWorkLimits` | crates/synapse-cas/src/graph.rs:284-296 | narrower budgets give the verdict under the smaller of each limit, and a report they do not cut is the one under the full limits |
| `Tombstones.TombstoneCatalog.Observe` | crates/synapse-cas/src/graph.rs:653-703 | a Record is refused if and only if it takes the scan past its limits; otherwise the catalog is that of everything observed |
| `Tombstones.CatalogHoldsLowest` | crates/synapse-cas/src/graph.rs:679-708 | an object is resolved if and only if some Tombstone names it, by the lowest such Tombstone |
| `Tombstones.CatalogIgnoresOrder` | crates/synapse-cas/src/graph.rs:653-708 | the catalog depends only on which objects were observed |
| `SecurityRegistry.SecurityState.GrantProjectAccess` | crates/synapse-application/src/lib.rs:614-636 | grants with a new epoch, or is refused and changes nothing |
| `SecurityRegistry.SecurityState.RevokeProjectAccess` | crates/synapse-application/src/lib.rs:639-653 | revokes with a new epoch, or is refused and changes nothing; what a revocation ends over every continuation is `FencingRevoked.RevocationShutsOut` |
| `SecurityRegistry.SecurityState.RegisterProfile` | crates/synapse-application/src/lib.rs:656-680 | installs a first-generation profile under a new serial |
| `SecurityRegistry.SecurityState.ReplaceProfile` | crates/synapse-application/src/lib.rs:683-720 | replaces a profile with both counters advanced, or changes nothing; human.rs lines 357-397 do the same |
| `SecurityRegistry.SecurityState.SetProfileSuspended` | crates/synapse-application/src/lib.rs:723-769 | flips the flag with both counters advanced, or changes nothing; human.rs lines 400-440 do the same |
| `SecurityRegistry.SecurityState.RegisterExecution` | crates/synapse-application/src/lib.rs:772-829 | registers under the generation seen before the head was read, or changes nothing |
| `SecurityRegistry.SecurityState.IssuePermit` | crates/synapse-application/src/lib.rs:912-958 | exchanges a registration for a permit if everything seen still holds, or changes nothing |
| `SecurityRegistry.SecurityState.BurnPermit` | crates/synapse-application/src/lib.rs:979-985 | removes the permit before anything about it is checked |
| `SecurityRegistry.SecurityState.AllocateSerial` | crates/synapse-application/src/lib.rs:484-491 | each serial is handed out once, and never the last u64 |
| `Security.GuardKeepsTheDeadline` | crates/synapse-application/src/lib.rs:1094-1116 | the transaction guard under the deadline clock allows a move if and only if the real time is at or after the last one observed, before the permit's deadline and, for AI, before the grant expires |
| `Security.DeadlineIsTheEarliest` | crates/synapse-application/src/lib.rs:899-905 | the deadline of a permit is the earliest of its bounds and after the issue, and without such a time none is issued |
| `FencingState.LiveMeansCurrent` | crates/synapse-application/src/lib.rs:1224-1249 | the check before publication, which reads only counters and flags, pins the whole project security and profile to those of the issue |
| `FencingState.FenceHolds` | crates/synapse-application/src/lib.rs:614-769 | no control operation can leave a counter as it was and change what it counts |
| `FencingState.OpAdvances` | crates/synapse-application/src/lib.rs:614-769 | every control operation moves only its own project's counters, and only up |
| `FencingState.IssueKeepsState` | crates/synapse-application/src/lib.rs:832-960 | a new permit is fenced from the start and its registration is gone |
| `FencingRuns.StepKeeps` | crates/synapse-application/src/lib.rs:614-1047 | every step of every thread keeps the invariant |
| `FencingRuns.MovedOnlyUnderLiveAuthority` | crates/synapse-application/src/lib.rs:967-1047 | over every interleaving, when a Ref is moved under a permit the project security and profile are the very ones it was issued under, the profile is not suspended, the actor has access, and the clock is within the permit's time; the human path is human.rs lines 792-893 |
| `FencingRuns.EverythingIsOneShot` | crates/synapse-application/src/lib.rs:939-985 | over every run a registration yields at most one permit, a permit is consumed at most once and moves at most one Ref; the human path is human.rs lines 757-810 |
| `FencingRuns.CountersOnlyGrow` | crates/synapse-application/src/lib.rs:484-492 | over every run and continuation epochs, generations and serials never fall, and no spent serial comes back |
| `FencingRuns.OneInside` | crates/synapse-application/src/lib.rs:1142-1161 | two threads holding one project's gate are the same thread |
| `FencingRuns.OneAtATime` | crates/synapse-application/src/lib.rs:1142-1161 | in every run two threads working on one project are the same thread |
| `FencingAfter.ChangedAuthorityEndsOldPermits` | crates/synapse-application/src/lib.rs:614-769 | over every run and continuation, once access was granted or revoked, a profile replaced, suspended or resumed, no permit issued before ever moves a Ref of that project, however far it had come |
| `FencingAfter.ChangeAdvancesEpoch` | crates/synapse-application/src/lib.rs:614-769 | every such change advances the project's epoch |
| `FencingAccess.AccessIsTheLastWord` | crates/synapse-application/src/lib.rs:614-653 | over every run an actor has access to a project if and only if the last grant or revocation of theirs that went through was a grant |
| `FencingAccess.SuspensionIsTheLastWord` | crates/synapse-application/src/lib.rs:683-769 | over every run a profile is suspended if and only if the last suspension, resumption or replacement of it that went through was a suspension |
| `FencingAccess.ProfileIsWhatWasLastWritten` | crates/synapse-application/src/lib.rs:656-720 | over every run a profile holds exactly the authority and configuration that were last installed or replaced under its serial |
| `FencingAccess.AcceptedExactly` | crates/synapse-application/src/lib.rs:614-769 | a control operation goes through if and only if what it names exists and no counter it must advance is at the u64 ceiling |
| `FencingRevoked.RevocationShutsOut` | crates/synapse-application/src/lib.rs:639-653 | over every run and continuation, once a revocation of an actor has gone through they have no access, no permit is issued to them for the project and no Ref of it is moved in a session of theirs, until a grant to that actor goes through |
| `FencingRevoked.SuspensionStopsEverything` | crates/synapse-application/src/lib.rs:723-769 | over every run and continuation, once a suspension has gone through the profile is suspended and nothing is registered, issued or moved under it, until it is resumed or replaced |
| `FencingRevoked.EveryStepNeeds` | crates/synapse-application/src/lib.rs:772-1047 | every step issues, registers and moves only under access and a profile in force at that step |
| `FencingPublishes.UndisturbedRequestMovesTheRef` | crates/synapse-application/src/lib.rs:772-1047 | in every run a request that is not disturbed, with access, a usable profile for its actor, a clock before the deadline and a transaction that agrees, goes from registering to exactly one move, made in its session under the permit it was issued |
| `FencingPublishes.Enrols` | crates/synapse-application/src/lib.rs:772-829 | a usable profile registers, with the generation and the head that were read |
| `FencingPublishes.Prepares` | crates/synapse-application/src/lib.rs:832-960 | whoever has access and names a fresh registration of a profile that serves them is issued the permit they are owed, field by field |
| `FencingPublishes.Publishes` | crates/synapse-application/src/lib.rs:967-1047 | the holder of a live permit spends it and moves the Ref once |
| `FairGate.OneHolder` | crates/synapse-application/src/lib.rs:1142-1177 | never two threads inside |
| `FairGate.LeavingNeverOverflows` | crates/synapse-application/src/lib.rs:1163-1177 | the increment on leaving cannot overflow |
| `FairGate.NobodyIsLost` | crates/synapse-application/src/lib.rs:1142-1177 | with tickets outstanding somebody is inside, or the next ticket's owner is waiting and can enter |
| `FairGate.EntriesFollowTickets` | crates/synapse-application/src/lib.rs:1118-1177 | in every run the i-th thread through holds ticket i |
| `FairGate.EveryRunIsExclusive` | crates/synapse-application/src/lib.rs:1118-1177 | in every run whoever leaves was alone inside and leaves without overflow, and while anybody holds a ticket somebody can leave or enter |
| `FairGate.TakeKeeps` | crates/synapse-application/src/lib.rs:1142-1151 | taking a ticket keeps the gate consistent, refusal at the u64 ceiling included |
| `FairGate.EnterKeeps` | crates/synapse-application/src/lib.rs:1152-1161 | entering keeps the gate consistent |
| `FairGate.LeaveKeeps` | crates/synapse-application/src/lib.rs:1163-1177 | leaving keeps the gate consistent |
| `Approval.ArtifactApprovalRegistry.GrantProjectAccess` | crates/synapse-artifact/src/approval.rs:152-174 | the access list changes even when the epoch cannot, and exactly then the overflow is reported |
| `Approval.ArtifactApprovalRegistry.RevokeProjectAccess` | crates/synapse-artifact/src/approval.rs:176-193 | the access list changes even when the epoch cannot, and exactly then the overflow is reported |
| `Approval.ArtifactApprovalRegistry.IssueArtifactDecision` | crates/synapse-artifact/src/approval.rs:216-282 | expired approvals are dropped and one is issued, under the next serial, if and only if the epoch and access seen still hold and a serial is left |
| `Approval.ArtifactApprovalRegistry.TakeApproval` | crates/synapse-artifact/src/approval.rs:286-315 | the record is removed before anything about it is compared |
| `Approval.AcceptedOnceAndUnderTheSameList` | crates/synapse-artifact/src/approval.rs:286-345 | over every run an approval is accepted at most once, in time, in its own session, for its own decision, and below the epoch ceiling under the very access list it was issued under |
| `Approval.ListChangeVoidsApprovalsExactly` | crates/synapse-artifact/src/approval.rs:152-345 | over every run and continuation, after a grant or revocation that changes a project's list no approval issued for it before is ever accepted, if and only if none issued at the epoch ceiling is outstanding; below the ceiling there is none |
| `Approval.ApprovalSurvivesRevocationAtTheCeiling` | crates/synapse-artifact/src/approval.rs:152-193 | a run takes a project to the ceiling and issues an approval there, which is accepted in a continuation after its own actor was removed |
| `ApprovalRuns.AccessIsTheLastWord` | crates/synapse-artifact/src/approval.rs:152-193 | over every run an actor has access if and only if the last grant or revocation of theirs was a grant |
| `ApprovalRuns.RevocationShutsOut` | crates/synapse-artifact/src/approval.rs:176-345 | over every run and continuation, once an actor's access is revoked no approval is issued to them for the project and none of it is accepted in a session of theirs, until they are granted access again |
| `ApprovalRuns.AcceptedAsIssued` | crates/synapse-artifact/src/approval.rs:216-345 | in every run each acceptance goes back to one issue with the same serial, session, project, binding, intent and time limit, to an actor who had access then and has it now |
| `ApprovalRuns.ApprovalStaysExactly` | crates/synapse-artifact/src/approval.rs:255-315 | an approval leaves the registry if and only if it is claimed by an actor with access or found expired by an issue |
| `ApprovalRuns.UndisturbedApprovalIsAccepted` | crates/synapse-artifact/src/approval.rs:216-345 | in every run an actor with access is issued an approval, and claiming it in the same session, for the same decision and in time, is accepted |
| `Reflog.EvidenceIsTrue` | crates/synapse-artifact/src/durable.rs:1267-1338 | over every chained history, whoever wrote it, not-committed and stale are reported exactly when the candidate was never a head, and committed only if the exact move happened |
| `Reflog.ProposalEvidenceIsTrue` | crates/synapse-artifact/src/durable.rs:1227-1265 | the same for a Proposal, whose expected head may be absent |
| `Reflog.ExtendingHistoryIsUnambiguous` | crates/synapse-artifact/src/durable.rs:1267-1338 | if heads only extend their parents the evidence is never ambiguous and tells exactly what happened |
| `Reflog.HeadsNeverRepeat` | crates/synapse-artifact/src/durable.rs:1267-1338 | such a history never visits a head twice |
| `Reflog.LeftBehindForever` | crates/synapse-artifact/src/durable.rs:1293-1299 | once it has left the expected head without the candidate, the candidate can never become a head |
| `Reflog.UntouchedWasNeverHead` | crates/synapse-sqlite/src/lib.rs:634-670 | no touch is counted if and only if the candidate was never a head |
| `Journal.RowsOnlySettle` | crates/synapse-artifact-journal/src/decode.rs:294-311 | every journal operation keeps rows consistent, registered commands unchanged and settled rows settled |
| `Journal.ReviewJournal.TransitionReviewState` | crates/synapse-artifact-journal/src/journal/reviews.rs:139-212 | the general update, with its guards, or no change |
| `Journal.ReviewJournal.RegisterDecisionCommitIntent` | crates/synapse-artifact-journal/src/journal/decision_intents.rs:105-224 | registers once, replays the same command, refuses any other |
| `Journal.ReviewJournal.ReconcileDecisionNotCommitted` | crates/synapse-artifact-journal/src/journal/outcomes.rs:24-75 | only an unknown outcome becomes retryable |
| `Journal.ReviewJournal.CommitDecisionOutcome` | crates/synapse-artifact-journal/src/journal/outcomes.rs:84-188 | commits the registered command once, replays it, refuses any other |
| `Recovery.StepKeeps` | crates/synapse-artifact/src/durable.rs:705-940 | every step of every process, crashes and foreign moves included, keeps the invariant: what each verdict and each settled row says was so at some point of the history; that attempts do settle is `RecoveryCommits` |
| `Recovery.CommittedOnlyIfMoved` | crates/synapse-artifact/src/durable.rs:705-940 | with crashes anywhere and other writers at will, a review is committed only if its exact expected-to-new move is in the history |
| `RecoveryCommits.CheckoutDecides` | crates/synapse-artifact/src/durable.rs:754-795 | in every run, when a process has published, the checkout commits an undecided row with that very command if and only if the head is its candidate; otherwise the row is left alone |
| `RecoveryCommits.UninterruptedAttemptCommits` | crates/synapse-artifact/src/durable.rs:702-795 | from every reachable world whose head is the expected one and whose row is open to the command, an uninterrupted attempt ends committed with its exact move last in the history |
| `RecoveryCommits.FirstAttemptCommits` | crates/synapse-artifact/src/durable.rs:702-795 | so from every chained history whose head is the expected one |
| `RecoveryCommits.UninterruptedReconcileSettles` | crates/synapse-artifact/src/durable.rs:811-938 | from every reachable world with a registered, undecided command and unambiguous evidence, an uninterrupted reconciliation records exactly what happened: committed if the candidate was ever a head, denied if the head has left the expected one, open to retry if an unknown outcome did not happen, otherwise nothing |
| `Recovery.DenialAndRetryWereTrueOnce` | crates/synapse-artifact/src/durable.rs:855-938 | over every run a denied review has a point of its history where the head had left the expected one, and one open to retry a point where the head was the expected one, the candidate never a head before either |
| `Recovery.DeniedNeverCommits` | crates/synapse-artifact/src/durable.rs:904-918 | if the history only extends, a review denied at any point is never committed by any continuation |
| `RecoveryExact.DeniedCandidateMovesExactly` | crates/synapse-artifact/src/durable.rs:705-940 | a denied candidate is a head in some continuation whose foreign moves avoid it if and only if it already was one or some process is marked |
| `RecoveryExact.RetriesTooLateExactly` | crates/synapse-artifact/src/durable.rs:811-875 | a not-committed verdict can leave a review open to retry after its candidate became a head, in a continuation with no other verdict and no foreign move to it, if and only if at the reading the row was open to a new attempt, or its outcome was unknown and some process marked |
| `RecoveryExact.VerdictComesTooLateExactly` | crates/synapse-artifact/src/durable.rs:811-875 | with other verdicts allowed in between that can happen if and only if the review was not settled at the reading |
| `RecoveryExact.FreshAttemptOvertakes` | crates/synapse-artifact/src/durable.rs:702-750 | if the row is open to a new attempt, registering the same command again, marking and swapping by any other process makes the verdict late |
| `RecoveryExact.SecondReconcilerOvertakes` | crates/synapse-artifact/src/durable.rs:855-875 | if the outcome is unknown, any other process can reconcile first and then do so |
| `RecoveryExact.RetryIsAllowedAfterTheMove` | crates/synapse-artifact/src/durable.rs:861-866 | a run without foreign moves that ends open to retry with the candidate as head |
| `RecoveryExact.RetryIsLateWithNobodyMarked` | crates/synapse-artifact/src/durable.rs:811-866 | a run in which another verdict opens the row between its loading and the reading of the evidence, nobody is marked, and the reader's verdict can still come too late |
| `RecoveryExact.ReconciliationSettles` | crates/synapse-artifact/src/durable.rs:855-938 | over an extending history, whatever other processes do between reading the evidence and writing it, a row still in the state it was read in is committed, denied, opened to retry or left exactly as the history said when read |
| `RecoveryExact.DeniedReviewCanStillMoveTheRef` | crates/synapse-artifact/src/durable.rs:904-918 | a run with a foreign writer in which a denied review's candidate becomes the head |
| `Review.StepKeeps` | crates/synapse-artifact/src/workflow.rs:912-1203 | every step keeps each Proposal Ref named after its parent, and decided or on the current head, and each Decision deciding a proposal made on the head before it |
| `Review.AtMostOneOpenProposal` | crates/synapse-artifact/src/workflow.rs:664-1203 | with any number of concurrent preparers and deciders at most one Proposal Ref is open, named by the attempt id of the current Decision head |
| `Review.DecidedProposalHeads` | crates/synapse-artifact/src/workflow.rs:1791-1835 | the walk loop gives what the specification function gives |
| `Review.DecidedWalkIsExact` | crates/synapse-artifact/src/workflow.rs:1791-1835 | on a well-formed history the walk finds exactly the decided proposals, unless the history is over its bound |
| `Review.AvailableMeansNoneOpen` | crates/synapse-artifact/src/workflow.rs:1747-1787 | the availability check passes if and only if the history is within bound and no proposal is open |
| `Review.OpenProposalCanBeDisplaced` | crates/synapse-artifact/src/workflow.rs:912-1253 | a run in which a second preparer replaces an open proposal and is then told of an integrity error |
| `Review.PublicationMeetsOpenProposalExactly` | crates/synapse-artifact/src/workflow.rs:664-696 | in every run a publication that goes through finds its target Ref open if and only if the head sealed at registration is present, and exactly then its publisher is told of an integrity error although the open proposal was replaced |
| `ReviewRuns.NothingIsDecidedTwice` | crates/synapse-artifact/src/workflow.rs:851-893 | in every run each Decision decides a proposal made on the head before it, and no proposal is decided twice |
| `ReviewRuns.DisplacedWasPublishedAfterTheLook` | crates/synapse-artifact/src/workflow.rs:912-1253 | in every run a publication that displaces an open proposal comes from a worker that saw none open, and the displaced Ref was created by another publication after that worker's second look |
| `ReviewRuns.UndisturbedProposalIsAdmitted` | crates/synapse-artifact/src/workflow.rs:912-1253 | from every reachable world with no proposal open and a history within bound, an undisturbed preparer's proposal is admitted under the Ref of the current head |
| `ReviewRuns.UndisturbedDecisionIsMade` | crates/synapse-artifact/src/workflow.rs:753-893 | from every reachable world with a proposal open, an undisturbed decider's Decision becomes the head, and then none is open |
| `Review.PendingArtifactProposal.PrepareDecision` | crates/synapse-artifact/src/workflow.rs:753-846 | an authenticated actor with access spends the approval whatever follows; deciding starts if and only if moreover the proposal is ready, the approval is accepted for this binding and the preparation succeeds; otherwise the proposal is unchanged |
| `Review.PendingArtifactProposal.PublishDecision` | crates/synapse-artifact/src/workflow.rs:851-893 | at most one publication attempt is ever made |
| `Manifest.PathIsItsSegments` | crates/synapse-artifact/src/lib.rs:532-609 | the whole-path check accepts exactly the paths within limits whose every segment passes the reader's segment check |
| `ManifestPaths.SegmentIsPortable` | crates/synapse-artifact/src/lib.rs:578-609 | a segment is valid if and only if it is not empty or a dot name, is in NFC, holds no control, separator, wildcard or direction-changing character, ends in neither dot nor blank, and its part before the first dot is none of the device names in any case |
| `Manifest.AcceptanceIgnoresOrder` | crates/synapse-artifact/src/lib.rs:213-287 | whether a manifest is accepted does not depend on the order of its entries |
| `Manifest.FilesIgnoreOrder` | crates/synapse-artifact/src/lib.rs:213-287 | nor does the accepted map |
| `Manifest.FilesHold` | crates/synapse-artifact/src/lib.rs:213-287 | the accepted map holds exactly the entries, each path with its own bytes |
| `Manifest.AcceptedPathsStayApart` | crates/synapse-artifact/src/lib.rs:250-285 | in an accepted manifest no file stands at, above or below another file's path, even up to case |
| `ManifestBuilder.FromEntries` | crates/synapse-artifact/src/lib.rs:213-287 | the loop accepts exactly the manifests that satisfy the order-free condition, as exactly the map they spell |
| `ManifestBuilder.FitsExactlyWhenApart` | crates/synapse-artifact/src/lib.rs:250-266 | the remembered spellings refuse exactly the paths that collide with one already read |
| `ManifestBuilder.RegisterSpellings` | crates/synapse-artifact/src/lib.rs:250-266 | registers every component unless another spelling is there |
| `ManifestBuilder.HasFilePrefix` | crates/synapse-artifact/src/lib.rs:272-284 | finds a file at a directory of a path if and only if there is one |
| `SiteTree.InsertAdds` | crates/synapse-artifact/src/lib.rs:383-398 | inserting a file adds its directories and its blob and nothing else |
| `SiteTree.BuildRepresents` | crates/synapse-artifact/src/lib.rs:349-366 | the built directory has exactly the proper prefixes of the paths as directories and exactly the files as blobs |
| `SiteTree.StoredIsSite` | crates/synapse-artifact/src/lib.rs:400-417 | storing the built directory stores the manifest's site, Tree by Tree, for every hash whose names carry their kind |
| `SiteTree.ConflictingFileIsLost` | crates/synapse-artifact/src/lib.rs:400-410 | were a name both a file and a directory, storing would drop the file |
| `SiteWriter.MapRegularFiles` | crates/synapse-artifact/src/lib.rs:349-376 | succeeds if and only if no two different objects, stored or of the manifest, share a name; then the result is the manifest's site; no earlier object is ever changed |
| `SiteWriter.ObjectRepository.StoreDirectory` | crates/synapse-artifact/src/lib.rs:400-417 | succeeds if and only if no Tree of the directory has the name of a different Tree; then everything is stored under its own hash; a failure adds only Trees of the directory |
| `SiteWriter.ObjectRepository.PutBlob` | crates/synapse-cas/src/store.rs:897-928 | an object is stored unless its name stands for different content |
| `SiteWriter.ObjectRepository.PutTree` | crates/synapse-cas/src/store.rs:897-928 | the same for Trees |
| `SiteWriter.OneFileFitsAnyNames` | crates/synapse-artifact/src/lib.rs:349-376 | the conditions can be met: even a hash with one name per kind stores a manifest of one file |
| `SiteReader.ReadSite` | crates/synapse-artifact/src/checkout.rs:1070-1185 | on any store success means exactly the files stored under the root, each once; on the site of an acceptable manifest it fails if and only if the manifest has more directories than the Tree node limit or more entries than the Tree edge limit |
| `SiteReader.ReadEntry` | crates/synapse-artifact/src/checkout.rs:1113-1181 | one entry is charged once and refused on the edge limit exactly when it passes it; otherwise checked, then pushed or read, without losing or repeating a path |
| `SiteReader.CheckNames` | crates/synapse-artifact/src/checkout.rs:1094-1110 | a Tree's names pass if and only if all are valid and no two agree up to case |
| `SiteCount.AllSeen` | crates/synapse-artifact/src/checkout.rs:1084-1185 | a finished walk over a manifest's site has seen exactly its directories and read each file once |
| `SiteRoundTrip.ReadManifestIsTheSame` | crates/synapse-artifact/src/checkout.rs:1070-1185 | what is read from a manifest's site is acceptable again and is the same map |
| `SiteRoundTrip.MapThenRead` | crates/synapse-artifact/src/lib.rs:349-376 | mapping, reading and building under the same limits gives the same manifest, unless two objects share a name or the manifest has more directories or entries than the Tree limits, and says which; never a different manifest |
| `DecisionChain.ChainAcceptedExactly` | crates/synapse-artifact/src/checkout.rs:684-814 | the Decision walk accepts a head if and only if a well-formed chain starts there and its work fits the budgets |
| `DecisionChain.ChainIsLinked` | crates/synapse-artifact/src/checkout.rs:684-814 | a chain is well formed if and only if it ends at a bootstrap checkpoint and, object by object, every Decision names the head before it as parent, a proposal on that head whose tree names the proposal's own activity and that head's snapshot as base, and the snapshot its disposition selects |
| `DecisionChain.ChainNeverRepeats` | crates/synapse-artifact/src/checkout.rs:695-700 | a well-formed chain has no repeated head, so the visited check refuses only malformed ones |
| `DecisionChain.BaseAcceptedExactly` | crates/synapse-artifact/src/checkout.rs:895-1028 | the base walk accepts exactly the base paths that fit and end at a good control tree |
| `DecisionChain.ChainGivesBasePath` | crates/synapse-artifact/src/checkout.rs:757-783 | a chain's snapshots form a base path with one step per adopted Decision, from the head's snapshot to the bootstrap's |
| `DecisionChain.BothWalksEndAtTheSameControlTree` | crates/synapse-artifact/src/checkout.rs:683-1028 | if the Decision walk accepts, the base walk never repeats, takes one step per adopted Decision and ends at the bootstrap snapshot and control tree, and accepts exactly when that tree passes and its work fits |
| `DecisionChain.HeadShowsLastAdoptedSite` | crates/synapse-artifact/src/checkout.rs:757-783 | a head's site is that of the last adopted proposal, or the bootstrap's |
| `ChainVerifier.VerifyPriorDecisionChain` | crates/synapse-artifact/src/checkout.rs:684-814 | the loop accepts exactly as the specification function does, with the same chain, and charges exactly seven objects and six references per Decision |
| `ChainVerifier.VerifyBaseAuthority` | crates/synapse-artifact/src/checkout.rs:895-1028 | the loop accepts exactly as the specification function does, with the same path, and charges exactly one object and four references per step besides the control tree |
| `ChainVerifier.VerifyAuthority` | crates/synapse-artifact/src/checkout.rs:657-680 | both walks on one account pass if and only if a well-formed chain starts at the head, its bootstrap's control tree passes, and the work of both, counted from the chain alone, fits the limits |
| `ChainVerifier.AuthorityWork.Node` | crates/synapse-artifact/src/checkout.rs:1037-1044 | one more node, refused past the limit |
| `ChainVerifier.AuthorityWork.Edges` | crates/synapse-artifact/src/checkout.rs:1046-1054 | more edges, refused past the limit |

## Left out

- Invalid UTF-8 input and the byte-order mark's byte form: texts are sequences of Unicode scalars, so parser positions count scalars, and lengths are taken with a UTF-8 length function.
- The library sort used for members is modelled as insertion sort; with distinct keys there is only one sorted order.
- JsonParser.ParseStrict: which of several error codes a refused text gets is given by the grammar function alone.
- SHA-256, random ids, NFC tables and Unicode lower-casing are parameters of the model.
- Mutex poisoning and panics: a panicking callback is an ordinary failure.
- Error messages and, in the artifact reader, manifest builder and chain walks, which of several failing checks is reported first: these refuse without saying why, except that the reader tells its own Tree budget from every other refusal.
- SiteReader.ReadTree: takes a Tree's entries in any order, where the code takes them in byte order; the files read are the same.
- SiteTree.Insert: works on directory values, so it does not capture update of one tree node in place.
- Review.Available: takes the Decision head and the list of Refs at one instant, where the code reads them one after the other.
- Review.Step: starts with the Decision Ref already at its bootstrap; creating it is not a step of the model.
- Recovery.Step: the checks a checkout makes besides the current head, and whether a head descends from the candidate, are inputs of a step.
- ClosureSufficient.RankedClosureIsCompleteWhenSound: assumes that no dependency reference lies on a cycle and that every path without repetition is within the depth limit; whether a mixed cycle is reported depends on where the walk enters it.
- RecoveryCommits.UninterruptedReconcileSettles: takes evidence that is not ambiguous; over a history where heads only extend their parents it never is.
- ReferenceExact.RecordReferenceExactly: takes bodies in which no object repeats a key, as the parser guarantees.
- ReviewRuns.DisplacedWasPublishedAfterTheLook, UndisturbedProposalIsAdmitted: take attempt ids as different for the heads of one history.
- RecoveryExact.ReconciliationSettles: says nothing of a row that another process changed between reading and writing.
- Review.PublicationMeetsOpenProposalExactly: takes attempt ids, which are digests of heads, as different for the heads of one history.
- Review.PendingArtifactProposal.PrepareDecision: makes the two locked sections of a claim one after the other, where other threads may come in between; the preparation after the claim is one input.
- DecisionChain.IsStep: the comparisons of authors, context and activity records are one predicate of the head.
- Fencing.Step: the immutable checks Core makes on a candidate are one boolean input of a publication.
- Record builders, field-by-field JSON checks, SQL decoding and migration, command line, HTTP and report formatting.
- Store-wide integrity checks (fsck) and the listing of record names before a Tombstone scan.
- The proposal side of the journal and the idempotency digests.
