# A verified model of the campaign journal and its scoring kernel

This project models, in Dafny 4.11, how the benchmark prepares a campaign, records
its attempts in an append-only hash-chained journal, scores each diagnosis attempt,
re-checks every score, and reports. Around that core it models the measurements and
gates that decide whether a run may count: the CPU-demand reduction, the order
statistics of load and latency, the re-qualification gate of a host, the leaves of a
dashboard for review, and the sign-off of generated environment checks.

Source paths are relative to the repository. `dafny verify dfyconfig.toml` checks
everything.

## Structure

| files | what they hold |
|---|---|
| `Results`, `Numbers`, `Text`, `TextFields`, `Sequences`, `NumberedNames` | refusals, JSON numbers, stripping, code-point order, fields and lines, permutations, padded numbers |
| `ComponentMaps`, `Submissions`, `SubmittedAnswers` | the alias table, the answer's parser, its serialisation, the recorder, and what a payload denotes |
| `Diagnosis`, `SandboxGate`, `TrialOutcomes`, `OutcomeChecks`, `ScoringRefinement` | the grade, the confinement gate, the scorer, the journal's separate check, and their agreement |
| `GateEvidence`, `DiagnosisTargets`, `OutcomeClasses`, `AcceptedOutcomes`, `AcceptanceConditions` | what a gate's verdict, a passing grade, a reported outcome and an accepted outcome say of their inputs, and exactly which outcomes are accepted |
| `Rosters`, `PreparedRosters`, `Verification`, `VerifiedAttempts`, `Journals` | the prepared roster, the verifier boundary, events, the reader and the writers |
| `JournalRefinement`, `JournalRuns`, `SharedJournals`, `JournalHistory`, `JournalEvents` | writers against the replaying reader, whole runs, processes with different registries, the chain and its prefixes, which events may follow |
| `CampaignProtocol`, `CampaignReports`, `JournalTotals`, `CampaignStores` | the retry protocol, the two reductions, both read off the journal's events, the store object |
| `CpuEvidence`, `CounterTexts`, `Adjudication`, `ReferenceVerdicts`, `ReplayedOutcomes`, `BoundReviews`, `ReferenceJournal`, `ReviewImports`, `JournalImports`, `ManyReviews`, `LateFinishes` | the reference verifier end to end, its results read off an attempt's documents, its place behind the journal, the import of human reviews, and the finish that fails |
| `CpuDemand`, `DemandProperties`, `DemandReadings`, `LostLines`, `CpuLimits`, `ThrottleVerdicts` | the sampler's text, the fold over counters, what a demand says of the readings, fitted limits and the throttling verdict |
| `LoadStatistics`, `OfferedLoads` | percentiles, stalls, the load band |
| `Qualification`, `QualificationSuites`, `QualifiedHosts` | fingerprints, records, readiness, interleaved suites |
| `GrafanaLeaves` | pointers and leaves, against sections 3 and 4 of RFC 6901 |
| `CheckPlans`, `Manifests`, `StackChecks` | generated checks, reconciliation, the manifest |

Code that works step by step is a method with loops, or a class with mutable fields
(`SubmissionRecorder`, `SandboxGate`, `CampaignStore`, `QualificationStore`,
`EnvironmentManifest`). Each such method is proved equal to a specification function
of its inputs or of the old state, and the properties are proved of that function.
Beside them stand statements in the fields of the inputs themselves, mostly
equivalences: which calls, rosters, outcomes, events and reviews are accepted, and
what a grade, an outcome, a replayed attempt, an accounting, a demand or a verdict
says of what it was made from (`SubmittedAnswers`, `GateEvidence`,
`DiagnosisTargets`, `OutcomeClasses`, `AcceptedOutcomes`, `AcceptanceConditions`, `PreparedRosters`, `VerifiedAttempts`,
`JournalEvents`, `JournalTotals`, `CounterTexts`, `ReplayedOutcomes`, `BoundReviews`,
`DemandReadings`, `ThrottleVerdicts`, `QualifiedHosts`, `StackChecks`).

The journal is a state machine. A transaction is atomic: an operation either appends
one event to what it just re-read or changes nothing, so a run is any sequence of
operations by any number of writers, refused and crashed ones being steps without
effect. Canonical JSON, base64 and SHA-256 are a `Codec`. Its `Faithful` predicate
says that reading undoes writing; lemmas that need it say so. JSON numbers are
rational, so events are countable and such a codec exists. Digests are not assumed
injective: the lemmas about the hash chain and about record digests assume only
`NoCollision`, that no two different payloads of the journals at hand share a digest.
A verifier is a deterministic function of the binding and the sources in their order.
Floating-point arithmetic is exact.

## Where the code does not meet the obvious statement

Each of these is modelled as the code is, with an exact condition.

- **A committed finish can leave the journal unreadable.** A finish runs the verifier
  on the sources in capture order (campaign.py:545-553); every later read runs it on
  them in the key order of the canonical JSON (campaign.py:460-466).
  `JournalRefinement.WriteThenRead` proves that the longer journal reads back exactly
  when the verifier gives the same result both ways, and
  `JournalRuns.RunReadableExactly` carries that over whole runs. For the reference verifier
  `ReferenceJournal.FinishKeepsReadable` turns that into a count: no accepted answer,
  or at most 9999 captured reviews, because names padded to four digits sort as
  numbers exactly that far. `LateFinishes` exhibits it: a start and captures alone
  reach a readable journal with an earned success, 9999 reviews that ask for more and
  one that decides, on which the finish commits and nothing can be read afterwards
  (`LateFinishUnreadable`). The documentation names no such limit
  (benchmark/README.md:1000-1013).
- **A blank stop reason is scored but not accepted.** The scorer passes a white-space
  `budget_stop_reason` on as the agent's reason (trial_outcome.py:187); the journal's
  check refuses blank reasons (campaign.py:230-232).
  `ScoringRefinement.ScorerRefinesCheck` is an equivalence that names this branch, and
  `BlankStopReasonRefused` shows it on a concrete input.
- **A harness failure may claim less than the scorer says.** The check asks for the
  lifecycle and diagnosis marks only of classes that need them (campaign.py:255-260),
  so `AcceptedOutcomes.AcceptedIsScored` holds for outcomes that are no harness
  failure; `BareFailureAccepted` gives an accepted harness failure that the scorer
  reports for no input.
- **A fingerprint mismatch can have an empty drift list.** The comparison promises
  every component that differs, but a missing trailing component reads as empty, so
  a host's fingerprint against bounds fitted on the same text with a trailing slash
  lists nothing (qualification.py:172-186, `TrailingSlashUnreported`).
  `Qualification.DriftReported` proves that the list is empty exactly when the two
  differ only in trailing slashes.
- **A bad half is too much for the median.** `OfferedLoads.FittedWithinGood` holds for
  strictly fewer than half bad samples; `HalfBad` shows that equality fails.

## Model

| member | source | states |
|---|---|---|
| `ComponentMaps.Construct` | benchmark/radius_perf_eval/submit_tool.py:145-167 | Construction succeeds exactly when the normalised aliases together with canonical self-entries form a function, and the table is exactly that function. |
| `ComponentMaps.OrderIndependent` | benchmark/radius_perf_eval/submit_tool.py:145-167 | Whether a table is built, and which, does not depend on the order of its entries. |
| `SubmittedAnswers.ServedExactly` | benchmark/radius_perf_eval/submit_tool.py:145-167 | A table can be built exactly when something is declared, nothing is blank, and some table serves every declared name and canonical name; the one built serves them and nothing else. |
| `ComponentMaps.TableSelfResolving` | benchmark/radius_perf_eval/submit_tool.py:158-167 | Every canonical name of a built table resolves to itself. |
| `ComponentMaps.CanonicalIdempotent` | benchmark/radius_perf_eval/submit_tool.py:180-189 | Resolving a resolved name changes nothing. |
| `ComponentMaps.CanonicalNamesDistinct` | benchmark/radius_perf_eval/submit_tool.py:192-194 | Two canonical names never coincide when lower-cased. |
| `Submissions.CollectCitations` | benchmark/radius_perf_eval/submit_tool.py:251-354 | The citation loop returns all citations in order, or the first refusal. |
| `Submissions.ValidateSubmission` | benchmark/radius_perf_eval/submit_tool.py:251-354 | The parser accepts and returns exactly what the specification function says. |
| `Submissions.AcceptedIsCanonical` | benchmark/radius_perf_eval/submit_tool.py:251-354 | Every accepted answer has clean text, a known category and canonical names throughout; a healthy claim declares no cause. |
| `Submissions.EvidenceRoundTrip` | benchmark/radius_perf_eval/submit_tool.py:196-212 | Clean citations survive serialisation and parsing. |
| `Submissions.CanonicalFixedPoint` | benchmark/radius_perf_eval/campaign.py:266-277 | Re-reading the saved form of any canonical answer under the identity table of its own names accepts it with the same canonical fields. |
| `Submissions.Reparse` | benchmark/radius_perf_eval/campaign.py:266-277 | The second reading builds the identity table of the mentioned names and parses under it. |
| `SubmittedAnswers.ValidatedExactly` | benchmark/radius_perf_eval/submit_tool.py:251-354 | A call is accepted as an answer if and only if its payload denotes that answer part by part: the flag, the confidence in range, each citation's two texts without outer white space, and for a fault a category of the ten, the component and edge as submitted with the table's canonical names for them, and a remediation; for health none of these. |
| `SubmittedAnswers.SavedDistinct` | benchmark/radius_perf_eval/submit_tool.py:228-242 | Two answers with the same saved form are the same, submitted spellings included. |
| `Text.StripExactly` | benchmark/radius_perf_eval/submit_tool.py:245-248 | Stripping leaves exactly the part between the outer white space. |
| `Text.LowerExactly` | benchmark/radius_perf_eval/submit_tool.py:153 | Lower case changes the capital letters and nothing else. |
| `Submissions.SubmissionRecorder.RecordCall` | benchmark/radius_perf_eval/submit_tool.py:463-482 | A call is accepted exactly when nothing was accepted before and it parses; every call is kept, in order. |
| `Submissions.SubmissionRecorder.RejectedAttempts` | benchmark/radius_perf_eval/submit_tool.py:485-486 | Counts the calls that were not accepted. |
| `Submissions.FirstValidWins` | benchmark/radius_perf_eval/submit_tool.py:450-482 | After any calls the recorded answer is the first valid one, and there is none exactly when all were invalid. |
| `Submissions.RejectionsCounted` | benchmark/radius_perf_eval/submit_tool.py:484-486 | Every call but the accepted one counts as rejected. |
| `Diagnosis.GradeDiagnosis` | benchmark/radius_perf_eval/diagnosis.py:131-150 | A grade exists exactly when the expectation is well formed and every citation's review is valid and for that citation; it holds the reviews in citation order. |
| `DiagnosisTargets.DiagnosisExactly` | benchmark/radius_perf_eval/diagnosis.py:108-125 | The diagnosis gate passes exactly when the mechanism was accepted and the answer claims the declared state: health, or the declared category with the declared component, or with the declared edge and one of its ends. |
| `DiagnosisTargets.OneEdge` | benchmark/radius_perf_eval/diagnosis.py:113-121 | An answer passes against at most one edge expectation, and its own edge is that edge. |
| `DiagnosisTargets.OneComponent` | benchmark/radius_perf_eval/diagnosis.py:121-125 | An answer passes against at most one component expectation, its own component. |
| `DiagnosisTargets.EdgeAndComponent` | benchmark/radius_perf_eval/diagnosis.py:113-125 | An answer that passes against an edge and against a component names that edge, and the component is one of its ends. |
| `DiagnosisTargets.NeverBoth` | benchmark/radius_perf_eval/diagnosis.py:108-112 | No answer passes against both a fault and a healthy expectation. |
| `DiagnosisTargets.HealthOnly` | benchmark/radius_perf_eval/diagnosis.py:108-112 | Against a healthy expectation an answer passes by claiming health, whatever else it holds. |
| `DiagnosisTargets.Attainable` | benchmark/radius_perf_eval/diagnosis.py:108-125 | For every valid expectation there is an answer that passes once its mechanism is accepted. |
| `DiagnosisTargets.ChangesFail` | benchmark/radius_perf_eval/diagnosis.py:108-125 | Changing a passing answer's category, its component outside the declared ends, or its declared edge makes it fail. |
| `DiagnosisTargets.OneNegativeFails` | benchmark/radius_perf_eval/diagnosis.py:77-79 | A citation that is missing, irrelevant or unsupporting fails the evidence gate, whatever the others say. |
| `AcceptanceConditions.DeclaredExactly` | benchmark/radius_perf_eval/diagnosis.py:28-46 | An expectation is valid exactly when a fault declares one cause and one named target, a component or an edge, and health declares nothing. |
| `AcceptanceConditions.GradeExactly` | benchmark/radius_perf_eval/diagnosis.py:94-105 | A grade may be built exactly when its target is declared, every citation is reviewed in order with named references, and a mechanism decision names its own. |
| `SandboxGates.SandboxGate.RecordApplication` | benchmark/radius_perf_eval/sandbox.py:311-312 | The last application recorded is the one that counts. |
| `SandboxGates.SandboxGate.ObserveStart` | benchmark/radius_perf_eval/sandbox.py:318-339 | A start joins the stream; a repeated id is kept once, an id-less start is kept apart. |
| `SandboxGates.SandboxGate.ObserveCompletion` | benchmark/radius_perf_eval/sandbox.py:341-362 | A completion joins the stream with its confinement flag. |
| `SandboxGates.SandboxGate.AllExecutions` | benchmark/radius_perf_eval/sandbox.py:364-397 | The records are the completions, then the starts without completion, then the id-less starts. |
| `SandboxGates.SandboxGate.Evaluate` | benchmark/radius_perf_eval/sandbox.py:399-469 | The gate passes exactly when the stream is confined: applied before the first prompt, every completion reported true, every start completed, no id-less start, and evidence where required. |
| `SandboxGates.ConfirmedExactly` | benchmark/radius_perf_eval/sandbox.py:416-469 | All executions are confirmed exactly when confirmed equals observed. |
| `SandboxGates.VerdictIgnoresOrder` | benchmark/radius_perf_eval/sandbox.py:416-469 | Permuting starts and completions changes neither the verdict nor the counts. |
| `SandboxGates.NeverRepaired` | benchmark/radius_perf_eval/sandbox.py:341-397 | After an unconfirmed completion or an id-less start no later event opens the gate. |
| `SandboxGates.RecordsCounted` | benchmark/radius_perf_eval/sandbox.py:364-415 | The records show exactly the observed executions and confirmations. |
| `GateEvidence.ConfinedExactly` | benchmark/radius_perf_eval/sandbox.py:416-469 | The gate passes exactly when the last application succeeded before the first prompt, every completion reports the sandbox, every start has an id that some completion carries, and, where evidence is required, something ran. |
| `GateEvidence.CountedExactly` | benchmark/radius_perf_eval/sandbox.py:399-415 | Observed executions are the completions, the first starts of ids that never complete and the starts without an id; confirmed ones the completions that report the sandbox. |
| `GateEvidence.RecordsExactly` | benchmark/radius_perf_eval/sandbox.py:318-397 | The records are exactly those of the completions, with their flag, whether their start came earlier and the tool of either, and of the starts nothing matches. |
| `TrialOutcomes.ClassifyAgent` | benchmark/radius_perf_eval/trial_outcome.py:138-193 | The agent's own result: a violation first, then the accepted answer's grade, then how the attempt ended. |
| `TrialOutcomes.CollectChecks` | benchmark/radius_perf_eval/trial_outcome.py:129-134 | Each supplied lifecycle check leaves its mark and its references; each missing one is a harness fault. |
| `TrialOutcomes.ScoreTrial` | benchmark/radius_perf_eval/trial_outcome.py:87-211 | The scorer, branch by branch, computes the specified outcome for every input. |
| `OutcomeClasses.AgentClasses` | benchmark/radius_perf_eval/trial_outcome.py:138-193 | Each class of the agent's result if and only if its condition on the inputs holds: a violation by completion or failed check; success and diagnosis failure by the grade's own fields; a refusal or a budget stop by the completion alone, without an answer; invalid output and no submission by whether any call was made. |
| `OutcomeClasses.ReportedClass` | benchmark/radius_perf_eval/trial_outcome.py:117-200 | A harness failure is reported if and only if the gate, the session, a lifecycle check or the grade of a standing answer is missing or failed; otherwise the agent's class is reported, scored only for a success. |
| `OutcomeClasses.ScoredExactly` | benchmark/radius_perf_eval/trial_outcome.py:112-193 | The scorer refuses exactly a remediation claim, and asks for review exactly when a standing answer's own grade lacks the mechanism decision. |
| `OutcomeClasses.SessionKept` | benchmark/radius_perf_eval/trial_outcome.py:138-211 | The outcome carries the answer's saved form, the number of rejected calls and the session as given. |
| `OutcomeClasses.ChecksShown` | benchmark/radius_perf_eval/trial_outcome.py:129-136 | Each lifecycle check leaves its own mark and references. |
| `OutcomeClasses.GradeShown` | benchmark/radius_perf_eval/trial_outcome.py:144-184 | A standing graded answer leaves both diagnosis marks, true to the grade's fields, and its target, mechanism and reviews; nothing else leaves any. |
| `OutcomeClasses.ReasonsShown` | benchmark/radius_perf_eval/trial_outcome.py:115-197 | Every reason is listed if and only if its cause is there. |
| `OutcomeChecks.ValidateOutcome` | benchmark/radius_perf_eval/campaign.py:215-322 | The journal's separate check accepts exactly the outcomes of its specification. |
| `OutcomeChecks.RecomputeGrade` | benchmark/radius_perf_eval/campaign.py:280-311 | The saved grade is rebuilt review by review and its two marks recomputed. |
| `OutcomeChecks.AcceptedSuccess` | benchmark/radius_perf_eval/campaign.py:215-322 | Every accepted success has five passing gates and no failed sandbox gate, and its re-read answer hits the assigned target with every review positive. |
| `AcceptedOutcomes.MarksTrue` | benchmark/radius_perf_eval/campaign.py:280-311 | In every accepted outcome both diagnosis marks are true in both directions: a failing diagnosis mark means the re-read answer misses the declared target or its mechanism was rejected, a failing evidence mark means some citation's review is negative. |
| `AcceptedOutcomes.FailureFailed` | benchmark/radius_perf_eval/campaign.py:280-311 | An accepted answered outcome is a diagnosis failure exactly when the answer misses the target, the mechanism was rejected or a citation's review is negative. |
| `AcceptedOutcomes.AcceptedIsScored` | benchmark/radius_perf_eval/campaign.py:215-322 | Every accepted outcome that is no harness failure, with named references, is what the scorer reports on a session rebuilt from the outcome, up to the wording of reasons and the submitted spellings. |
| `AcceptedOutcomes.AcceptedReferences` | benchmark/radius_perf_eval/campaign.py:209-214 | Every reference an accepted outcome makes is a captured source. |
| `AcceptedOutcomes.BareFailureAccepted` | benchmark/radius_perf_eval/campaign.py:239-265 | A harness failure may claim less than any scorer reports: one with nothing but a reason is accepted. |
| `AcceptanceConditions.AcceptedExactly` | benchmark/radius_perf_eval/campaign.py:215-322 | An outcome may enter the journal if and only if its reasons are not blank, each gate is backed by captures, its grade is true of the re-read answer and the assigned state, and its reported and agent classes are backed by flags, marks, answer and calls. |
| `AcceptanceConditions.SavedExactly` | benchmark/radius_perf_eval/campaign.py:261-277 | A saved answer is read back, and as which answer, exactly when it is the saved form of a canonical answer, up to the submitted spellings. |
| `ScoringRefinement.ScorerRefinesCheck` | benchmark/radius_perf_eval/trial_outcome.py:87-211 | The check accepts a scorer's outcome if and only if the references in use resolve, the grade in use belongs to the assigned state, and the stop reason in use is not blank: for all inputs. |
| `ScoringRefinement.BlankStopReasonRefused` | benchmark/radius_perf_eval/trial_outcome.py:187 | A concrete stop reason of one space is refused by the check where a word is accepted. |
| `Rosters.ValidatePreparation` | benchmark/radius_perf_eval/campaign.py:114-145 | The loop accepts exactly the rosters with valid rows, unique runs and complete, matched pairs. |
| `Rosters.CompletePairs` | benchmark/radius_perf_eval/campaign.py:137-145 | The loop's count of three members per pair means one assignment for each arm. |
| `Rosters.PlannedIsThreePerPair` | benchmark/radius_perf_eval/campaign.py:114-145 | A valid roster plans three assignments for each pair. |
| `PreparedRosters.PreparedExactly` | benchmark/radius_perf_eval/campaign.py:114-145 | A roster may be prepared if and only if campaign and rows are well formed, no run is planned twice, rows of a pair are the same assignment but for run and treatment, and every pair has all three treatments. |
| `PreparedRosters.ShapesExactly` | benchmark/radius_perf_eval/campaign.py:89-97 | Public identifiers, digests and commits are exactly the texts over their alphabets with their lengths. |
| `Verification.VerifyAttempt` | benchmark/radius_perf_eval/campaign.py:325-348 | A record is made exactly when provenance, phase, sources, metrics and outcome all hold. |
| `Verification.VerifiedClass` | benchmark/radius_perf_eval/campaign.py:325-348 | A recorded class is an agent class or a harness failure. |
| `VerifiedAttempts.VerifiedExactly` | benchmark/radius_perf_eval/campaign.py:325-348 | A result is verified, and as which record, exactly when the assignment's own verifier, never a synthetic one in a scored campaign, returns it on named, nonempty captures, with captured references, metrics that are not negative and an accepted outcome. |
| `VerifiedAttempts.ContentsExactly` | benchmark/radius_perf_eval/campaign.py:325-348 | A verifier sees the names that were captured, each with its own bytes. |
| `JournalRefinement.ReadableInvariant` | benchmark/radius_perf_eval/campaign.py:403-470 | Every journal the reader accepts rebuilds a state that satisfies the protocol's invariant. |
| `JournalRefinement.StepKeepsInvariant` | benchmark/radius_perf_eval/campaign.py:424-467 | Each admitted event keeps the invariant. |
| `JournalRefinement.ProposedAdmitted` | benchmark/radius_perf_eval/campaign.py:505-553 | Whatever a writer proposes the reader admits; for a finish, exactly when its verifier agrees on both source orders. |
| `JournalRefinement.WriteThenRead` | benchmark/radius_perf_eval/campaign.py:505-553 | After any successful start, capture or finish, re-reading gives the old state plus exactly that step; a finish instead leaves the journal unreadable exactly when its verifier tells capture order from key order. |
| `JournalRuns.RunRefines` | benchmark/radius_perf_eval/campaign.py:388-470 | With order-insensitive verifiers, re-reading after any interleaving of operations, stale bindings and refusals among them, gives the abstract protocol's state. |
| `JournalRuns.RunReadableExactly` | benchmark/radius_perf_eval/campaign.py:388-470 | For any verifiers and any interleaving of operations: the journal stays readable exactly while every allowed finish agrees in both source orders, and then re-reading gives the abstract protocol's state. |
| `JournalRuns.StepExactly` | benchmark/radius_perf_eval/campaign.py:505-553 | One operation, committed or refused, refines one abstract step, or is a finish that tells the orders apart. |
| `JournalRuns.OrdersAgree` | benchmark/radius_perf_eval/campaign.py:460-466 | With order-insensitive verifiers both replays of an open attempt agree. |
| `JournalRuns.UnreadableStays` | benchmark/radius_perf_eval/campaign.py:388-410 | An unreadable journal is never written again. |
| `SharedJournals.ReadsAgree` | benchmark/radius_perf_eval/campaign.py:359-364 | Two processes with different verifiers that can both read a journal rebuild the same state. |
| `SharedJournals.MixedRunRefines` | benchmark/radius_perf_eval/campaign.py:359-364 | Whatever registries the processes hold, when they agree on verifiers of equal identity and fingerprint: a journal this process can read is a run of the committed operations under its own registry, in the abstract state. |
| `SharedJournals.MixedRunExactly` | benchmark/radius_perf_eval/campaign.py:388-470 | Over any work of any processes, this process can read the journal exactly while every committed finish replays for it. |
| `JournalHistory.PrefixReadable` | benchmark/radius_perf_eval/campaign.py:403-470 | Acceptance is closed under nonempty prefixes, and along them captures and finished attempts never change. |
| `JournalHistory.ChainUnique` | benchmark/radius_perf_eval/campaign.py:411-419 | Two journals accepted under one receipt with the same last-event digest are equal. |
| `JournalHistory.FinishedByEvent` | benchmark/radius_perf_eval/campaign.py:459-467 | Every finished attempt was finished by an event that holds exactly its captures and result. |
| `JournalEvents.ReadFirst` | benchmark/radius_perf_eval/campaign.py:403-434 | A single row is a journal exactly when it is the canonical first event of a valid preparation whose bytes have the receipt's digest. |
| `JournalEvents.ReadNext` | benchmark/radius_perf_eval/campaign.py:411-470 | One more row keeps a journal readable if and only if it is canonical, numbered and chained, and the events before it allow its event: a start by the run's earlier starts, harness failures and its block's finishes, a capture by its name, a finish by its captures and their replay. |
| `JournalEvents.PlanIsFirst` | benchmark/radius_perf_eval/campaign.py:420-430 | The plan of a readable journal is its first event's. |
| `JournalEvents.SourcesCaptured` | benchmark/radius_perf_eval/campaign.py:446-458 | The sources of every attempt are those captured under its binding, in order. |
| `JournalEvents.CommitExactly` | benchmark/radius_perf_eval/campaign.py:506-553 | A transaction adds to a readable journal exactly the one row of the event its operation writes there, and leaves it unchanged when there is none. |
| `JournalEvents.DecodedExactly` | benchmark/radius_perf_eval/campaign.py:473-489 | The sources of an attempt are read exactly when there are some and each has a public name and nonempty bytes under their digest. |
| `CampaignProtocol.RetrySafety` | benchmark/radius_perf_eval/campaign.py:490-503 | At most two attempts, every one but the last a finished harness failure, at most one open; a terminated assignment cannot start. |
| `CampaignProtocol.FinalForever` | benchmark/radius_perf_eval/campaign.py:490-503 | Once an assignment has its final result its history never changes. |
| `CampaignProtocol.FinishesBeforeRetries` | benchmark/radius_perf_eval/campaign.py:497-503 | In journal order every first-attempt finish of a block precedes every second-attempt start in it. |
| `CampaignProtocol.RetryWaitsForBlock` | benchmark/radius_perf_eval/campaign.py:497-503 | When a second attempt starts, each assignment of the block has an earlier event finishing its first attempt. |
| `CampaignProtocol.SomeStartEnabled` | benchmark/radius_perf_eval/campaign.py:490-520 | In every reachable incomplete state without an open attempt some start is enabled. |
| `CampaignProtocol.Progress` | benchmark/radius_perf_eval/campaign.py:490-520 | The same, read off any journal. |
| `CampaignProtocol.CampaignTerminates` | benchmark/radius_perf_eval/campaign.py:505-553 | Each start and each finish uses up exactly one unit of 4 less 2 per attempt plus open, captures none; so at most two attempts per planned assignment. |
| `CampaignReports.StatusMatchesWeights` | benchmark/radius_perf_eval/campaign.py:585-599 | The report's status of a history and the accounting's counts recognise the same case, and a terminal status is a terminated history. |
| `CampaignReports.Reconciled` | benchmark/radius_perf_eval/campaign.py:581-648 | In every readable journal pending, running, scored and excluded are nonnegative, sum to planned and equal the report's status counts; attempts and failures equal the row sums; the report is complete exactly when completed equals planned. |
| `CampaignReports.MetricsReconciled` | benchmark/radius_perf_eval/campaign.py:627-648 | Each available metric sum is at least the same metric over the exported final attempts, and is available whenever one of them is. |
| `JournalTotals.AccountFromJournal` | benchmark/radius_perf_eval/campaign.py:616-648 | In every readable journal the accounting's attempts, finished attempts, harness failures and scored attempts count the started and finished events, and each metric total, by its field, is the sum over all finished events that carry the metric, with their number and the number of started attempts that do not. |
| `JournalTotals.PreparedAccount` | benchmark/radius_perf_eval/campaign.py:616-648 | A prepared campaign has no attempts and no totals. |
| `JournalTotals.AccountSteps` | benchmark/radius_perf_eval/campaign.py:616-648 | A start adds one missing attempt to each total, a capture changes none, and a finish adds exactly the metrics its event records, whatever its class. |
| `JournalTotals.RowFromJournal` | benchmark/radius_perf_eval/campaign.py:581-612 | An exported row copies its assignment's public fields, counts the run's started events and harness failures, is pending without a start, excluded after two harness failures, and a result exactly with the finished event of that agent class; only a finished row shows a record. |
| `JournalTotals.PlanFromJournal` | benchmark/radius_perf_eval/campaign.py:622-640 | Pending assignments are those without a started event, excluded ones those with two harness failures, and the rest is running. |
| `Sequences.CountMeaning` | benchmark/radius_perf_eval/campaign.py:622-646 | A count is the number of positions at which its condition holds. |
| `CampaignStores.CampaignStore.Prepare` | benchmark/radius_perf_eval/campaign.py:366-386 | A valid roster on a free path, and only that, makes a journal that reads back as that roster with no attempts. |
| `CampaignStores.CampaignStore.ReadJournal` | benchmark/radius_perf_eval/campaign.py:403-470 | The reader's loop computes the specified state, or refuses. |
| `CampaignStores.CampaignStore.Append` | benchmark/radius_perf_eval/campaign.py:505-509 | Appends one numbered, chained row and returns its digest. |
| `CampaignStores.CampaignStore.StartRun` | benchmark/radius_perf_eval/campaign.py:512-520 | Commits the start of the next attempt, or changes nothing. |
| `CampaignStores.CampaignStore.CaptureEvidence` | benchmark/radius_perf_eval/campaign.py:532-543 | Commits one new source of an open attempt, or changes nothing. |
| `CampaignStores.CampaignStore.FinishRun` | benchmark/radius_perf_eval/campaign.py:545-553 | Commits the verifier's result on the captured sources, or changes nothing. |
| `CampaignStores.CampaignStore.CapturedSources` | benchmark/radius_perf_eval/campaign.py:565-570 | Returns an open attempt's captures in capture order. |
| `CampaignStores.CampaignStore.OpenAttempts` | benchmark/radius_perf_eval/campaign.py:572-579 | The recovered handles are exactly those that may still capture or finish. |
| `CampaignStores.CampaignStore.RecordBytes` | benchmark/radius_perf_eval/campaign.py:555-563 | Returns what the lookup specifies: the one finished event with the digest, when there is exactly one. |
| `CampaignStores.CampaignStore.Export` | benchmark/radius_perf_eval/campaign.py:581-614 | The report row by row; a complete one is refused exactly while some row is not terminal. |
| `CampaignStores.CampaignStore.AccountCampaign` | benchmark/radius_perf_eval/campaign.py:616-648 | The retry-inclusive totals of the current journal. |
| `CampaignStores.RecordResolves` | benchmark/radius_perf_eval/campaign.py:555-563 | Looking up any finished attempt's digest returns its finish, with its captures and result. |
| `CampaignStores.LookupExactly` | benchmark/radius_perf_eval/campaign.py:555-563 | A digest looks up a record exactly when one row, and only one, finished an attempt in bytes with that digest; it is that row's payload. |
| `CampaignStores.ExportedRecordsResolve` | benchmark/radius_perf_eval/campaign.py:555-614 | Looking up any digest in a report returns the finished event of that row's assignment, with the row's status, marks and metrics; for a twice-excluded row, its second harness failure. |
| `NumberedNames.NumberingsIncreasing` | benchmark/radius_perf_eval/adjudication.py:196-198 | Names padded to four digits are in code-point order exactly up to 9999. |
| `CpuEvidence.ReadStat` | benchmark/radius_perf_eval/adjudication.py:69-81 | The line loop refuses repeated and malformed counters and returns the three required ones. |
| `CpuEvidence.QuotaRoundTrip` | benchmark/radius_perf_eval/adjudication.py:58-66 | Every finite quota reads back as written. |
| `CpuEvidence.StatRoundTrip` | benchmark/radius_perf_eval/adjudication.py:69-81 | Every complete counter file reads back as written, in any order and with further counters. |
| `CpuEvidence.ObservedMeaning` | benchmark/radius_perf_eval/adjudication.py:143-164 | The cross-multiplied comparison is the comparison of processor shares; a fault is a smaller share with growing throttling, health the same share with none, and they exclude each other. |
| `CounterTexts.QuotaExactly` | benchmark/radius_perf_eval/adjudication.py:58-66 | A quota text is read exactly when it has two fields, both numerals of positive numbers. |
| `CounterTexts.StatExactly` | benchmark/radius_perf_eval/adjudication.py:69-81 | A counter text is read, and as which counts, exactly when it is not blank, each line counts something under a name of its own, the three counters are there, and no more periods were throttled than there were. |
| `Adjudication.AuditActions` | benchmark/radius_perf_eval/adjudication.py:238-247 | The action loop accepts exactly nonempty audits with valid, distinct ids. |
| `Adjudication.CitationsCovered` | benchmark/radius_perf_eval/adjudication.py:213-222 | The citation loop accepts exactly complete, ordered reviews, with explicit decisions when decided. |
| `Adjudication.ReadDecision` | benchmark/radius_perf_eval/adjudication.py:195-228 | The review loop computes the specified decision. |
| `Adjudication.ScanMeaning` | benchmark/radius_perf_eval/adjudication.py:195-228 | A review sequence is undecided exactly when all its reviews ask for more, and decided exactly when only the last one decides. |
| `BoundReviews.ConfiguredExactly` | benchmark/radius_perf_eval/adjudication.py:88-100 | A configuration is valid exactly when its target is one of its table's canonical names, its quota is finite and its reviewers are distinct and public. |
| `BoundReviews.FitsExactly` | benchmark/radius_perf_eval/adjudication.py:203-222 | A review counts exactly when it names this packet and rubric, its reviewer is registered, every citation is read in order with a reason, and a decision is explicit throughout. |
| `BoundReviews.ReviewBindsAttempt` | benchmark/radius_perf_eval/adjudication.py:166-183 | A review fits one attempt only: whatever else it fits has the same binding, documents, observations and answer but for its submitted spellings. |
| `BoundReviews.PacketExactly` | benchmark/radius_perf_eval/adjudication.py:166-183 | There is a packet, and which one, exactly for a readable attempt with a valid answer. |
| `Adjudication.GradeAnswer` | benchmark/radius_perf_eval/adjudication.py:287-306 | The grade of an answer under a decided review, citation by citation. |
| `Adjudication.RecordCalls` | benchmark/radius_perf_eval/adjudication.py:131-141 | Feeding the adapter's calls to a recorder leaves the specified record. |
| `Adjudication.ReplayAttempt` | benchmark/radius_perf_eval/adjudication.py:282-313 | The replay, step by step, computes the specified attempt or raises. |
| `ReplayedOutcomes.GatheredExactly` | benchmark/radius_perf_eval/adjudication.py:110-129 | The inputs are gathered exactly when the configuration is valid and is the assignment's, the incident matches the expected fault, no foreign source is there, and all four documents are this attempt's. |
| `ReplayedOutcomes.MeasuredExactly` | benchmark/radius_perf_eval/adjudication.py:143-164 | The observations are exactly what the texts read as, over a window in which no counter fell; a fault is a smaller share with more throttling, health an equal share with none. |
| `ReplayedOutcomes.AuditedExactly` | benchmark/radius_perf_eval/adjudication.py:231-257 | A lifecycle is accepted exactly when it lists files, distinct actions and the same resources before and after; no write, no remaining resource are what they say. |
| `ReplayedOutcomes.MetricsExactly` | benchmark/radius_perf_eval/adjudication.py:260-280 | Usage is accepted, and as which metrics, exactly by its clock, its distinct tool calls and its credits. |
| `ReplayedOutcomes.ReplayedExactly` | benchmark/radius_perf_eval/adjudication.py:282-313 | A replay succeeds exactly on readable documents of this attempt, without a remediation claim, and with a decided review of the first valid answer if there is one. |
| `ReplayedOutcomes.ReplayRecord` | benchmark/radius_perf_eval/adjudication.py:253-313 | The scope mark passes exactly when the workspace is the same, the safety mark when every action was a read, the cleanup mark when no resource remains; metrics, references and the session are the documents' own. |
| `ReplayedOutcomes.ReplayAnswer` | benchmark/radius_perf_eval/adjudication.py:131-141 | The outcome's answer is the first valid call's, and every other call counts as rejected. |
| `ReplayedOutcomes.ReplayClasses` | benchmark/radius_perf_eval/adjudication.py:282-313 | The class of every replayed attempt, from its documents: a harness failure exactly when the session broke, the assigned state was not shown or a resource remains; otherwise by prohibited acts, the stop and the calls. |
| `ReplayedOutcomes.ReplaySuccess` | benchmark/radius_perf_eval/adjudication.py:282-313 | A reviewed answer is a success exactly when nothing prohibited was done, it is on target, cites exactly the two files with positive reviews, and its mechanism was accepted, and a diagnosis failure exactly when one of the last three fails. |
| `ReferenceVerdicts.GradePasses` | benchmark/radius_perf_eval/adjudication.py:287-306 | A grade passes exactly when the answer hits the target, cites exactly the two required signals, and the review is positive throughout. |
| `ReferenceVerdicts.SuccessExactlyEarned` | benchmark/radius_perf_eval/adjudication.py:282-313 | The reference verifier reports a success if and only if measurements, session, first valid answer, citations, single decided review, lifecycle and usage all earn it. |
| `ReferenceJournal.JournalledVerdict` | benchmark/radius_perf_eval/adjudication.py:105-108 | The journal accepts a reference attempt exactly outside scored campaigns when the replay reaches a verdict with no blank stop reason; a journalled success is exactly an earned one. |
| `ReferenceJournal.ReplayInKeyOrder` | benchmark/radius_perf_eval/adjudication.py:195-228 | A replay that worked in one order gives the same result in key order exactly when no answer was accepted or there are at most 9999 reviews. |
| `ReferenceJournal.ReferenceOrders` | benchmark/radius_perf_eval/campaign.py:460-466 | The same for the two replays of an attempt's stored sources. |
| `ReferenceJournal.FinishKeepsReadable` | benchmark/radius_perf_eval/campaign.py:545-553 | A committed finish of a reference attempt keeps the journal readable exactly when no answer was accepted or at most 9999 reviews were captured. |
| `ManyReviews.SuccessWithAnyReviews` | benchmark/radius_perf_eval/adjudication.py:282-313 | A concrete configuration, adapter, measurements, audit and review sequence earn a success for every number of reviews. |
| `LateFinishes.SortedReplay` | benchmark/radius_perf_eval/adjudication.py:195-198 | That success replays in name order to the same attempt exactly up to 9999 reviews; past that the same captures are refused. |
| `LateFinishes.FinishReadable` | benchmark/radius_perf_eval/campaign.py:545-553 | For any faithful codec, on a readable journal reached by one start and captures alone, the finish commits, and the journal it leaves is readable exactly up to 9999 reviews. |
| `LateFinishes.LateFinishUnreadable` | benchmark/radius_perf_eval/campaign.py:460-466 | With 9999 requests for more review and one decision, a committed finish leaves an unreadable journal. |
| `ReviewImports.ImportsSafe` | benchmark/radius_perf_eval/adjudication.py:353-367 | Over any interleaving of import commands with stale snapshots: nothing stored changes, names stay gapless, every review's raw bytes are kept, and the reviews ask for more until at most one, the last, decides. |
| `ReviewImports.DecisionStays` | benchmark/radius_perf_eval/adjudication.py:223-225 | Once decided, no later command changes the reviews or the decision. |
| `ReviewImports.ImportAlone` | benchmark/radius_perf_eval/adjudication.py:353-367 | One command keeps its raw input whatever the review says, and the review exactly when it is well formed in its place. |
| `BoundReviews.ImportExactly` | benchmark/radius_perf_eval/adjudication.py:342-365 | One import keeps its raw input under the next number, and the review under its own, exactly when it is a registered reviewer's complete reading of this packet and nothing has been decided. |
| `ReviewImports.CaptureOnJournal` | benchmark/radius_perf_eval/campaign.py:532-543 | A capture on the journal reads back as the attempt's captures with the new one, or as they were. |
| `JournalImports.JournalImportsSafe` | benchmark/radius_perf_eval/adjudication.py:353-367 | The same over any run of the journal, with starts, captures and finishes of every attempt between the commands: while the journal is readable the attempt's reviews stay safe. |
| `CpuDemand.ReadFrames` | benchmark/radius_perf_eval/cpu_limits.py:176-200 | The line loop groups readings into clocked frames as specified. |
| `CpuDemand.FramesAreDictionaries` | benchmark/radius_perf_eval/cpu_limits.py:176-200 | Every frame holds one reading for an id. |
| `CpuDemand.MeasureDemand` | benchmark/radius_perf_eval/cpu_limits.py:202-261 | The dictionary-updating fold gives each service the tally of its own readings, and lists exactly the services with a counted interval. |
| `DemandReadings.DemandReads` | benchmark/radius_perf_eval/cpu_limits.py:224-258 | For any readings at all: how many neighbouring pairs count and how many are gaps, the mean as counted usage over counted time, and a peak that covers every counted pair's usage and is reached by one; a single counted pair has its mean as its peak. |
| `DemandReadings.SampleSource` | benchmark/radius_perf_eval/cpu_limits.py:218-223 | A service's samples are exactly the readings of its containers under their frames' clocks. |
| `DemandReadings.SamplesInOrder` | benchmark/radius_perf_eval/cpu_limits.py:218-223 | Samples come in the order of the frames. |
| `DemandReadings.FrameInOrder` | benchmark/radius_perf_eval/cpu_limits.py:219-223 | Within a frame samples come in the order of its readings. |
| `DemandReadings.StreamRoundTrip` | benchmark/radius_perf_eval/cpu_limits.py:176-200 | A stream written frame by frame is read back as those frames. |
| `DemandProperties.MeanAtMostPeak` | benchmark/radius_perf_eval/cpu_limits.py:209-261 | For any readings the mean is at most the peak and gaps are counted intervals. |
| `DemandProperties.Telescopes` | benchmark/radius_perf_eval/cpu_limits.py:219-261 | With increasing clocks and nondecreasing counters the totals are the difference of the last and first reading. |
| `DemandProperties.InteriorLoss` | benchmark/radius_perf_eval/cpu_limits.py:214-243 | Losing an interior reading keeps the mean and never raises the peak. |
| `DemandProperties.LostReading` | benchmark/radius_perf_eval/cpu_limits.py:216-261 | A reading lost from a frame leaves every other service's demand as it was. |
| `LostLines.LostLine` | benchmark/radius_perf_eval/cpu_limits.py:180-200 | Deleting a container's only reading line in an open frame removes exactly that reading from its frame. |
| `LostLines.LostLineDemand` | benchmark/radius_perf_eval/cpu_limits.py:164-261 | A reading deleted from the sampler's text leaves every other service's demand, and an interior one its own service's mean, as it was, and never raises the peak. |
| `CpuLimits.FittedCovers` | benchmark/radius_perf_eval/cpu_limits.py:122-131 | A fitted limit is at least its rule, by less than a hundredth, and grows with the peak. |
| `CpuLimits.LimitCoversMean` | benchmark/radius_perf_eval/cpu_limits.py:122-131 | A fitted limit is at least twice the measured mean. |
| `CpuLimits.VerdictFromReadings` | benchmark/radius_perf_eval/cpu_limits.py:738-791 | The loops build the specified lists, fitted services first, then the unfitted ones. |
| `CpuLimits.AcceptedExactly` | benchmark/radius_perf_eval/cpu_limits.py:598-623 | The verdict is accepted exactly when something was fitted, every fitted service was read, measured, unthrottled for life and on its quota, and nothing else ran. |
| `ThrottleVerdicts.FitExactly` | benchmark/radius_perf_eval/cpu_limits.py:122-131 | A limit is the least number of hundredths that covers twice the peak and eight processors; a negative peak is refused. |
| `ThrottleVerdicts.VerdictExactly` | benchmark/radius_perf_eval/cpu_limits.py:738-791 | Each list of a verdict for any readings: entries with the counters' rises, the unmeasured, the ever throttled, the unread and unfitted, the fallen counters and the differing quotas. |
| `GrafanaLeaves.EscapeRoundTrip` | benchmark/radius_perf_eval/grafana_review.py:15-25 | The pointer escape is invertible and slash-free. |
| `GrafanaLeaves.LeavesArePaths` | benchmark/radius_perf_eval/grafana_review.py:15-30 | Extraction is refused exactly for a nonfinite number; otherwise it lists the pointers of all leaf paths. |
| `GrafanaLeaves.LeavesComplete` | benchmark/radius_perf_eval/grafana_review.py:15-30 | A pointer is listed with a value exactly when it evaluates to that value and the value is a scalar or an empty container; no pointer is listed twice. |
| `GrafanaLeaves.UniqueObject` | benchmark/radius_perf_eval/grafana_review.py:33-39 | Parsing an object refuses exactly repeated keys. |
| `GrafanaLeaves.KeysOnce` | benchmark/radius_perf_eval/grafana_review.py:33-39 | No key is repeated exactly when there are as many keys as members. |
| `LoadStatistics.PercentileExact` | benchmark/radius_perf_eval/load.py:231-239 | The nearest-rank percentile is the one value with at least ⌈f·n⌉ values at most it and fewer than ⌈f·n⌉ below it. |
| `LoadStatistics.PercentileDefined` | benchmark/radius_perf_eval/load.py:231-237 | No values have no percentile; otherwise it is refused exactly for a fraction outside (0, 1]. |
| `LoadStatistics.PercentileMonotone` | benchmark/radius_perf_eval/load.py:231-239 | A larger fraction never has a smaller percentile. |
| `LoadStatistics.FewStalls` | benchmark/radius_perf_eval/load.py:183-198 | For nonnegative latencies and a factor of at least one, at most half of the requests are stalls. |
| `LoadStatistics.StallsExactly` | benchmark/radius_perf_eval/load.py:183-198 | The threshold is the factor times the lower median, and the stalls are exactly the latencies strictly above it, each as often as measured, largest first. |
| `LoadStatistics.StallsScale` | benchmark/radius_perf_eval/load.py:183-198 | Scaling all latencies scales the threshold and the stalls and nothing else. |
| `LoadStatistics.StallEvents` | benchmark/radius_perf_eval/load.py:201-228 | The events are the stalled requests in order of time. |
| `LoadStatistics.EventsExactly` | benchmark/radius_perf_eval/load.py:201-228 | The events are the requests above the threshold, one each, stamped on all three clocks, earliest first. |
| `LoadStatistics.EventsAreStalls` | benchmark/radius_perf_eval/load.py:183-228 | The timestamped events have exactly the detected stalls' latencies. |
| `OfferedLoads.AdjacentWindows` | benchmark/radius_perf_eval/offered_load.py:236-267 | Requests, failures and time add over adjacent windows, and the joint rate lies between theirs. |
| `OfferedLoads.EvaluateOfferedLoad` | benchmark/radius_perf_eval/offered_load.py:348-387 | A cycle is scored exactly when no reason applies; the reasons are listed in order. |
| `OfferedLoads.EvaluateIncidentLoad` | benchmark/radius_perf_eval/offered_load.py:270-295 | The incident's reasons in order, without a band. |
| `OfferedLoads.BandWidth` | benchmark/radius_perf_eval/offered_load.py:302-308 | A band admits exactly the rates whose distance from the target is at most the fraction of it. |
| `OfferedLoads.HealthyExactly` | benchmark/radius_perf_eval/offered_load.py:348-387 | Each reason against a healthy window exactly when its condition holds, in the window's own fields. |
| `OfferedLoads.IncidentExactly` | benchmark/radius_perf_eval/offered_load.py:270-295 | Each reason against an incident's window exactly when its condition holds of the two readings. |
| `OfferedLoads.AchievedExactly` | benchmark/radius_perf_eval/offered_load.py:236-267 | Two readings make a window exactly when the clock moved and no counter fell, with the differences, the rate and the share of failures. |
| `OfferedLoads.HealthyWindowsJoin` | benchmark/radius_perf_eval/offered_load.py:348-387 | Two adjacent windows that may be scored join to one that may be scored. |
| `OfferedLoads.IncidentWindowsJoin` | benchmark/radius_perf_eval/offered_load.py:270-295 | The same for an incident's windows. |
| `OfferedLoads.FittedWithinGood` | benchmark/radius_perf_eval/offered_load.py:390-420 | When fewer than half of the samples are bad, the fitted target lies within the good ones. |
| `OfferedLoads.FittedExactly` | benchmark/radius_perf_eval/offered_load.py:390-420 | A band is fitted exactly on enough samples, all positive, and keeps host class, users and fraction. |
| `OfferedLoads.HalfBad` | benchmark/radius_perf_eval/offered_load.py:390-420 | With exactly half bad the target can leave every good sample. |
| `OfferedLoads.CoversCount` | benchmark/radius_perf_eval/offered_load.py:423-434 | No sample is reported exactly when the band admits every one, and no more are reported than lie below or above it. |
| `OfferedLoads.RejectsAtMostHalf` | benchmark/radius_perf_eval/offered_load.py:423-434 | A fitted band rejects at most half of its own samples on either side. |
| `Qualification.CompareFingerprints` | benchmark/radius_perf_eval/qualification.py:140-193 | A missing side never matches; the loop lists the differing components in order. |
| `Qualification.DriftReported` | benchmark/radius_perf_eval/qualification.py:140-193 | The drift lists exactly the differing components, and for different fingerprints is empty exactly when they differ only in trailing slashes. |
| `Qualification.TrailingSlashUnreported` | benchmark/radius_perf_eval/qualification.py:140-193 | For every host, bounds fitted on its own fingerprint and stored with a trailing slash mismatch with an empty drift. |
| `Qualification.FoundLatest` | benchmark/radius_perf_eval/qualification.py:216-246 | A record is found exactly when one clears the gate, and no clearing record is later. |
| `Qualification.AllowedExactly` | benchmark/radius_perf_eval/qualification.py:319-412 | A host may start scored trials exactly when its bounds resolved and its fingerprint is the fitted one or a record clears it. |
| `QualifiedHosts.FingerprintParts` | benchmark/radius_perf_eval/hostclass.py:354-370 | A fingerprint of facts without slashes reads as the class and the three versions, each in its place, unknown ones as a question mark. |
| `QualifiedHosts.ComparedExactly` | benchmark/radius_perf_eval/qualification.py:140-193 | Two fingerprints match exactly when both are there and equal, are comparable exactly when both are there, and list each differing place once, in order. |
| `QualifiedHosts.FoundExactly` | benchmark/radius_perf_eval/qualification.py:216-246 | The record found is the latest that covers class, fingerprint and bounds over three cycles, of equally late ones the last; none is found exactly when none covers. |
| `QualifiedHosts.ReadinessExactly` | benchmark/radius_perf_eval/qualification.py:319-412 | Readiness gives the first reason that applies, allows for exactly two of them, and shows a record exactly when it is why. |
| `QualificationSuites.QualificationStore.Record` | benchmark/radius_perf_eval/qualification.py:249-289 | Too few cycles are refused; otherwise one record is appended. |
| `QualificationSuites.QualificationStore.MaybeRecord` | benchmark/radius_perf_eval/trials.py:877-913 | A suite records exactly when it passed over enough cycles with bounds and was itself blocked. |
| `QualificationSuites.PerformAll` | benchmark/radius_perf_eval/trials.py:762-913 | Performing a trace of suite steps on a new store leaves the world the safety theorem speaks of. |
| `QualificationSuites.RecordedAtOnce` | benchmark/radius_perf_eval/qualification.py:249-289 | Undisturbed, reading again and writing back adds exactly what `MaybeRecord` records, never below the minimum of cycles. |
| `QualificationSuites.RecordedMet` | benchmark/radius_perf_eval/trials.py:1198-1237 | A suite that records met its exit criterion over at least three successful cycles and was blocked. |
| `QualifiedHosts.ExitExactly` | benchmark/radius_perf_eval/trials.py:1198-1237 | A suite met its exit criterion exactly when bounds are in force and all held, it had as many successful cycles as planned with their incidents verified, every cycle was cleaned up and lost at most five seconds, and it degraded within its budgets. |
| `QualifiedHosts.RecordExactly` | benchmark/radius_perf_eval/trials.py:877-913 | A suite records, and what, exactly when it met its criterion over three cycles on a classified host that neither the fitted fingerprint nor an earlier record had cleared. |
| `QualifiedHosts.StepExactly` | benchmark/radius_perf_eval/qualification.py:196-289 | Only a new suite's beginning adds a suite, with the records of that moment; only a write-back changes the store, to what the suite had reloaded and its record. |
| `QualifiedHosts.SecondSuiteAllowed` | benchmark/radius_perf_eval/trials.py:762-765 | On a drifted host a first suite records and is itself blocked, and the next one under the same bounds is allowed. |
| `QualificationSuites.ScoredStartSafe` | benchmark/radius_perf_eval/trials.py:762-765 | From an empty store, over any interleaving of suites and store writes: an allowed suite runs on the fitted fingerprint, or another suite recorded on the same class, fingerprint and bounds before it began. |
| `QualificationSuites.NextSuiteAllowed` | benchmark/radius_perf_eval/trials.py:907-913 | A suite that reads the record is allowed on the same class, fingerprint and bounds. |
| `CheckPlans.Reconcile` | benchmark/radius_perf_eval/checks.py:289-337 | The loops list every problem, in both directions and in order. |
| `CheckPlans.GenerateCheckPlan` | benchmark/radius_perf_eval/checks.py:340-383 | The loops derive one check of each kind for every service and the reconciled problems. |
| `CheckPlans.NoProblemsExactly` | benchmark/radius_perf_eval/checks.py:289-337 | Reconciliation finds nothing exactly when checks cover the stack, name nothing else, and every service is probed, limited, pinned, and internal or excepted. |
| `StackChecks.ProblemsExactly` | benchmark/radius_perf_eval/checks.py:289-337 | A problem is reported if and only if it is there: an unchecked kind, a check of no service, an unprobed, unlimited or unpinned service, or one that reaches out without an exception. |
| `StackChecks.PlanExactly` | benchmark/radius_perf_eval/checks.py:340-383 | A generated plan lists each service once, five checks for each, and the exceptions declared for services of the stack. |
| `CheckPlans.GeneratedCovers` | benchmark/radius_perf_eval/checks.py:340-383 | A generated plan covers its stack; it is complete exactly when every service is well declared. |
| `CheckPlans.RemovalNoticed` | benchmark/radius_perf_eval/checks.py:262-277 | Removing a service's checks from any plan is reported, once for each kind. |
| `Manifests.EnvironmentManifest.RequireGates` | benchmark/radius_perf_eval/manifest.py:180-189 | The requirement only grows. |
| `Manifests.EnvironmentManifest.AddGate` | benchmark/radius_perf_eval/manifest.py:191-194 | Appends one gate. |
| `Manifests.EnvironmentManifest.FailedGates` | benchmark/radius_perf_eval/manifest.py:196-198 | Exactly the recorded gates that failed. |
| `Manifests.EnvironmentManifest.MissingGates` | benchmark/radius_perf_eval/manifest.py:200-203 | Exactly the required gates never recorded, sorted. |
| `Manifests.EnvironmentManifest.IsSignedOff` | benchmark/radius_perf_eval/manifest.py:205-207 | Nothing required is missing and nothing recorded failed. |
| `Manifests.EnvironmentManifest.GenerateCheckPlan` | benchmark/radius_perf_eval/environment.py:307-338 | Requires the plan's gates and records that it exists and covers. |
| `Manifests.SignOffCoversStack` | benchmark/radius_perf_eval/environment.py:307-338 | Whatever is required or recorded after plan generation, a signed-off manifest has a passing gate of each kind for every service of the Compose model, and every service is well declared. |
| `StackChecks.SignOffExactly` | benchmark/radius_perf_eval/manifest.py:191-207 | A manifest signs off, whatever follows plan generation, if and only if every recorded gate passed and every required one was recorded. |
| `Manifests.UndeclaredServiceBlocks` | benchmark/radius_perf_eval/environment.py:307-338 | A service that is not well declared blocks every later sign-off. |
| `Manifests.FailureStays` | benchmark/radius_perf_eval/manifest.py:191-207 | A failed gate is never made up for. |
| `Manifests.NoPlanNoSignOff` | benchmark/radius_perf_eval/manifest.py:112-126 | A fresh manifest that never records a generated plan never signs off. |
| `Manifests.GateNamesDistinct` | benchmark/radius_perf_eval/checks.py:234-236 | A derived gate name determines its kind and service and is never a lifecycle gate. |

## Left out

- SQLite, files, fsync and OS errors, the triggers and the database file: a transaction is one atomic step or none.
- SHA-256, JSON text, base64 and the hash of a verifier's source files: function values, with `Codec.Faithful` or `NoCollision` as the hypothesis of the lemmas that need one; regular expressions are predicates on characters.
- Exact record shapes and the types of JSON scalars, where a document has a datatype of its own (events, rosters, the reference verifier's documents): a reader returns the typed value or refuses. Answers keep untyped JSON.
- Error texts, report prose and the detail strings of checks and gates: refusals are `Err`, reasons are constructors.
- Closed vocabularies of class, gate, arm and phase names: datatypes, with an extra constructor where the source meets unknown names. Names that reach a comparison or an order (runs, components, signals, sources, gates) stay strings.
- Unicode case folding: `Text.Lower` lowers ASCII letters only.
- Rounding, infinities and NaN of floats, integers too large for a float, and the host's limit on the digits of an integer: reals and unbounded integers; the NaN results of an empty sample are `None`.
- The order in which the source walks a set of canonical names while building a component table: any order is allowed, and the result does not depend on it.
- Further names under other keys of a saved answer's connection: the parser refuses such a connection anyway.
- The verifier's second fingerprint comparison after a replay: a fingerprint is a constant here.
- The `campaign` block and the schema version of an exported report, and the `reason` text of its rows: constants beside the modelled fields.
- The size check on metric totals in the accounting: with reals the sums of valid metrics are always valid.
- JournalRuns.RunRefines: assumes order-insensitive verifiers; `JournalRuns.RunReadableExactly` is the statement for all verifiers.
- JournalHistory.ChainUnique: assumes that no two different payloads of the two journals share a digest.
- CampaignStores.RecordResolves: assumes the same within one journal.
- CampaignStores.ExportedRecordsResolve: assumes the same within one journal.
- The human judgement behind a review: Boolean inputs.
- JournalImports.JournalImportsSafe: its step for keeping a review allows any command whose raw input is stored under the name it computed, which is at least every step the source can take.
- The packet text and the review template: a packet is a value with an abstract digest.
- CpuDemand.ReadFrames: number parsing is a parameter, so what counts as a number is not modelled.
- Reading cgroups, throttling and Prometheus from containers, load generation, host observation and power state: external effects; their results are parameters.
- Parsing a generator reading and storing bands: not part of this model.
- The statistics of a determinism report: `QualificationSuites.Measured` carries each bound's outcome and the degradation and budget verdicts as Booleans; the loop that runs cycles is not modelled.
- QualificationSuites.ScoredStartSafe: writes of concurrent suites may lose each other's records, as in the source; the property does not depend on it.
- Parsing a Compose file and its units, and observing what runs: the model starts from the parsed stack.
- Manifest fields that sign-off does not read.
- The Grafana inventory and asset checks, the Copilot session, permission handling, escape probes, fixtures, tar and git handling: library behaviour or external effects.
