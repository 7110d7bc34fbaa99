# FinVet, verified

A Dafny model of the part of FinVet that decides a numeric verdict without a language model and records
that decision so it can be checked, with proofs of what each part promises. `dafny verify dfyconfig.toml`
checks everything.

Language models are arbitrary throughout: one appears as any verdict, any confidence, or a
failure. Floats are real numbers, dates are the strings the program keeps, a transaction either happens or
has no effect, and the hash under the checksum and the tokenizer are parameters.

| file | what it models |
|---|---|
| `dates.dfy` | full-dates as strings and as day numbers; section 5.6 of RFC 3339, whose section 5.1 remarks on their order |
| `fact_selection.dfy` | the value of record for a concept and fiscal period |
| `fiscal_calendar.dfy`, `calendar_meaning.dfy`, `calendar_order.dfy` | an issuer's fiscal calendar, inferred from filing stamps: how it is built, what it says of the rows on file, what fact order can change in it |
| `sec_edgar.dfy` | the older selection around a fiscal anchor |
| `metrics.dfy`, `evidence.dfy` | the metric vocabulary, and the one number admitted as evidence |
| `verdict.dfy` | the comparator, the override of the model, the decision of `execute`, the confidence |
| `pipeline.dfy` | all of these put together: what a verdict means |
| `workflow.dfy` | the graph: who decides a released verdict |
| `integrity.dfy` | the canonical form and its checksum |
| `checksums.dfy` | the envelope as the dictionary that is hashed: what is refused, what verifies |
| `audit_records.dfy`, `audit_trail.dfy` | rows, envelopes and event trails as transitions, and runs of them |
| `shared_flag.dfy` | the flag by which callers on several threads learn whether their event was written |
| `audit_store.dfy` | the database, logger and finalizer objects, each method proved against those transitions |
| `review_protocol.dfy` | concurrent reviewers and reconcilers with crashes, failing writes and failing reads |
| `review_examples.dfy` | plays from the empty system in which a review goes wrong |
| `chunker.dfy`, `headings.dfy`, `rank_fusion.dfy` | the section chunker, heading selection and rank fusion |
| `sequences.dfy`, `sorting.dfy`, `wrappers.dfy` | general facts |

## What was found

Properties one might expect that the code does not have, each with the condition under which it does and an
input for which it does not:

- A settled quarter can depend on the order of the facts, although keys, ambiguity and ends of years cannot.
  `most_common` breaks ties on a year's start by encounter order and that start bounds the year's quarters
  (fact_selection.py:163, 199-201). Condition: `QuarterOrderIndependence`; input: `TiedStartsChangeAQuarter`.
- `_year_bounds` catches `ValueError` but not the `OverflowError` of adding 371 days near the last date
  (fact_selection.py:205-210). Condition: `OverflowCondition`; input: `LastYearOverflows`.
- `fiscal_anchor_for` has no anchor for a fiscal year ending on the first of a month, as its loop stops
  before day 1 (sec_edgar.py:875). Condition: `NoAnchorIff`; input: `JanuaryFirstHasNoAnchor`.
- A finished review need not record the decision its graph was entered on: `get_execution` answers None when
  it cannot read, and the reconciler takes that for an approval (database.py:253-255, review.py:301-302, 370).
  Condition: `RecordedDecisionIff`; input: `UnreadRejectionIsApproved`.
- The value of record can depend on the order of the facts when candidates of one filing carry different
  values, as its units may (fact_selection.py:103-107, 241). Condition: `ValueOrderIndependence`; input:
  `FirstUnitWins`.
- A report or event holding a value the checksum refuses makes `commit_execution` raise before its
  transaction (database.py:182-184). `finish` has then marked the run finished, so it leaves no row, and only
  `release` drops its buffer (execution.py:242-269). A claimed value may be such a one: it need not be finite
  (claim.py:51) and the response shows it (response_generator.py:52). Condition: `RefusedExactly`; input:
  `NonFiniteClaimLeavesNoRow`.
- `log_event_persisted` reads a flag that all threads set without a lock (logger.py:22, 74, 94-95), so it can
  report another thread's write: a lost event as logged, a stored one as not. Condition: `ToldTrulyIff`;
  input: `OvertakenIsMistold`.
- An envelope read back from JSONB need not verify: a float of magnitude 1e16 or more comes back as an integer
  and a negative zero as zero. Condition: `StoredVerifiesIff`; input: `LargeFloatDoesNotVerify`.
- `finalize_review` rebuilds the envelope without `llm_config` (database.py:523-533), so a reviewed row drifts
  on that field exactly when one was recorded. Condition: `DriftOfRow`; input: `ApprovalDropsModels`.
- A row left REVIEWING with no live handler is shown in the queue but can never be claimed or finished.
  Condition: `ReviewingRowCanLeaveIffHeld`, and `StrandedOnlyBy` for how a row gets there; input: `CrashStrands`.
- A reconcile attempt that fails discards the buffer (review.py:395-401), which holds the only copy of an
  event whose write failed. Condition: `DiscardedEventsAreMissed`; input: `FailedReconcileLosesEvent`.
- Without a checkpointer a withheld verdict is recorded with status success. Condition: `StatusOfUndecided`;
  input: `UnansweredClaim`.

Two branches would misbehave but no input is known to reach them. Were the override to raise, the declined
verdict would keep a confidence up to the review line itself (base.py:583-595); `RaisedOverrideReview` says
exactly when it would escape review. Were a run to pause without evidence, an approval or override would end as
an error (response_generator.py:110-117, `ResumeFollowsDecision`); every agent node returns evidence
(domain_agents.py:80-93).

## Model

| member | source | states |
|---|---|---|
| Dates.LessAgrees | src/finvet/mcp/fact_selection.py:156-182 | comparing two well-formed full-dates as strings is comparing their day numbers, so the code may mix both |
| Dates.DayNumberMonotone | src/finvet/mcp/fact_selection.py:110-117 | date subtraction respects the Gregorian order of year, month and day |
| Dates.DayNumberFormula | src/finvet/mcp/fact_selection.py:110-117 | day numbers follow the Gregorian rule, written out with quotients and a table of months |
| Dates.FormatParse | src/finvet/mcp/fact_selection.py:110-117 | nothing is read as a date but that date's own isoformat |
| Dates.LessAfterPrefix | src/finvet/mcp/fact_selection.py:156-157 | strings compare as what follows their common start, and a string comes before its extensions |
| Dates.PlusDaysNumber | src/finvet/mcp/fact_selection.py:205-210 | adding days to a date moves its day number by as many, and fails exactly past the last date |
| Dates.ParseFormat | src/finvet/mcp/fact_selection.py:205-210 | parsing what isoformat wrote gives the date back |
| FactSelection.SelectFact | src/finvet/mcp/fact_selection.py:213-261 | the loops that collect candidates and superseded values compute the specified choice, each decline reason included; SelectionIsAStatementFact and SupersededAreStatementFacts say what it is of the rows on file |
| FactSelection.CollectCandidates | src/finvet/mcp/fact_selection.py:225-237 | keeps exactly the rows with a value, from one of the twelve statement forms, ending with the period and, if both dates can be read, 330 to 400 days long for FY and 75 to 105 otherwise |
| FactSelection.CollectSuperseded | src/finvet/mcp/fact_selection.py:241-249 | lists each other value once, in filing order |
| FactSelection.ReadInOrder | src/finvet/mcp/fact_selection.py:102-107 | the rows of a concept are read unit by unit and in order, those without a value or an end left out |
| FactSelection.CandidateIff | src/finvet/mcp/fact_selection.py:225-237 | a row of the payload is a candidate if and only if it is a statement fact of that period, by value, form, end and days |
| FactSelection.SelectionIsAStatementFact | src/finvet/mcp/fact_selection.py:213-261 | the record is a statement fact shown with its own start, accession, form and date, none was filed after it, and no year-to-date figure or fourth quarter stands in for the period |
| FactSelection.SupersededAreStatementFacts | src/finvet/mcp/fact_selection.py:243-250 | each superseded value is listed with the first statement fact to report it, in order of filing |
| FactSelection.LatestFiledIsGreatest | src/finvet/mcp/fact_selection.py:128-131 | no candidate has a greater (filed, accession) than the record |
| FactSelection.LatestFiledIsFirst | src/finvet/mcp/fact_selection.py:241 | every candidate before the record has a smaller key, and none after it a greater |
| Sorting.SortByIsStable | src/finvet/mcp/fact_selection.py:243 | facts with one filing key keep the order they were met in |
| FactSelection.SelectionExists | src/finvet/mcp/fact_selection.py:213-239 | a selection is made if and only if the period is settled and some statement fact of the payload, by form, end and days, reports a value for it |
| FactSelection.SelectionMeaning | src/finvet/mcp/fact_selection.py:241-261 | the value is one of the latest filing, and it with the superseded list is exactly, without repetition, the set of values reported |
| FactSelection.SelectionOrderIndependent | src/finvet/mcp/fact_selection.py:241-249 | the outcome is the same for every arrangement of the facts when equal filing keys carry equal values |
| FactSelection.WholeSelectionOrderIndependent | src/finvet/mcp/fact_selection.py:241-261 | the record's accession and filing date never depend on order, and the whole selection, start, forms and superseded entries included, does not when equal filing keys go with equal values, starts and forms |
| FactSelection.ValueOrderIndependence | src/finvet/mcp/fact_selection.py:241 | the value survives every rearrangement of the facts if and only if all the candidates filed last carry it |
| FactSelection.FirstUnitWins | src/finvet/mcp/fact_selection.py:103-107 | of two units of one filing with different figures, in either order, the first gives the value |
| FactSelection.LaterFilingTakesOver | src/finvet/mcp/fact_selection.py:213-261 | one more, later-filed candidate anywhere in the payload becomes the value of record; the superseded set gains the old value and loses the new one |
| CalendarMeaning.BuildFiscalCalendar | src/finvet/mcp/fact_selection.py:134-210 | the build fails exactly when a row on file forces a date past the last one; otherwise, for every label, presence, dates and ambiguity are what the rows on file say |
| CalendarMeaning.FlowIff | src/finvet/mcp/fact_selection.py:143-158 | the rows that date a period are exactly those of any unit of the nine concepts with a value, the label's stamp, a form of its kind, its length in days and an end not after their filing date |
| CalendarMeaning.ConceptsInOrder | src/finvet/mcp/fact_selection.py:144-145 | the rows of every concept are read, concept by concept |
| CalendarMeaning.PeriodIsOnFile | src/finvet/mcp/fact_selection.py:160-185 | a label is in the calendar if and only if some filing's latest flow under it ends at a time that counts |
| CalendarMeaning.PeriodIsSettled | src/finvet/mcp/fact_selection.py:189-194 | its dates are known if and only if all the ends that count are one |
| CalendarMeaning.PeriodIsEarliest | src/finvet/mcp/fact_selection.py:160-194 | the period is then that of a filing's latest flow with its most common start, and starts no later than any filing that counts |
| CalendarMeaning.YearIsOnFile | src/finvet/mcp/fact_selection.py:143-169 | a fiscal year is in the calendar if and only if some row on file dates it |
| CalendarMeaning.QuarterIsMissing | src/finvet/mcp/fact_selection.py:175-185 | a quarter is missing if and only if every end its filings give it lies outside its year, in day numbers |
| CalendarMeaning.OverflowIff | src/finvet/mcp/fact_selection.py:197-210 | a label overflows if and only if a quarter's row is on file for a year without one end, after a year whose only end is less than 371 days before 9999-12-31 |
| FiscalCalendar.BuildFrom | src/finvet/mcp/fact_selection.py:134-186 | the dictionaries and loops compute, for every label, the entry the specification gives it, or overflow |
| FiscalCalendar.GroupByFiling | src/finvet/mcp/fact_selection.py:143-158 | groups exactly the eligible spans of each filing, in encounter order |
| FiscalCalendar.CollectByLabel | src/finvet/mcp/fact_selection.py:160-164 | gives each label the set of the periods its filings are about |
| FiscalCalendar.SettleYears | src/finvet/mcp/fact_selection.py:166-169 | settles each fiscal year whose filings agree on its end |
| FiscalCalendar.SettleQuarters | src/finvet/mcp/fact_selection.py:175-185 | settles each quarter after discarding what ends outside its year |
| FiscalCalendar.MostCommonIsFirst | src/finvet/mcp/fact_selection.py:163-164 | the chosen start is a most frequent one and no most frequent one occurs before it |
| FiscalCalendar.SettledIsWitnessed | src/finvet/mcp/fact_selection.py:134-194 | every settled period is the span of an actual statement flow filed no earlier than it ended, and is 330-400 or 75-105 days long although its start is the least found |
| FiscalCalendar.QuarterInsideYear | src/finvet/mcp/fact_selection.py:175-210 | a settled quarter ends inside its settled year, or within 371 days of the year before when only that is known, in day numbers |
| FiscalCalendar.IrrelevantFact | src/finvet/mcp/fact_selection.py:143-164 | a comparative, a fact of another form, of a wrong length or filed before its end changes nothing wherever it is added |
| FiscalCalendar.AnotherAnnualReport | src/finvet/mcp/fact_selection.py:160-194 | another annual filing under a settled year confirms its end or makes it ambiguous and never moves it |
| FiscalCalendar.OverflowCondition | src/finvet/mcp/fact_selection.py:197-210 | the build raises exactly when a labelled quarter is bounded by a date past 9999-12-31 |
| CalendarOrder.YearOrderIndependent | src/finvet/mcp/fact_selection.py:160-169 | presence, ambiguity and end of a year do not depend on fact order |
| CalendarOrder.StartIsAttainable | src/finvet/mcp/fact_selection.py:163-194 | in every order a settled year starts at an attainable start |
| CalendarOrder.AttainableIsAttained | src/finvet/mcp/fact_selection.py:163-194 | and every attainable start is given by some order |
| CalendarOrder.QuarterOrderIndependence | src/finvet/mcp/fact_selection.py:175-210 | a quarter's presence, ambiguity and end survive every rearrangement if and only if all attainable starts of its year agree on them |
| CalendarOrder.TiedStartsChangeAQuarter | src/finvet/mcp/fact_selection.py:163-201 | four facts, for any year, where the order of the facts decides whether a quarter is there |
| CalendarOrder.LastYearOverflows | src/finvet/mcp/fact_selection.py:205-210 | two facts, an annual report of 9999 and a quarterly one labelled with the year after, make the build raise |
| SecEdgar.FiscalAnchorFor | src/finvet/mcp/sec_edgar.py:854-880 | the loop finds the last existing day not after the stripped MMDD, or nothing for day 1 and malformed input |
| SecEdgar.StripTrims | src/finvet/mcp/sec_edgar.py:867 | stripping takes blanks off both ends and nothing else |
| SecEdgar.BlanksAreBlank | src/finvet/mcp/sec_edgar.py:867 | the blanks are the 29 characters of Unicode that are |
| SecEdgar.NoAnchorIff | src/finvet/mcp/sec_edgar.py:868-880 | a well-formed year end has no anchor in an existing year exactly when it is the first of a month |
| SecEdgar.AnchorIsLastDay | src/finvet/mcp/sec_edgar.py:867-880 | the anchor is in the stated month, not after the stated day, and no later day up to that one exists |
| SecEdgar.AnchorExists | src/finvet/mcp/sec_edgar.py:867-880 | four digits give an anchor if and only if they name a month, a day from 2 to 31 and the year exists |
| SecEdgar.JanuaryFirstHasNoAnchor | src/finvet/mcp/sec_edgar.py:875-880 | 0101 has no anchor in any year, though January 1 exists |
| SecEdgar.AnchorWindowsDisjoint | src/finvet/mcp/sec_edgar.py:851-880 | the 45-day windows of two fiscal years of one issuer never accept one fact, clamped days and leap years included |
| SecEdgar.SupersedeRestated | src/finvet/mcp/sec_edgar.py:790-821 | the grouping loops compute the specified list of kept facts |
| SecEdgar.KeptMembers | src/finvet/mcp/sec_edgar.py:790-821 | a fact is kept exactly if its period's filings agree on the value or it is the latest filed of them |
| SecEdgar.MostRecentIsFirst | src/finvet/mcp/sec_edgar.py:785-812 | the fact kept of a restated period is the first of the latest by filing date, fiscal year and accession |
| SecEdgar.MatchesIff | src/finvet/mcp/sec_edgar.py:926-935 | a fact matches if and only if it is from a statement or names no form, is 330 to 400 days long and ends within 45 days of the anchor |
| SecEdgar.PreferredMembers | src/finvet/mcp/sec_edgar.py:956-957 | of what is kept the filing under inspection's facts are preferred if it has any |
| SecEdgar.ChosenIsNearest | src/finvet/mcp/sec_edgar.py:929-976 | the chosen fact is preferred, none is nearer, equally near ones carry its value, and the choice declines exactly when nothing matches or nearest ones differ |
| SecEdgar.ChooseNearOrderIndependent | src/finvet/mcp/sec_edgar.py:929-976 | with distinct filing keys the value chosen does not depend on the order of the facts |
| Evidence.ObservationFromItems | src/finvet/models/evidence.py:202-270 | the early-return loop returns the first eligible line |
| Evidence.ResolveTrustedObservation | src/finvet/models/evidence.py:502-595 | the early-return loop over records computes the specified resolution |
| Evidence.ResolveFindsFirst | src/finvet/models/evidence.py:202-270 | for a statement metric the result is the first admissible line in record-then-line order, and None exactly when there is none |
| Evidence.OuterCheckAgrees | src/finvet/models/evidence.py:584-591 | the outer period check never rejects what the inner one accepted |
| Evidence.FromRecordIsFromItems | src/finvet/models/evidence.py:537-593 | for a statement metric the quote fields and the outer check add nothing to a record's lines |
| Evidence.AdmissibleIff | src/finvet/models/evidence.py:221-250 | a line may be rested on exactly if its call succeeded and was no text search, and by its concept, value, consolidation and period, each written out |
| Evidence.WindowInDays | src/finvet/models/evidence.py:175-191 | for full-dates the claim's window is one of day numbers, both ends included |
| Evidence.ObservedOfLine | src/finvet/models/evidence.py:251-269 | the observation is the line's own value, concept, period and accession, with those of its restated values that are finite numbers |
| Metrics.CarriesOneMetric | src/finvet/config/metrics.py:161-180 | the table of concepts read from the other side: each carries one metric |
| Evidence.ResolveFindsFirstQuote | src/finvet/models/evidence.py:294-329 | for a market metric the result is the first trusted, dated quote, and None for every claim bound to a period |
| Evidence.PenaltyIsUnanimous | src/finvet/models/evidence.py:425-474 | for a fine or a settlement the resolver admits a disclosed amount if and only if all trusted disclosures agree on value and currency and it is in the claim's currency, the claim names no magnitude, or the magnitudes are a factor of ten apart |
| Evidence.UndisclosedPenalty | src/finvet/models/evidence.py:525-528 | and admits nothing when no trusted passage discloses one, whatever else was retrieved |
| Evidence.QualitativeEvidenceGap | src/finvet/models/evidence.py:349-392 | the flags kept over the records classify why there is nothing to rest a decisive verdict on |
| Verdicts.DiffIsCloseness | src/finvet/agents/base.py:110-131 | being within t percent is having one sign and the smaller magnitude at least (1 - t/100) of the larger |
| Verdicts.CompareMeaning | src/finvet/agents/base.py:85-147 | the comparator is undecided exactly without a value, an observation or an interpretable operator, and supports exactly what satisfies the claim |
| Verdicts.SupportInNumbers | src/finvet/agents/base.py:71-132 | an equality is supported exactly by a value of its sign when neither is under 98.5, 98 or 95 percent of the other by agent and magnitude, an approximation at 97, 96 or 90 |
| Verdicts.CompareConfidence | src/finvet/agents/base.py:130-147 | the comparator is 0.90 sure, 0.85 exactly for an equality off by half the tolerance or more, 0.5 where undecided |
| Verdicts.DiffInNumbers | src/finvet/agents/base.py:115-117 | the difference is the percentage of the larger magnitude |
| Verdicts.SupersededValueMatch | src/finvet/agents/base.py:176-196 | finds the first restated figure the claim holds against |
| Verdicts.SupersededMatchMeaning | src/finvet/agents/base.py:176-196 | finds none exactly when the claim holds against no restated figure |
| Verdicts.SupersededMatchIsFirst | src/finvet/agents/base.py:176-196 | what it finds is the first restated figure the claim holds against |
| Verdicts.ApplyOverride | src/finvet/agents/base.py:845-1004 | the second copy of the comparison returns what the first decides, and shows the value compared; for a claim naming no value it declines what ValuelessDecision says |
| Verdicts.OverruledConfidence | src/finvet/agents/base.py:150-170 | the model's confidence has no influence exactly when a decisive comparison contradicts the model |
| Verdicts.Execute | src/finvet/agents/base.py:507-667 | the decision part, exceptions included, computes the specified decision, whose meaning is NumericDecision for a claim with a value and ValuelessDecision for one without |
| Verdicts.VerdictIgnoresModel | src/finvet/agents/base.py:526-613 | for a claim naming a value the verdict is the same for every model answer, and when extraction fails |
| Verdicts.DecisiveMeansCompared | src/finvet/agents/base.py:526-613 | a decisive verdict rests on an observation that satisfies, or with every restated figure fails, the claim |
| Verdicts.NumericDecision | src/finvet/agents/base.py:526-613 | for a claim naming a value: exactly when it is supported, refuted, declined for a restated figure or as not certifiable, and when the run failed |
| Verdicts.ValuelessDecision | src/finvet/models/evidence.py:395-415 | a claim naming no value is never refuted; it is supported exactly when the model says so, something was retrieved and nothing raised; which limitation is stated for each model verdict and gap |
| Verdicts.ValuelessConfidence | src/finvet/agents/base.py:911-917 | such a claim keeps the model's confidence exactly when it is not declined for a reason, and is capped otherwise |
| Verdicts.UnresolvedPeriodIsDeclined | src/finvet/agents/base.py:513-519 | a numeric claim whose named period was not resolved is never decided, whatever was observed |
| Verdicts.AdjustConfidence | src/finvet/graph/workflow.py:175-235 | carries the verdict over and computes the adjusted, capped confidence |
| Verdicts.SupportIsNeverPenalised | src/finvet/graph/workflow.py:215-221 | a supported claim never meets the large-difference penalty |
| Verdicts.DecidedIffConfident | src/finvet/graph/workflow.py:175-235 | an adjusted numeric verdict is at or above 0.70 exactly when it was decided, and then in [0.80, 0.95] |
| Verdicts.ReviewIffUnexplained | src/finvet/graph/nodes/output_guardrails.py:48-68 | low confidence asks for a person exactly for a claim declined without a stated reason |
| Verdicts.RaisedOverrideReview | src/finvet/agents/base.py:577-631 | for every model verdict a raised override is declined and escapes review exactly when a reason is stated anyway or the model was confident enough |
| Pipeline.ResolveFiscal | src/finvet/mcp/sec_edgar.py:491-546 | the loop builds one line per concept that has a selection, in concept order |
| Pipeline.LinesGiveFirstAnswer | src/finvet/mcp/sec_edgar.py:491-546 | reading such a statement finds the line of the first concept that carries the metric and has a selection |
| Pipeline.FirstAnswerAnswers | src/finvet/mcp/sec_edgar.py:491-546 | no concept answers exactly when every concept of the metric is declined |
| Pipeline.FirstAnswerIsFirst | src/finvet/mcp/sec_edgar.py:491-546 | the answering concept is the first in the order asked for that carries the metric and for which a statement fact of the settled period is on file |
| Pipeline.ResolvedIsFirstAnswering | src/finvet/models/evidence.py:537-595 | the resolver returns what the first answering record gives, and None when no record answers |
| Pipeline.ResolvedFromStatement | src/finvet/models/evidence.py:537-593 | if that record is a statement, the observation compared is the line of its first answering concept, restated values included |
| Pipeline.VerdictOnFirstAnswering | src/finvet/agents/base.py:526-613 | a numeric run is declined exactly as it must be without an answering record or an interpretable operator, and otherwise its verdict is what the first answering observation and its restated values say |
| Pipeline.WhatAVerdictMeans | src/finvet/agents/base.py:595-613 | moreover, when that observation comes from the statement of the period named, the run ends REFUTES exactly when every value any statement reported for the concept and period fails the claim, and SUPPORTS exactly when the value of record satisfies it |
| Pipeline.AnsweredPeriodIsWitnessed | src/finvet/mcp/fact_selection.py:134-194 | the period a claim was answered for is that of a filing's latest flow on file stamped with it, its end is the only one that counts, and it is as long as a year or a quarter |
| Pipeline.LatestValueDecides | src/finvet/agents/base.py:526-613 | when the latest statement reports one value, SUPPORTS means exactly that it satisfies the claim |
| Pipeline.NoAnswerIsDeclined | src/finvet/agents/base.py:871-883 | with no answering concept and no other record the claim is declined |
| Workflow.PausesExactlyOnFlagged | src/finvet/graph/workflow.py:85-147 | with a checkpointer the graph pauses exactly on flagged claims and answers the others with the agent's verdict or a refusal |
| Workflow.FlaggedIff | src/finvet/graph/nodes/output_guardrails.py:48-118 | a claim is flagged exactly when an agent answered and its text is unsafe, a source contradicts it, there is no evidence, or its confidence is under 0.70 with no limitation stated |
| Workflow.RouteTaken | src/finvet/graph/workflow.py:85-147 | the nodes a run passes, for each kind of claim, flagged or not, with and without a checkpointer |
| Workflow.ResumeFollowsDecision | src/finvet/graph/workflow.py:280-347 | resuming releases the agent's verdict, the person's, or none, as decided; were there no evidence, only a rejection would take effect |
| Workflow.RefusedFromAnyState | src/finvet/graph/nodes/response_generator.py:99-108 | a claim the parser refused is answered so from every state that waits for nobody |
| Workflow.WithheldWithoutCheckpointer | src/finvet/graph/nodes/response_generator.py:93-97 | without a checkpointer a flagged verdict is still withheld |
| Workflow.UndecidedVerdictsAreUnflagged | src/finvet/graph/workflow.py:238-246 | a run no person decided releases a verdict exactly when it is not flagged |
| Workflow.UnreviewedNumericVerdict | src/finvet/graph/workflow.py:150-246 | a numeric verdict released with no person was decided by a comparison, or declined for a stated reason |
| Workflow.StatusOfUndecided | src/finvet/api/execution.py:151-166 | pending_review is recorded exactly for flagged claims with a checkpointer, rejected exactly for refused and unparsed ones, and success for all others |
| Workflow.UnansweredClaim | src/finvet/api/execution.py:151-166 | a flagged claim: a person's override decides it, and without a checkpointer its withheld verdict is recorded as a success |
| Integrity.RefusesUnrepresentable | src/finvet/audit/integrity.py:48-81 | normalisation raises exactly on a non-finite number or unknown type at some depth (section 6 of RFC 8259 has no literal for the former) |
| Integrity.NormalizeIdempotent | src/finvet/audit/integrity.py:48-81 | normalising twice is normalising once |
| Integrity.CanonicalLeaves | src/finvet/audit/integrity.py:62-75 | what each kind of value becomes, decimals and dates their text, and which are refused |
| Integrity.CanonicalTuple | src/finvet/audit/integrity.py:79-80 | a tuple becomes what the list of its items does |
| Integrity.CanonicalOfDict | src/finvet/audit/integrity.py:76-78 | a dictionary becomes an object with exactly the texts of its keys, each with the last value under it |
| Integrity.CanonicalList | src/finvet/audit/integrity.py:79-80 | a list becomes the array of its items' forms |
| Integrity.SameEncodingIffReordered | src/finvet/audit/integrity.py:144-159 | two normal values have one encoding exactly when they differ only in key order, at any depth |
| Integrity.ReadBackVerifies | src/finvet/audit/integrity.py:196-207 | an envelope read back with permuted keys and its numbers intact verifies, for every digest |
| Integrity.SurvivesIff | src/finvet/audit/integrity.py:144-159 | what JSONB gives back differs at most in key order exactly when no number is a negative zero or a float of magnitude 1e16 or more |
| Integrity.StoredVerifiesIff | src/finvet/audit/integrity.py:196-207 | a stored envelope read back verifies if its numbers survive, and only then when no other encoding has its digest |
| Integrity.LargeFloatDoesNotVerify | src/finvet/audit/integrity.py:196-207 | a response showing a claimed value of 1e16 is read back as one that does not verify |
| Integrity.OnlyReorderingsVerify | src/finvet/audit/integrity.py:196-207 | when no other encoding has the envelope's digest, nothing but a reordering of it verifies |
| Checksums.ChecksumDefined | src/finvet/audit/integrity.py:102-159 | an envelope's checksum is refused exactly when its confidence, response, sources, model configuration or an event's data cannot be represented |
| Checksums.MarkingIsDefined | src/finvet/audit/database.py:415-429 | marking a row for reconciliation never makes its checksum refused |
| Checksums.EveryStoredEnvelopeVerifies | src/finvet/audit/integrity.py:196-207 | every row of every reachable state, read back from JSONB with keys permuted at any depth, verifies against its execution hash if its numbers survive, and only then when no other encoding has that hash |
| Checksums.ChecksumCovers | src/finvet/audit/integrity.py:102-159 | two envelopes have one canonical form if and only if they agree in every field: request, claim, status, verdict, agents, events in order, free values, recovery and review |
| Checksums.EditedEnvelopeDoesNotVerify | src/finvet/audit/integrity.py:196-207 | in every reachable state, under a hash that keeps the row's encoding apart, an envelope verifies against the row if and only if it agrees with the row's own in every field |
| AuditRecords.CanonicalOrderUnique | src/finvet/audit/integrity.py:90-99 | any two arrangements of events with distinct ids are put in one order |
| AuditRecords.CanonicalOrderIsByTime | src/finvet/audit/integrity.py:90-99 | events are kept, all of them, by timestamp and then by id |
| AuditRecords.InsertedLooksUp | src/finvet/audit/database.py:95-129 | reconciling violates the key exactly when two missing events share an id, keeps old events and adds each missing one |
| AuditRecords.NewRowOk | src/finvet/audit/database.py:159-202 | a committed row repeats its envelope, which holds the report and its events in order, and carries its digest |
| AuditRecords.MarkedRowOk | src/finvet/audit/database.py:401-429 | a row marked for reconciliation still repeats its envelope, but for the verdict, and carries its digest |
| AuditRecords.FinalizedRowOk | src/finvet/audit/database.py:510-547 | so does a reviewed one; its review block holds the decision and the checksum of exactly the envelope it replaced |
| AuditRecords.DriftOfRow | src/finvet/audit/integrity.py:162-193 | before a review is finished only the verdict can drift, exactly while one is in flight; afterwards only llm_config and data_sources |
| AuditRecords.EventsAgreeIff | src/finvet/audit/integrity.py:190-192 | for any row the events are reported unless the envelope lists exactly the table's, each as often, in order |
| AuditRecords.EditedColumnsDrift | src/finvet/audit/integrity.py:162-193 | whatever columns of an undrifted row are edited, exactly the edited ones are reported |
| AuditTrail.StepKeepsInv | src/finvet/audit/database.py:131-212 | every call, whether its transaction goes through or not, keeps ids unique, trails consistent and hashes equal to digests |
| AuditTrail.EveryRunKeepsInv | src/finvet/audit/database.py:379-551 | in every reachable state each row's hash is the digest of its envelope |
| AuditTrail.EveryRunBoundsDrift | src/finvet/audit/integrity.py:162-193 | in every reachable state the hash is the envelope's digest and only the allowed fields can drift |
| AuditTrail.CommitConverges | src/finvet/audit/logger.py:119-146 | a commit goes through unless refused and leaves table, row and envelope with the same events and no drift; a refused one has no effect |
| AuditTrail.EveryRunConverges | src/finvet/audit/logger.py:24-146 | so it does after every run, whatever immediate writes failed and whatever other requests did |
| AuditTrail.LaterEventsDrift | src/finvet/audit/integrity.py:190-192 | until a review's outcome the row drifts on its events exactly when the table has gained an event of the request since it agreed |
| AuditTrail.FinalizationLosesNothing | src/finvet/audit/logger.py:185-216 | the events for finalization are, each once and in order, all that are buffered or persisted |
| AuditTrail.FinalizeConverges | src/finvet/audit/database.py:510-547 | a review finalized over them leaves no drift except llm_config and data_sources |
| AuditTrail.FinalizeAfterRead | src/finvet/api/routes/review.py:176-215 | with anything happening between reading the events and writing the outcome, the buffer's release included, it drifts on its events exactly when an event not known at the read had reached the table |
| AuditTrail.CommitIsCopyStoreRelease | src/finvet/audit/logger.py:124-146 | uninterrupted, copying, storing and releasing are the one step of a commit |
| AuditTrail.InterruptedCommit | src/finvet/audit/logger.py:124-146 | with anything logged between them the row drifts on its events exactly when one not copied is in the table, and the release forgets exactly the uncopied ones whose write failed |
| AuditTrail.DiscardForgets | src/finvet/audit/logger.py:148-156 | a discard forgets exactly the request's events the table lacks |
| AuditTrail.DiscardedEventsAreMissed | src/finvet/api/routes/review.py:395-401 | after a failed reconcile the next attempt lists everything exactly when no buffered event's write had failed |
| AuditStore.AuditDatabase.LogEvent | src/finvet/audit/database.py:45-93 | one event added, or nothing on a duplicate id or a failed write |
| AuditStore.AuditDatabase.InsertMissingEvents | src/finvet/audit/database.py:95-129 | the loop computes the reconciled table or the key violation |
| AuditStore.AuditDatabase.CommitExecution | src/finvet/audit/database.py:131-212 | row and missing events together; nothing on a duplicate request, a key violation or a failed transaction; an exception exactly when the checksum is refused |
| AuditStore.AuditDatabase.Claim | src/finvet/audit/database.py:322-358 | the conditional update and its four answers |
| AuditStore.AuditDatabase.Leave | src/finvet/audit/database.py:360-377 | the conditional update out of REVIEWING, to PENDING or to the recovery state |
| AuditStore.AuditDatabase.MarkReviewFinalizationFailed | src/finvet/audit/database.py:379-434 | column, envelope and digest move together, from REVIEWING only |
| AuditStore.AuditDatabase.FinalizeReview | src/finvet/audit/database.py:487-551 | outcome, envelope, digest and missing events together, from REVIEWING only |
| AuditStore.AuditDatabase.GetEvents | src/finvet/audit/database.py:257-284 | exactly the request's events, each once, by (timestamp, id) |
| AuditStore.AuditLogger.LogEvent | src/finvet/audit/logger.py:24-84 | buffered whatever becomes of the write |
| AuditStore.AuditLogger.LogEventPersisted | src/finvet/audit/logger.py:86-95 | True exactly when the event was written if no other thread set the flag in between, and otherwise what the last of them set |
| SharedFlag.ToldTrulyIff | src/finvet/audit/logger.py:74-95 | over every interleaving of calls on all threads, a call is told truly whether its event was written, whichever transactions go through, if and only if no other has set the flag since it did |
| SharedFlag.WriteTells | src/finvet/audit/database.py:74-93 | in every interleaving a call's write returns whether its event is in the table |
| SharedFlag.OvertakenIsMistold | src/finvet/audit/logger.py:74-95 | an interleaving of two calls in which a lost event is reported written, or a written one lost |
| AuditStore.AuditLogger.CommitExecution | src/finvet/audit/logger.py:97-146 | a failed or refused commit leaves the buffer, a successful one releases it |
| AuditStore.AuditLogger.EventsForFinalization | src/finvet/audit/logger.py:185-216 | persisted events over buffered ones, sorted, or nothing when the strict read fails |
| AuditStore.ExecutionFinalizer.Finish | src/finvet/api/execution.py:235-261 | only the first call has an effect; it commits, gives the buffer up, or passes the checksum's exception on with all as it was |
| AuditStore.ExecutionFinalizer.Release | src/finvet/api/execution.py:263-269 | drops the request's buffer and does nothing once it is gone |
| AuditStore.ExecutionFinalizer.FinishPipelineOutcome | src/finvet/api/execution.py:279-311 | ends the run with the status and body its outcome calls for |
| AuditStore.HowARunEnds | src/finvet/api/execution.py:235-261 | the buffer is gone on success and on failure and kept on refusal; no row without success; other requests untouched |
| AuditStore.WhatARunRecords | src/finvet/api/execution.py:235-311 | the row of a recorded run shows, in columns and envelope, the paused, failed or own body of the run, its status and all events buffered for it |
| AuditStore.ReleasedAfterEnd | src/finvet/api/execution.py:235-269 | after release the buffer is gone however the run ended, and nothing else is |
| AuditStore.RefusedExactly | src/finvet/audit/database.py:170-182 | finish passes an exception on exactly when the canonical form of the envelope is undefined |
| AuditStore.NonFiniteClaimLeavesNoRow | src/finvet/api/execution.py:242-261 | a response that shows a claimed value that is not finite ends a run with no row and its buffer kept, whatever the verdict |
| AuditStore.CommittedOnce | src/finvet/api/execution.py:235-261 | a recorded request is never recorded again, by any finalizer |
| AuditStore.PausedIffPending | src/finvet/api/execution.py:151-166 | with a response that is not itself PENDING, the row is PENDING exactly when the run was paused |
| ReviewProtocol.MoveKeepsInv | src/finvet/api/routes/review.py:24-401 | every move of a reviewer, reconciler or crash keeps one holder per request, its row REVIEWING, and the entered rows past PENDING |
| ReviewProtocol.EveryPlayKeepsInv | src/finvet/audit/database.py:322-551 | so does every interleaving |
| ReviewProtocol.NewSystemOk | src/finvet/audit/database.py:42-43 | an empty store with no clients satisfies the invariant |
| ReviewProtocol.TerminalRowsStay | src/finvet/audit/database.py:322-551 | a row with a verdict is never changed again in any field |
| ReviewProtocol.EnteredRowsNeverReturn | src/finvet/api/routes/review.py:127-152 | once the graph was entered, on a decision, the row never returns to PENDING |
| ReviewProtocol.RecordedDecisionIff | src/finvet/api/routes/review.py:301-371 | over every play a finished review records the decision entered on if and only if no reconciler failed to read it and took it for an approval |
| ReviewProtocol.GraphEnteredOnce | src/finvet/api/routes/review.py:268-277 | over every interleaving no two moves resume the graph of one request |
| ReviewProtocol.EnteredIff | src/finvet/api/routes/review.py:268-277 | and it counts as entered exactly if one of them did |
| ReviewProtocol.LeavesQueueOnlyWhenCompleted | src/finvet/audit/database.py:553-573 | a row leaves the queue only when its holder finalizes it |
| ReviewProtocol.QueuedUntilFinal | src/finvet/audit/database.py:553-573 | a paused row is in the queue in every state until it has a verdict |
| ReviewProtocol.StrandedStays | src/finvet/audit/database.py:559-569 | a REVIEWING row nobody holds never changes again |
| ReviewProtocol.StrandedOnlyBy | src/finvet/api/routes/review.py:24-401 | a move strands a row if and only if it is its holder's crash or its holder's last transition that is not written |
| ReviewProtocol.ReviewingRowCanLeaveIffHeld | src/finvet/audit/database.py:559-569 | some run moves a row out of REVIEWING if and only if a live handler holds it |
| ReviewExamples.CrashStrands | src/finvet/audit/database.py:559-569 | a play that ends with a stranded row |
| ReviewExamples.UnreadRejectionIsApproved | src/finvet/api/routes/review.py:301-371 | a play in which a rejection is recorded as an approval |
| ReviewExamples.ApprovalDropsModels | src/finvet/audit/database.py:523-533 | a play after which the row drifts on its model configuration |
| ReviewExamples.FailedReconcileLosesEvent | src/finvet/api/routes/review.py:395-401 | a play that loses an event whose write failed |
| Chunker.TokenWindows | src/finvet/rag/parser.py:286-308 | the loop produces ceil((n - overlap)/(max - overlap)) windows, each the specified slice |
| Chunker.NeighboursShareOverlap | src/finvet/rag/parser.py:299-307 | each window has at most max tokens and more than overlap, and neighbours share exactly overlap tokens |
| Chunker.WindowsStitchBack | src/finvet/rag/parser.py:299-307 | dropping the shared prefixes the windows are the original tokens and text |
| Chunker.Atoms | src/finvet/rag/parser.py:311-332 | the nested loops compute the specified list of atoms; AtomsAreTheText says what it is of the lines and sentences |
| Chunker.AtomsAreTheText | src/finvet/rag/parser.py:318-332 | in order and nothing else: each line that fits, of a longer line each sentence that fits, of a longer sentence its windows of tokens |
| Chunker.OneCut | src/finvet/rag/parser.py:318-332 | and a text can be cut so in one way only |
| Chunker.AtomsFit | src/finvet/rag/parser.py:311-332 | no atom is over the ceiling, whatever the splitters return |
| Chunker.PackIsPacked | src/finvet/rag/parser.py:381-411 | the pieces split the atoms into consecutive nonempty runs, each within the ceiling, as long as it can be, and carrying overlap exactly when it fits |
| Chunker.PackedIsPack | src/finvet/rag/parser.py:381-411 | and are the only pieces that do |
| Chunker.ChunkSection | src/finvet/rag/parser.py:361-416 | the buffer loop emits those pieces, numbered from 0, but for a final one of at most 20 tokens |
| Chunker.ChunkSections | src/finvet/rag/parser.py:335-418 | raises exactly on an overlap outside [0, max) and else concatenates the sections' chunks |
| Chunker.SectionChunked | src/finvet/rag/parser.py:335-418 | the chunks are the one packing of the section's lines, sentences and windows: nothing is lost except possibly one final piece of at most 20 tokens, every chunk is within max tokens and carries its section's name, title, part and item |
| Chunker.SectionsInOrder | src/finvet/rag/parser.py:359-361 | sections are chunked one after another, each on its own |
| Chunker.TrailingTokensAre | src/finvet/rag/parser.py:421-426 | what is carried over is the decoded last overlap tokens of a chunk, a suffix of its text |
| Chunker.OverlapWhenItFits | src/finvet/rag/parser.py:381-409 | a chunk ends only where its next atom would not fit, and the next begins with its last overlap tokens exactly when they fit with that atom |
| Headings.PrefixSums | src/finvet/rag/parser.py:196-201 | the array holds the amount of text before each node |
| Headings.SelectHeadings | src/finvet/rag/parser.py:204-224 | keeps, in document order, exactly the first candidate with the largest span under each key |
| Headings.OneWinnerPerKey | src/finvet/rag/parser.py:213-218 | every key has one winner and only one |
| Headings.PartsSeparate10Q | src/finvet/rag/parser.py:215 | two headings compete exactly when their items are one and, in a 10-Q, their parts |
| Headings.SpansDivideText | src/finvet/rag/parser.py:204-211 | the spans sum to the text from the first candidate to the end of the document |
| Headings.SectionsAreDisjoint | src/finvet/rag/parser.py:226-244 | the intervals between kept headings are disjoint, in order, and hold at least the text their heading won by |
| RankFusion.FloorKeepsPrefix | src/finvet/rag/service.py:398-405 | the similarity floor keeps a prefix of the dense arm, so survivors keep their ranks |
| RankFusion.Search | src/finvet/rag/service.py:393-428 | returns the right number of distinct candidates with their fused scores and ranks, best first, none outscored by one left out, in whatever order the set is walked |
| RankFusion.BothOutrankOne | src/finvet/rag/service.py:107-118 | what both arms found outscores what one found, for arms of up to 61 rows |
| RankFusion.AgreementComesFirst | src/finvet/rag/service.py:420-428 | so all of it precedes, and none is left out for, what one arm found |
| RankFusion.BetterRankScoresMore | src/finvet/rag/service.py:107-118 | a better rank is worth strictly more, no rank nothing |
| RankFusion.DominatorComesFirst | src/finvet/rag/service.py:420-428 | a chunk that no arm ranks below another and one ranks above it precedes it whenever that is returned |
| RankFusion.HitShowsRanks | src/finvet/rag/service.py:403-424 | a hit's ranks are its positions in the arms, None where it is not, and its score is their shares |
| RankFusion.SliceTakes | src/finvet/rag/service.py:428 | how many are returned for every top_k, negative ones included |

## Left out

- Pipeline.WhatAVerdictMeans: takes the calendar as given; AnsweredPeriodIsWitnessed and CalendarMeaning.BuildFiscalCalendar add what a built one promises.
- ReviewProtocol.QueuedUntilFinal: says nothing of when a row is finalized; a crash can strand it, and ReviewingRowCanLeaveIffHeld says exactly when.
- AuditTrail.EveryRunConverges: a commit is one step; InterruptedCommit says what events logged within it change.
- AuditTrail.StepKeepsInv: event ids are taken to be new, as uuid4 makes them; a collision is not modelled.
- FactSelection.SelectFact: values compare as real numbers, so Python's int and float arithmetic and rounding are not modelled.
- Verdicts.RaisedOverrideReview: the exception is a flag; with typed inputs nothing in `_apply_override` is known to raise one.
- SecEdgar.FiscalAnchorFor: digits are the ten ASCII ones; str.isdigit and int also take others.
- Dates.Parse: reads full-dates only; the other forms newer versions of date.fromisoformat accept (basic and week dates) are not modelled.
- Checksums.EveryStoredEnvelopeVerifies: dictionary keys are strings; a key that is not, which is hashed as str() and stored as JSON writes it, is not modelled, nor that the store rejects Decimals and dates the checksum accepts.
- Integrity.Checksum: the JSON text and SHA-256 are one arbitrary function of the canonical tree, in which 1 and 1.0 are different numbers; strings that cannot be encoded as UTF-8 are not modelled.
- Chunker.AtomsFit: the tokenizer laws (decoding undoes encoding and distributes over concatenation; a decoded slice does not grow) are assumed, and splitting into stripped lines and sentences is a parameter.
- Language models, prompts, the tool loop, HTTP and MCP clients, downloads and caches: external; facts, tool records and answers are inputs.
- SQL, embeddings and ts_rank: search arms are ranked lists, transactions atomic steps, and the foreign key from an event to its parent is not modelled.
- BeautifulSoup, the item and penalty regular expressions and currency detection: nodes, headings and extracted amounts are inputs.
- Concepts, forms, fiscal periods and status names are enumerations rather than strings; nested JSON facts are flattened in the order the program meets them.
- `_select_entity_wide_fact` and the non-anchor path of `_choose_fact_for_period`: they take the first of several matches.
- Row timestamps, claim hashes, execution times and the listing queries other than the review queue: stored or filtered without affecting what is proved.
- The Streamlit interface, settings, evaluation scripts, redaction, guards and the A2A status table.
