# Tariff order reading: a verified model

The repository turns tariff-order PDFs into reviewed facts. This project models the six parts of that
pipeline that carry state, search or recovery, and proves what they promise. Rows, pages, lines, grids and
JSON texts are plain data; the main loops of the source are loops here, and the records it changes in place
are objects or running values here. Each loop is proved equal to a function of its inputs, and the theorems
are about that function, for all inputs and all runs.

1. **The lease-fenced job queue** (`JobQueue`, `JobQueueRuns`, `JobQueueFields`, `JobQueueTheorems`). A class
   holds the job table and the event log; a transition system interleaves any number of workers, with `complete`
   and `fail` split into their unlocked read and their fenced write, as the code has them. Proved over every
   interleaving: a fence passes exactly for the latest claim of a leased job; a superseded run never writes
   again; terminal statuses absorb; the two-step operations act as one step; the log determines the row;
   each field is what the actions on the row gave it last, so a lease of L seconds shuts everybody out for
   L seconds; runs are bounded; checkpoints never go back.
2. **Two-reader table agreement** (`Readers`, `ReaderAgreement`, `ReportLaws`). Box areas are real numbers.
   Greedy pairing by overlap is the one correct matching exactly when no box is cut in two equal halves at a
   threshold of one half; the report on each pair tells how the printed texts of its two grids differ.
3. **Grid integrity** (`GridColumns`, `ColumnLaws`, `GridIntegrity`, `GridCitations`, `GridLaws`,
   `HandoverLaws`) with **numbers and slabs** (`Numbers`, `Slabs`). Column merging loses no text, is idempotent
   and partitions the columns; the row loop refines a declarative rule for carried labels and values; every
   printed cell is accounted for, every citation is true, and each cell stands under its own headings and
   carries its own row's labels.
4. **Recovery of model output** (`Json`, `JsonLaws`, `JsonPrint`, `Salvage`, `Unstringify`). A parser and a
   printer for JSON (sections 2, 4, 5 and 7 of RFC 8259). Salvage is exact on every cut of a text of objects,
   and it is known exactly of which other texts; un-stringifying is a normal form.
5. **Merging, comparing and routing candidates** (`Merging`, `Facts`, `Extraction`, `Channels`,
   `Comparison`, `ComparisonLaws`, `PairingLaws`, `LoneRowLaws`, `Routing`, `MergeLaws`). In-place merging loses
   no place, key or label; three-pass matching puts each reading in exactly one result; what is offered for
   batch review was read by both channels with one meaning and nothing in doubt; and it is told on the readings'
   own fields which are merged, which stay apart, which are paired and which survive.
6. **Document walkers** (`Localisation`, `RegionLaws`, `ClauseOutline`, `ClauseLaws`, `ClauseValueLaws`). Span
   growing, the approved-region safety claim, what the regions and findings tell of the cues, and the
   line-driven clause state machine with what each value takes from the lines before it.

`Basics`, `Text` and `Sorting` hold shared vocabulary: lists, white-space cleaning, stable sorting.

## Assumptions

- Queue: run ids are fresh, there is one clock, `max_attempts` is at least 1, each run does its own steps in
  order, and `request_cancel` is one step. So is `enqueue`: the code looks for the key and then inserts, and
  the unique constraint on the key makes the later of two racing inserts raise instead of adding a row. The
  fence does not look at the expiry time, so an expired run that nobody has reclaimed may still write; the
  model keeps that.
- Readers: `GreedyIsTheMatching` takes each reader's boxes to be non-degenerate and apart from each other, and
  the second reader's ordinals to be distinct. Reporting each grid once needs the ordinals only.
- Localisation: page indices are distinct.
- Records changed in place (candidates, slab bounds) are different objects.
- `MergeLaws.SeasonsStayApart` and `PairingLaws.SelfRow` take the text rules to find nothing in an empty text.
- Text rules that the source writes as regular expressions and tables are parameters of the model
  (`Rules`, `Profile`), except where a theorem is about the text itself: white space, JSON, digit grouping.

## Findings

Where the code does not do what its documentation says, the code is modelled, an input shown and the exact
condition proved.

- Greedy pairing at threshold 0.5 leaves a meeting pair unpaired when a box is cut exactly in two. Exact
  condition: `ReaderAgreement.GreedyIsTheMatching`; input: `ReaderAgreement.TwoHalvesOfATable`.
- A span is documented to end before the first stop page, but a hit on a stop page or image is taken in when
  it stands directly after the span that the walk from an opening hit reaches, and an illustrative, derived or
  amendment cue on that page is then reported nowhere, although the answer may be `proposed`. Exact condition,
  on the hits: `Localisation.StopsKeptOut`, and within `Localisation.ProposedIsSafe`; input:
  `Localisation.StopPageIsApproved`.
- Several approved spans are documented to make the answer ambiguous, but a cue of the approved role with page
  scope, which is the default scope, adds to the approved pages of an answer that stays `proposed`: a second
  region, or an extension past where the span ended. Exact condition, within `Localisation.ProposedIsSafe`: the
  walked region is the one approved region if and only if no page has such a cue; input:
  `Localisation.PageScopeDoubles`.
- The third pairing pass is documented to pair only a row that one reading on each side names. Exact
  condition, on the readings left over when the pass begins: `LoneRowLaws.ThirdPassIsExact`. It fails in two
  ways (`LoneRowLaws.TwoWaysToFail`): a reading that names no row is not its own rival and takes a row that
  another one names (`PairingLaws.NamelessReadingTakesTheRow`; by `LoneRowLaws.NamelessIsAmbiguous` the pair is
  not of a row that one reading on each side names), or the image reading's name holds the names of two
  different rows (`LoneRowLaws.NamedReadingTakesTheRow`).
- Under a two-column header, the third and later amounts of a line are dropped, and so are amounts that only
  the number of a pure title makes up. Exact condition: `ClauseLaws.AmountsConserved`; input:
  `ClauseLaws.ThirdAmountIsLost`.
- Readings that name two seasons are documented to be different rows, but they become one when a reading of the
  same value that names no season comes first: both are merged into it. Exact condition, for readings of one
  value that are alike but for their seasons: `MergeLaws.SeasonsOfTwins` (they stay apart if and only if the first
  of them names a season, or no two name different ones); for all readings, those that each name a season stay
  apart (`MergeLaws.SeasonsStayApart`); input: `MergeLaws.SummerMeetsWinter`.
- A spanning value is documented to go on from the last row of one page to the first rows of the next, but it
  is handed over under the reader column that its cell cites and taken up by the merged column of that number.
  Where sub-columns were merged it appears under the next heading. Exact condition:
  `HandoverLaws.HandedToOwnColumn`; input: `HandoverLaws.ValueGoesAstray`.
- A boundary that is not a whole number is always marked ambiguous, even where two slabs share no amount and
  leave none out, as "up to 2.5" and "above 2.5". Exact condition: `Slabs.FractionsAreMarked`; input:
  `Slabs.HalfIsMarked`.

The salvage of a cut array is documented for objects only, and is exact for them. For any items it is exact at
every cut if and only if each number among them has one digit, signed or not (`Salvage.CutsAreExact`;
`Salvage.NumbersCanBeCut` shows a cut number).

## Model

| member | source | states |
|---|---|---|
| JobQueue.Queue.Enqueue | services/api/src/tariff_api/queue.py:38-66 | inserts a queued job with its event unless the idempotency key exists, and says which |
| JobQueue.Queue.Choose | services/api/src/tariff_api/queue.py:69-92 | picks a claimable, unlocked row that no other such row precedes by priority and age, or says there is none |
| JobQueue.Queue.Claim | services/api/src/tariff_api/queue.py:95-140 | leases the chosen row until the lease runs out, records a reclaim of an expired lease, and fails the job instead when its attempts are used up |
| JobQueue.Queue.Heartbeat | services/api/src/tariff_api/queue.py:153-163 | extends the lease under the fence and reports a cancel request; a lost fence changes nothing |
| JobQueue.Queue.Checkpoint | services/api/src/tariff_api/queue.py:166-185 | saves stage, checkpoint and progress under the fence, with its event |
| JobQueue.Queue.FinishComplete | services/api/src/tariff_api/queue.py:188-202 | the fenced half of completion, with the progress read before |
| JobQueue.Queue.FinishFail | services/api/src/tariff_api/queue.py:205-253 | the fenced half of failure: re-queues or fails by the counters read before |
| JobQueue.Queue.CancelFromWorker | services/api/src/tariff_api/queue.py:256-260 | cancels under the fence |
| JobQueue.Queue.RequestCancel | services/api/src/tariff_api/queue.py:263-274 | cancels a queued job, flags a leased one, and refuses the rest |
| JobQueueRuns.InvNext | services/api/src/tariff_api/queue.py:38-274 | every enabled step of every worker keeps the invariant that ties rows, log and what runs remember |
| JobQueueTheorems.FenceIsLatestClaim | services/api/src/tariff_api/queue.py:143-150 | the fence passes for exactly the run of the log's latest claim while the log says leased |
| JobQueueTheorems.StepKeeps | services/api/src/tariff_api/queue.py:95-274 | a step leaves a row alone unless it claims it, passes its fence or requests its cancellation; run and budget change by claims only |
| JobQueueTheorems.SupersededForever | services/api/src/tariff_api/queue.py:143-274 | once a run has lost a job, no interleaving gives it back and none of its writes lands |
| JobQueueTheorems.TakeoverSupersedes | services/api/src/tariff_api/queue.py:69-140 | a claim supersedes every earlier run at once |
| JobQueueTheorems.TerminalForever | services/api/src/tariff_api/queue.py:188-274 | a terminal row never changes again and gets no further event |
| JobQueueTheorems.CompleteIsAtomic | services/api/src/tariff_api/queue.py:188-202 | read-then-fenced-write completion equals completion in one step at the write |
| JobQueueTheorems.FailIsAtomic | services/api/src/tariff_api/queue.py:205-253 | read-then-fenced-write failure equals failure in one step at the write |
| JobQueueTheorems.FailDecision | services/api/src/tariff_api/queue.py:205-253 | a fenced failure re-queues exactly when a retry was asked for and attempts remain, and says why it did not |
| JobQueueTheorems.ProgressIsLastCheckpoint | services/api/src/tariff_api/queue.py:166-185 | an unfinished job's progress is that of the last checkpoint that got through, over any history |
| JobQueueTheorems.CompletedProgress | services/api/src/tariff_api/queue.py:188-202 | final progress is the last checkpoint's, overridden by the result |
| JobQueueTheorems.LogReplays | services/api/src/tariff_api/queue.py:62-66 | status, attempts, run, checkpoint, lease and finish fields are what the job's own events replay to, in every reachable state |
| JobQueueTheorems.OneJobPerKey | services/api/src/tariff_api/queue.py:50-52 | no two jobs share an idempotency key in any reachable state |
| JobQueueTheorems.RunsAreBounded | services/api/src/tariff_api/queue.py:95-128 | at most max_attempts runs are handed out per job, over any history |
| JobQueueTheorems.ExhaustedOnlyOnReclaim | services/api/src/tariff_api/queue.py:115-128 | a claim fails a job for want of attempts only when it reclaims an expired lease of the last attempt |
| JobQueueTheorems.MeasureFalls | services/api/src/tariff_api/queue.py:95-253 | a measure of attempts left and status falls on every claim and status change and never otherwise |
| JobQueueTheorems.MovesAreBounded | services/api/src/tariff_api/queue.py:95-253 | no interleaving moves a job more often than that measure |
| JobQueueTheorems.CheckpointsMonotone | services/api/src/tariff_api/queue.py:166-185 | runs that write at or beyond what they were handed make the stored checkpoint monotone over crashes and takeovers |
| JobQueueFields.RowIsWhatActionsGave | services/api/src/tariff_api/queue.py:38-274 | in every execution a row has the order, waiting time, cancel flag, life sign, stage, start and finish that the actions on it gave last |
| JobQueueFields.LeaseIsWhatActionsGave | services/api/src/tariff_api/queue.py:69-163 | a leased row has the owner and the end of lease that the last claim or fenced heartbeat gave: its time plus its seconds |
| JobQueueFields.ErrorIsLastFailure | services/api/src/tariff_api/queue.py:115-253 | the error of a row is that of the last failure that got through, if any |
| JobQueueFields.LeaseShutsOut | services/api/src/tariff_api/queue.py:69-92 | a lease given at T for L seconds bars every claim of the job up to T + L, and after that a claim of it is enabled |
| JobQueueFields.WaitingShutsOut | services/api/src/tariff_api/queue.py:69-92 | a queued job cannot be claimed before the time it was enqueued or given back for, and can from then on |
| JobQueueFields.EndShutsOut | services/api/src/tariff_api/queue.py:69-92 | a finished job is never claimed |
| JobQueueFields.ClaimsInOrder | services/api/src/tariff_api/queue.py:69-92 | a claim passes over no unlocked job on offer of higher priority, or of the same priority and earlier creation |
| JobQueueFields.EventsTell | services/api/src/tariff_api/queue.py:38-274 | a step adds to the log exactly the events that say who did what to which job |
| Text.CleanIsClean | services/api/src/tariff_api/readers.py:52-57 | a cleaned text has no outer, doubled or other white space |
| Text.CleanKeepsWords | services/api/src/tariff_api/readers.py:52-57 | a cleaned text is the words of the text, in order, with one space between them |
| Readers.TwoPartnersAreHalves | services/api/src/tariff_api/readers.py:283-290 | a box reaches an overlap of one half with two disjoint boxes only by being cut exactly in two |
| Readers.IoUSymmetric | services/api/src/tariff_api/readers.py:283-290 | overlap does not depend on which box comes first |
| Readers.NormalisedIsNormal | services/api/src/tariff_api/readers.py:83-100 | a normalised grid is clean and rectangular and has no empty row or column |
| Readers.NormalisedIdempotent | services/api/src/tariff_api/readers.py:83-100 | normalising again changes nothing |
| Readers.NormalisedKeeps | services/api/src/tariff_api/readers.py:83-100 | normalising keeps exactly the rows and columns that hold a text, in order, with the cleaned texts |
| ReaderAgreement.CompareGrids | services/api/src/tariff_api/readers.py:293-336 | the comparison of two grids is the declared one on their normal forms; what that one tells is `ReportLaws.PairIsTrue` |
| ReaderAgreement.DiffsExact | services/api/src/tariff_api/readers.py:301-304 | the disagreement list holds exactly the cells that differ, with both texts |
| ReaderAgreement.ScoreIsShare | services/api/src/tariff_api/readers.py:299-323 | the equality and the score lie between 0 and 1, and the score is 1 exactly when the two tables are the same, not empty, and have the same header rows |
| ReaderAgreement.DefaultClasses | services/api/src/tariff_api/readers.py:309-322 | with the default thresholds the class is decided by counting cells: one in fifty, one in five |
| ReaderAgreement.FindPartner | services/api/src/tariff_api/readers.py:348-355 | the inner loop finds the unused grid of greatest overlap, if that reaches the threshold |
| ReaderAgreement.ScoreAgreement | services/api/src/tariff_api/readers.py:339-395 | the two loops give the greedy report |
| ReaderAgreement.GreedyIsTheMatching | services/api/src/tariff_api/readers.py:346-358 | for disjoint boxes the pairing is exactly the set of pairs over the threshold, whatever the list order, if and only if there is no half tie at 0.5 |
| ReaderAgreement.HalfTieMissesAPair | services/api/src/tariff_api/readers.py:346-358 | a half tie leaves a meeting pair unpaired |
| ReaderAgreement.TwoHalvesOfATable | services/api/src/tariff_api/readers.py:346-358 | a table that the other reader sees as two halves, each reader's boxes apart, meets both and is paired with one |
| ReaderAgreement.PrimaryReportedOnce | services/api/src/tariff_api/readers.py:345-372 | every primary grid has exactly one report, in order |
| ReaderAgreement.SecondaryReportedOnce | services/api/src/tariff_api/readers.py:373-395 | every secondary grid is named by exactly one report |
| ReportLaws.TakesTheBest | services/api/src/tariff_api/readers.py:346-358 | a primary grid takes the first unused secondary grid of the greatest overlap, and none exactly when no unused one reaches the threshold |
| ReportLaws.TakesInTurn | services/api/src/tariff_api/readers.py:345-358 | what earlier primary grids took is used for the later ones |
| ReportLaws.PairIsTrue | services/api/src/tariff_api/readers.py:293-372 | the report on a primary grid compares it with the secondary grid it names: its list is the first fifty cells where the two normal forms differ, with both texts; its score is 1 exactly when they are equal, not empty and have as many header rows; with the default thresholds the class follows from counting these cells, and the tags from the class |
| ReportLaws.LeftOverIsTrue | services/api/src/tariff_api/readers.py:373-395 | each later report is on a secondary grid that no primary one took, tagged as empty exactly when no cell of it has a text |
| GridColumns.FindGroups | services/api/src/tariff_api/grid_integrity.py:200-212 | the greedy loop finds the declared groups of columns |
| GridColumns.CollapseSplitColumns | services/api/src/tariff_api/grid_integrity.py:194-225 | the loops give the declared merged rows and groups |
| GridColumns.GroupsTile | services/api/src/tariff_api/grid_integrity.py:194-225 | merged columns are consecutive runs that cover each reader column once |
| GridColumns.CollapseLosesNothing | services/api/src/tariff_api/grid_integrity.py:194-225 | each row keeps its non-empty texts, in order |
| GridColumns.CollapseIdempotent | services/api/src/tariff_api/grid_integrity.py:194-225 | merging a merged grid changes nothing |
| GridColumns.HeaderPaths | services/api/src/tariff_api/grid_integrity.py:116-134 | the loops build the declared path and inheritance mark of each column |
| GridColumns.PathHolds | services/api/src/tariff_api/grid_integrity.py:116-134 | a path holds exactly the headings over its column |
| GridColumns.PathHasNoRepeats | services/api/src/tariff_api/grid_integrity.py:116-134 | no heading is repeated at once |
| GridColumns.HeaderTextNearest | services/api/src/tariff_api/grid_integrity.py:116-134 | a heading stems from the nearest text at or left of its column |
| ColumnLaws.RunsAreMaximal | services/api/src/tariff_api/grid_integrity.py:200-212 | each greedy run has one text at most in a row and ends only where the next column would give some row two |
| ColumnLaws.MergedExactly | services/api/src/tariff_api/grid_integrity.py:194-225 | two reader columns share a merged one exactly when one greedy run holds both and has heading text and data text, in different columns |
| ColumnLaws.PathInOrder | services/api/src/tariff_api/grid_integrity.py:116-134 | a path lists the headings over its column top to bottom, each once for a stretch of equal ones |
| GridIntegrity.CarryLabels | services/api/src/tariff_api/grid_integrity.py:292-299 | one row's label loop takes the declared labels before the row to those after it |
| GridIntegrity.CellsOfRow | services/api/src/tariff_api/grid_integrity.py:309-366 | one row's cell loop gives the declared cells and hands on the declared spanning values |
| GridIntegrity.LabelStep | services/api/src/tariff_api/grid_integrity.py:292-298 | the rule "latest text of its column unless a column to the left has later text" changes with one row as the loop does |
| GridIntegrity.ValueStep | services/api/src/tariff_api/grid_integrity.py:309-366 | the rule "latest text at or after the last labelled row" changes with one row as the loop does |
| GridIntegrity.AnalyseGrid | services/api/src/tariff_api/grid_integrity.py:228-392 | the analysis emits exactly the declared cells, paths, label columns, flags and continuation; what these tell is in `GridLaws` |
| GridCitations.PlacesAreUnique | services/api/src/tariff_api/grid_integrity.py:341-362 | cells come in reading order and no two cite one place |
| GridCitations.CitationIsTrue | services/api/src/tariff_api/grid_integrity.py:341-362 | each cell's text is the cleaned text printed at the place it cites, or nothing is printed there and the cell is flagged as carried down |
| GridCitations.NoCellIsLost | services/api/src/tariff_api/grid_integrity.py:284-366 | each text below the header is in a divider, label or unit column or is cited by exactly one cell |
| GridCitations.FreshStartsEmpty | services/api/src/tariff_api/grid_integrity.py:271-280 | a grid that continues none is handed no label and no value |
| GridLaws.MergedIsPrinted | services/api/src/tariff_api/grid_integrity.py:194-225 | a merged cell holds what one of its reader columns prints, and no other of them prints anything else |
| GridLaws.CellStands | services/api/src/tariff_api/grid_integrity.py:309-366 | every cell stems from a value column of a row that is no divider, cites that row and a reader column of its own merged column, and stands under exactly the headings over that column, or under those of the page before where the header is taken over, with its header flags true |
| GridLaws.CellCarries | services/api/src/tariff_api/grid_integrity.py:283-304 | its row path is the non-empty labels that hold at its row, each the latest text of its column with nothing later to the left, then the level of the latest divider; it is flagged unresolved exactly when that is empty, and as merged exactly when its text or a label is carried down |
| GridLaws.CellSpans | services/api/src/tariff_api/grid_integrity.py:316-322 | its text is the value that spans into its place: the latest of its column since the row that last started anew, or else what was handed over |
| GridLaws.ValueGivesCell | services/api/src/tariff_api/grid_integrity.py:309-366 | every value column with such a value in a row that is no divider gives a cell with it |
| GridLaws.DividerIs | services/api/src/tariff_api/grid_integrity.py:286-290 | a divider is a row whose only text names a level |
| GridLaws.ColumnsAreTold | services/api/src/tariff_api/grid_integrity.py:254-266 | the label columns are those with few figures among their texts, and an empty first one; the unit column is the first whose header names a unit |
| GridLaws.ContinuesExactly | services/api/src/tariff_api/grid_integrity.py:238-250 | a grid takes the header of the page before over exactly when it follows it with as many columns and has none, and repeats it exactly when its last headings are the same, column by column |
| GridLaws.HandedOver | services/api/src/tariff_api/grid_integrity.py:267-281 | a continuation is handed the labels of the first cell, and under the cited columns the values of all cells, of the last row before it |
| GridLaws.FlagsAreTold | services/api/src/tariff_api/grid_integrity.py:232-252 | the flags of a grid are set exactly when two reader columns became one, and when its header is taken over, repeated or missing |
| HandoverLaws.HandedToOwnColumn | services/api/src/tariff_api/grid_integrity.py:267-281 | a continuation is handed each value of the last row in the value's own merged column if and only if each cell of that row cites the reader column of that number |
| HandoverLaws.ValueGoesAstray | services/api/src/tariff_api/grid_integrity.py:267-322 | a value under heading A, cited in the second of two merged sub-columns, spans into column B of the next page |
| Numbers.GroupedDecimalReadsBack | services/api/src/tariff_api/normalise.py:211-242 | a decimal printed plainly or in Indian or western grouping, bracketed when negative, reads back to the same digits and sign |
| Numbers.GroupingRecognised | services/api/src/tariff_api/normalise.py:41-44 | Indian and western groupings are recognised as numbers and never called irregular |
| Slabs.CheckSlabSequence | services/api/src/tariff_api/normalise.py:340-361 | the loop marks the records in place as the declared fold over the boundaries does |
| Slabs.PassesExactly | services/api/src/tariff_api/normalise.py:344-354 | a printed boundary passes exactly when both bounds are whole and the second slab starts one above the end of the first |
| Slabs.FractionsAreMarked | services/api/src/tariff_api/normalise.py:348-360 | at a boundary that is not whole the mark is true if and only if the slabs do not meet there |
| Slabs.HalfIsMarked | services/api/src/tariff_api/normalise.py:340-361 | two slabs that meet at 2.5 are marked as claiming it twice |
| Slabs.MarksAreExact | services/api/src/tariff_api/normalise.py:354-360 | no mark is left exactly when every boundary passes |
| Slabs.CoveredExactlyOnce | services/api/src/tariff_api/normalise.py:340-361 | an unmarked sequence of non-empty slabs covers each integer of its range exactly once |
| Slabs.OutsideIsFree | services/api/src/tariff_api/normalise.py:340-361 | it covers nothing outside its range |
| JsonLaws.ValueLocal | services/api/src/tariff_api/providers.py:195 | what is read of a value depends only on its own characters, as long as a number cannot go on |
| JsonPrint.RoundTrip | services/api/src/tariff_api/providers.py:173 | reading undoes printing |
| JsonPrint.ValueRead | services/api/src/tariff_api/providers.py:195 | a printed value reads back wherever it stands in a text |
| Salvage.SalvageTruncatedArray | services/api/src/tariff_api/providers.py:179-199 | the loop gives the declared salvage |
| Salvage.CutsAreExact | services/api/src/tariff_api/providers.py:179-199 | every cut of a text that starts an array gives back exactly the items complete before it, and is reported exactly when the bracket is gone, if and only if each number item has one digit, signed or not |
| Salvage.SalvageOfCut | services/api/src/tariff_api/providers.py:179-199 | for such a text, which complete items come back from one cut |
| Salvage.SalvageOfPrinted | services/api/src/tariff_api/providers.py:179-199 | of any prefix of a printed list of objects, exactly the objects printed completely come back, in order |
| Salvage.NumbersCanBeCut | services/api/src/tariff_api/providers.py:194-199 | a cut number can be salvaged as another number |
| Unstringify.LoadsSize | services/api/src/tariff_api/providers.py:171-173 | what is read from a text is no larger than the text, so un-stringifying ends |
| Unstringify.UnstringIsTheNormalForm | services/api/src/tariff_api/providers.py:160-176 | the result is the one plain value that the input is a stringified form of |
| Unstringify.SameResult | services/api/src/tariff_api/providers.py:160-176 | whichever arrays and objects were replaced by their text, at any nesting, the result is the same |
| Unstringify.UnstringIdempotent | services/api/src/tariff_api/providers.py:160-176 | un-stringifying again changes nothing |
| Unstringify.PrintedIsStringified | services/api/src/tariff_api/providers.py:160-176 | a container's printed text is a stringified form of it |
| Unstringify.RecoverPrinted | services/api/src/tariff_api/providers.py:202-211 | a member cut anywhere keeps exactly its complete objects, un-stringified |
| Unstringify.RecoverKeepsOthers | services/api/src/tariff_api/providers.py:202-211 | recovery touches no other member |
| Merging.FirstInIsFirstFit | services/api/src/tariff_api/extraction.py:603-610 | scanning the indices listed under a key finds the first kept element that fits |
| Merging.GroupsHoldAll | services/api/src/tariff_api/extraction.py:594-645 | each element is in exactly one group |
| Merging.GroupsObey | services/api/src/tariff_api/extraction.py:594-645 | a law that holds of an element alone and that a merge keeps holds of every survivor and its members |
| Facts.AddPlacesIs | services/api/src/tariff_api/extraction.py:618-620 | carrying evidence over cites both sides' places and keeps the first one first |
| Extraction.Candidate.TakeOver | services/api/src/tariff_api/extraction.py:618-631 | the winner takes the loser's places and what only the loser names, in place |
| Extraction.MergePair | services/api/src/tariff_api/extraction.py:612-631 | two objects become one of them, chosen by cell and block, with the declared merge |
| Extraction.MergeDuplicates | services/api/src/tariff_api/extraction.py:588-645 | the in-place loops leave different objects whose readings are the declared fold of the original readings |
| Extraction.SurvivorsAreFaithful | services/api/src/tariff_api/extraction.py:588-645 | each survivor cites all its members' places and no other, is one of them and a cell reading if any is, has a block, slab, description, frequency and unit if any has, and all members are the same printed value |
| Extraction.MergingLosesNothing | services/api/src/tariff_api/extraction.py:588-645 | places and keys are kept, other readings pass through in order, each candidate is in one group |
| MergeLaws.JoinsTheFirst | services/api/src/tariff_api/extraction.py:594-645 | a reading goes to the first survivor that nothing tells it apart from, on their own fields: value, unit, season, block or row; and is kept when there is none |
| MergeLaws.TwoStayExactly | services/api/src/tariff_api/extraction.py:594-645 | two readings are both kept, as they are, exactly when something tells them apart |
| MergeLaws.EqualIsTaken | services/api/src/tariff_api/extraction.py:594-645 | a reading equal to a survivor is no further survivor |
| MergeLaws.SeasonsStayApart | services/api/src/tariff_api/extraction.py:508-514 | readings that each name a season are in one group only when it is the same season, and the survivor names it |
| MergeLaws.SeasonsOfTwins | services/api/src/tariff_api/extraction.py:508-645 | readings of one value alike but for their seasons are never mixed if and only if the first names a season or no two clash, and become one if and only if the first names none or no two clash |
| MergeLaws.SummerMeetsWinter | services/api/src/tariff_api/extraction.py:508-645 | an input where the summer and the winter value become one |
| MergeLaws.OriginSurvives | services/api/src/tariff_api/extraction.py:612-631 | of each group the first cell reading survives, or the first reading where there is none, unless the first one with a block comes later and is of the same kind; its block is its own or else the first that any member has |
| ComparisonLaws.DictIsLast | services/api/src/tariff_api/extraction.py:840-841 | a channel keeps one reading for each key it reads, the last one |
| Channels.RunPass | services/api/src/tariff_api/extraction.py:851-866 | the loop of a pass takes matches out of the other channel as declared |
| Comparison.PairUp | services/api/src/tariff_api/extraction.py:847-875 | three passes and the listing of pairs and lone readings |
| Comparison.CompareChannels | services/api/src/tariff_api/extraction.py:839-876 | the loops give the declared results, one channel or two |
| ComparisonLaws.EachReadOnce | services/api/src/tariff_api/extraction.py:847-875 | each structure reading and each image reading is in exactly one result |
| PairingLaws.KeysAreUnique | services/api/src/tariff_api/extraction.py:867-875 | results come in key order and no key has two |
| PairingLaws.ResultsAreTrue | services/api/src/tariff_api/extraction.py:847-875 | a result says agree exactly when both channels read the row and seven equalities hold on the readings' own fields, and disagree when one fails; it lists exactly the fields that differ, and pairs only readings of one key, of one lettered row, or of a row for which one rival is counted |
| PairingLaws.PairingIsMaximal | services/api/src/tariff_api/extraction.py:851-855 | no two lone results have one key or one lettered row |
| MergeLaws.PairsAreOfOneRow | services/api/src/tariff_api/extraction.py:810-866 | two paired readings have one key, or are of one family, category, component and page and of one row by their season, time band and names |
| MergeLaws.LoneAreOfNoRow | services/api/src/tariff_api/extraction.py:810-875 | two lone results, one from each channel, have two keys and are not of one such table, block letter and row |
| PairingLaws.SelfRow | services/api/src/tariff_api/extraction.py:818-836 | a reading is on its own row exactly when it names one |
| PairingLaws.LoneRowIsItsOwn | services/api/src/tariff_api/extraction.py:861-862 | the one rival of a reading is the reading itself, and no other, exactly when it names its row |
| LoneRowLaws.ThirdPassIsExact | services/api/src/tariff_api/extraction.py:856-866 | every pair of the third pass is the only reading on either side that names the other's row if and only if, among the readings left over, no lone match of one structure reading is a match of another |
| LoneRowLaws.TwoWaysToFail | services/api/src/tariff_api/extraction.py:856-866 | where that fails, the reading names no row and is not its own rival, or it names a row that the other one does not share |
| LoneRowLaws.NamedReadingTakesTheRow | services/api/src/tariff_api/extraction.py:856-866 | a case where two readings of different rows both match one image reading and the first takes it |
| PairingLaws.NamelessReadingTakesTheRow | services/api/src/tariff_api/extraction.py:856-866 | a case where a nameless reading takes a row that another reading names |
| LoneRowLaws.NamelessIsAmbiguous | services/api/src/tariff_api/extraction.py:856-866 | at that input the pair is not of a row that one reading on each side names |
| Routing.DedupeCompared | services/api/src/tariff_api/extraction.py:888-931 | the loop gives the declared fold |
| Routing.SurvivorsAreBest | services/api/src/tariff_api/extraction.py:888-931 | each survivor is the first member of least rank but for its places, and cites all its members' primary places |
| Routing.BestIsFirstLeast | services/api/src/tariff_api/extraction.py:879-885 | no member ranks below it and none before it ranks with it |
| Routing.SurvivorIsPreferred | services/api/src/tariff_api/extraction.py:879-931 | a group keeps, but for its places, the member preferred to each earlier one with none preferred to it: an agreed result over others, then a cell reading, then one with a block |
| MergeLaws.ResultJoinsTheFirst | services/api/src/tariff_api/extraction.py:888-931 | a result goes to the first survivor from whose primary reading nothing tells its own apart |
| MergeLaws.ResultSeasonsStayApart | services/api/src/tariff_api/extraction.py:888-931 | results whose readings each name a season are in one group only when it is the same season |
| Routing.DedupeLosesNothing | services/api/src/tariff_api/extraction.py:888-931 | each result is in one group, each value read is still read, other results pass through in order |
| Routing.RouteOf | services/api/src/tariff_api/extraction.py:941-975 | the risk tags are exactly those raised, each once; batch exactly when the channels agree and none is raised |
| Routing.BatchIsSafe | services/api/src/tariff_api/extraction.py:839-975 | over all regions, what survives and is offered for batch review was read by both channels of one region as one row, with the seven fields equal, and has nothing in doubt: no missing or ambiguous field, no reference, none of the six flags, no scanned page, no new profile |
| Localisation.GrowSpan | services/api/src/tariff_api/localisation.py:148-175 | the two walking loops reach the declared end |
| Localisation.ApprovedSpan | services/api/src/tariff_api/localisation.py:133-216 | the candidate loop gives the declared candidates and findings |
| Localisation.SpanEndIsExact | services/api/src/tariff_api/localisation.py:148-175 | a span ends at the last reachable page with a schedule heading or hit, and then takes in the bare pages that follow, and no more |
| Localisation.CandidateIsSound | services/api/src/tariff_api/localisation.py:144-186 | a candidate starts at a hit, its other pages are hit pages or exist and are neither stop pages nor images, and the next one starts at least two pages after its end |
| Localisation.StopsKeptOut | services/api/src/tariff_api/localisation.py:136-186 | no candidate has a stop page, image or missing page beyond its first page if and only if no hit stands on such a page directly after the span that the walk from the latest opening hit before it reaches |
| Localisation.StopPageIsApproved | services/api/src/tariff_api/localisation.py:144-147 | a proposed answer whose approved region holds a page with an illustrative cue that no region and no finding tells of |
| Localisation.HitInExactlyOne | services/api/src/tariff_api/localisation.py:144-186 | every span hit lies in exactly one candidate |
| Localisation.LocaliseDocument | services/api/src/tariff_api/localisation.py:219-336 | the page loops give the declared answer; what that tells is in `RegionLaws` |
| Localisation.ProposedIsSafe | services/api/src/tariff_api/localisation.py:219-336 | a proposed answer has one walked region, all its pages exist, no exclusive-role or image-run region shares a page with it; it is the one approved region exactly when no page has an approved cue of page scope, and it keeps stop pages and images out, its first page aside, exactly when no hit on one stands directly after what the walk reaches |
| Localisation.PageScopeDoubles | services/api/src/tariff_api/localisation.py:236-271 | an approved cue of page scope on the first page of the span gives a proposed answer with two approved regions of the same page |
| RegionLaws.CueIsReported | services/api/src/tariff_api/localisation.py:236-275 | every cue that is not a span cue lies in a region of its role, sub-role and its page's utility, unless it is of an exclusive role on an approved page |
| RegionLaws.RegionHasCues | services/api/src/tariff_api/localisation.py:236-275 | every page of a region, image runs and walked pages aside, has a cue of the region's role, and the region cites the cue it starts with |
| RegionLaws.FindingsExactly | services/api/src/tariff_api/localisation.py:133-332 | a finding is in the answer exactly when what it says is so: of the walk, of an existing or proposed cue on an approved page, or of what the profile expects |
| RegionLaws.ProposedExactly | services/api/src/tariff_api/localisation.py:334 | an answer is proposed exactly when the walk found one candidate and no page prints a code that must be absent |
| RegionLaws.ImagesExactly | services/api/src/tariff_api/localisation.py:276-295 | the image regions are exactly the maximal runs of image pages outside the approved span |
| RegionLaws.AdjacentAreJoined | services/api/src/tariff_api/localisation.py:252-261 | where no page has two cues of one role and sub-role, no two regions of one role, sub-role and utility stand on adjacent pages |
| RegionLaws.CandidatesAreWalked | services/api/src/tariff_api/localisation.py:144-186 | every candidate is what the walk from its first hit reaches, or reaches on to a hit after that |
| ClauseOutline.Reconstruct | services/api/src/tariff_api/clause_outline.py:129-276 | the nested loops over pages and lines give the run of the lines; what the values take from them is in `ClauseLaws` and `ClauseValueLaws` |
| ClauseLaws.PathIsMinima | services/api/src/tariff_api/clause_outline.py:143-179 | at any point the path is the heading and the right-to-left strict depth minima of the titles since it |
| ClauseLaws.ValuePath | services/api/src/tariff_api/clause_outline.py:195-214 | every value stems from a line that gives values, cites its place and text, and has the path of the heading, the minima of the titles so far and, unless the line is one of them, the line that scopes it and the line itself |
| ClauseValueLaws.LineGives | services/api/src/tariff_api/clause_outline.py:195-275 | the values of a line are its amounts in order: under the two headers that hold, or the first with the rest as parameters for a rule, or each on its own, with the slab, window and sign of the line; all with the role of the deepest title of the path that has one, the line aside |
| ClauseValueLaws.ValueHeader | services/api/src/tariff_api/clause_outline.py:180-242 | a value with a header is under the latest two-column line before it with no heading or title in between; the line's first amount is under the first header and its second under the second |
| ClauseValueLaws.AlternativeCounted | services/api/src/tariff_api/clause_outline.py:158-173 | the alternative of a line counts the ALTERNATIVELY lines since the heading or title that last closed a group |
| ClauseValueLaws.ValueCategory | services/api/src/tariff_api/clause_outline.py:152-157 | a value is in the category of the latest heading before its line |
| ClauseValueLaws.LastCategory | services/api/src/tariff_api/clause_outline.py:152-157 | the last category has the code and place of the latest heading and counts what was given since |
| ClauseValueLaws.UnresolvedExactly | services/api/src/tariff_api/clause_outline.py:191-194 | the unresolved lines are exactly those that speak before any heading, with their places and first 200 characters |
| ClauseLaws.ConnectorReachesNext | services/api/src/tariff_api/clause_outline.py:158-168 | a connector attaches to the next line that gives a value |
| ClauseLaws.ConnectorIsSpent | services/api/src/tariff_api/clause_outline.py:215-275 | and to no line after that |
| ClauseLaws.AmountsConserved | services/api/src/tariff_api/clause_outline.py:186-275 | in an open category the values come to hold exactly the amounts printed, in order, if and only if no line drops one |
| ClauseLaws.ThirdAmountIsLost | services/api/src/tariff_api/clause_outline.py:230-242 | a two-column line with three amounts loses the third |
| ClauseLaws.CountsAddUp | services/api/src/tariff_api/clause_outline.py:217-275 | the counters of the categories add up to the values of each kind |
| ClauseLaws.PageBreaksDoNotMatter | services/api/src/tariff_api/clause_outline.py:130-147 | cutting the same lines into other pages changes only page and line numbers |

## Left out

- PostgreSQL, SQLAlchemy, HTTP, object storage, PDF reading, OCR, Haystack and the Anthropic client: foreign
  calls. Dates are integers in seconds.
- Web app, command line, migrations, configuration, telemetry, authentication and one-off scripts.
- `css_formula.compute`, `golden.py`, `summaries.py`, `SOURCE_TRANSITIONS`: straight arithmetic and small
  tables, which would only add easy members.
- JobQueue.Queue.RequestCancel: one step, although the code reads the row and writes it without a lock; a
  claim between the two is not modelled.
- JobQueue.Queue.Enqueue: takes a fresh id for the new row and leaves `source_id` and `created_by` out; the
  log of the exhausted claim keeps its error text as one constant.
- JobQueueTheorems.OneJobPerKey: follows from the one-step enqueue; the database constraint that makes a
  racing insert raise is not modelled.
- `queue_depth`: a count by status.
- ReaderAgreement.CompareGrids: score and cell equality are exact, without the rounding to four places; notes
  are left out.
- ReaderAgreement.ScoreIsShare: about the exact score; rounded to four places, a score just below 1 can read 1.
- ReaderAgreement.ScoreAgreement: the notes of the reports are left out.
- Reader-specific table finding, tall-row splitting and the Docling reader are not part of this model.
- GridIntegrity.AnalyseGrid: binding of units and currencies, footnotes, the slab attached to a cell and the
  flag for mixed units are left out.
- GridIntegrity.CellsOfRow: leaves out the same parts of a cell.
- Numbers.GroupedDecimalReadsBack: about the number path of `normalise_value`; markers, references,
  percentages, currency and unit words are stages before it, and digits are ASCII.
- Slabs.CheckSlabSequence: an inclusive mark that is absent counts as exclusive, as the code's truth test has
  it; `parse_slab` is not part of this model.
- JsonPrint.RoundTrip: numbers keep their text; the limits on digits and nesting that the runtime sets are not
  modelled. NaN and the infinities are, as the runtime reads them.
- `normalise_tool_output` and `coerce_candidates` are not part of this model.
- Extraction.MergeDuplicates: the note "Also printed at" and the fields no merge reads are left out.
- Routing.DedupeCompared: on values; that a survivor's reading object is shared with the caller's list is not
  captured, nor is its note.
- Routing.BatchIsSafe: the tags that the assessment stage adds later can only move a result out of batch
  review and are not modelled.
- Localisation.LocaliseDocument: the messages of the findings are left out.
- ClauseOutline.Reconstruct: headings, connectors, amounts, roles, slabs and times come from parameters
  instead of the patterns; normalised forms of the amounts are left out.
- Prose decisions, network-charge grids, conditions, annotations and validators: pattern tables around the same records.
- Idempotence of merging is not claimed by the code, since compatibility is not transitive.
