# highschool-calendar, modelled in Dafny

This project models the core of *highschool-calendar* in Dafny 4.11. The application helps a
Japanese middle-school pupil prepare for the Tokyo high-school entrance exams. It has two parts.

**The admission score engine** is the point calculator. It sums the nine report-card grades;
the four practical subjects count double. It totals the five exam scores, with or without
subject weights, and adds the additional scores whose flags are on. It then combines these
in one of two ways:

- the *simple* pattern adds everything;
- the *ratio* pattern rescales both sides to a 1000-point total, split by the school's
  test:internal ratio.

Each school's 80 % and 60 % thresholds then give a pass/fail/unknown verdict. The results
step gives a four-band verdict instead. The engine also covers:

- the results step's slider, which spreads a new exam total over the five subjects;
- the school-selection step;
- the school-management page;
- the older stand-alone calculator page, whose rules differ.

**Exam-date selection and completion tracking** is the schedule of the web page
(`src/pages/SchoolSchedulePage.tsx`) and of the mobile app (`mobile/App.tsx`). It covers:

- the school table, loaded from CSV or JSON and generated from the Excel sheet, with its
  area back-fill;
- the exam dates, parsed from their text and sorted;
- one choice per date, or a "will not apply" placeholder;
- a confirmation dialogue;
- the summary, with four milestones per chosen school that the user ticks off;
- D-day labels;
- the keys completions are stored under, and the migration from the mobile app's legacy
  two-part keys.

The model's form follows the source's:

- **Pure computations** are functions over datatypes: score arithmetic, parsing, sorting,
  grouping and keys.
- **Stateful components** are classes whose methods update fields in place. These are the
  schedule page, the mobile app, the selection step and the management page.
- **Loops** are methods with loop invariants, proved against the functions that specify
  them: the key migration, the completion cleanup, the area back-fill, `groupByDate` and
  the "not applying to the rest" fill.

Numbers the source keeps in JavaScript doubles are `real` here. Dates are text in the forms
the table uses ("MM/DD", and whatever an Excel cell holds). Today's date is a parameter.

The modules, one file each:

| module | file | models |
|---|---|---|
| `Wrappers` | wrappers.dfy | `Option` |
| `JsText` | js_text.dfy | the string built-ins the source relies on: `trim`, `parseInt`, `String(n)`, `split`, `replace`, `padStart`, code-point comparison |
| `Sorting` | sorting.dfy | `Array.prototype.sort`: a stable insertion sort by a comparator, with sortedness, stability and permutation proved |
| `Grouping` | grouping.dfy | grouping records by exam date, in first-seen order |
| `Scores` | scores.dfy | grades, exam scores, weights and additional scores, with their change handlers |
| `ScoreEngine` | score_engine.dfy | `calculateResults` and `calculateSchoolResults` |
| `ResultsStep` | results_step.dfy | the slider spread, `getPassStatus` and `schoolResults` |
| `PointCalculator` | point_calculator.dfy | the stand-alone page's older `calculateResults` |
| `SchoolSelection` | school_selection.dfy | the selection step's list and form |
| `SchoolManagement` | school_management.dfy | the management page's check-box selection |
| `Records` | records.dfy | school records, completion statuses, the toggle, placeholders |
| `ExamDates` | exam_dates.dfy | `parseMonthDay`, `sortExamDates`, `toDisplayKorean`, `toDisplayJP` |
| `Calendar` | calendar.dfy | the day numbers behind D-day |
| `MobileDates` | mobile_dates.dfy | the mobile `toDisplayJP` and `calcDday` |
| `Sheet` | sheet.dfy | the spreadsheet cells' text and date forms |
| `Csv` | csv.dfy | `src/utils/csv.ts` |
| `ExcelToJson` | excel_to_json.dfy | `scripts/genExcelJson.mjs` |
| `WebStorage` | web_storage.dfy | `src/utils/storage.ts` / `storage.js` |
| `MobileStorage` | mobile_storage.dfy | `mobile/src/utils/storage.ts`: the three-part key and its migration |
| `Bands` | bands.dfy | the deviation bands of the school lists |
| `SchoolList` | school_list.dfy | the sortable school lists |
| `Summary` | summary.dfy | the web summary |
| `MobileSummary` | mobile_summary.dfy | the mobile summary |
| `SchedulePage` | schedule_page.dfy | the web page's state and handlers |
| `MobileApp` | mobile_app.dfy | the mobile app's state and handlers |

## Model

| member | source | states |
|---|---|---|
| Scores.PerSubject.With | src/components/calculator/ExamScoresStep.tsx:91-96 | the spread update `{ ...prev, [subject]: value }` sets that subject to the value and keeps the other four |
| Scores.Grades.With | src/components/calculator/InternalGradesStep.tsx:54-59 | a grade change sets that subject's grade and keeps the other eight |
| Scores.RawNoWeight | src/components/calculator/InternalGradesStep.tsx:25-34 | the plain internal score is the five academic grades plus the four practical ones |
| Scores.RawWeighted | src/utils/calculatorUtils.ts:47-56 | the weighted internal score counts the practical grades twice: the plain sum plus the practical sum, that is academic + 2 × practical |
| Scores.GradeSumBounds | src/components/calculator/InternalGradesStep.tsx:199-205 | with grades 1..5 the plain sum lies in 9..45 and the weighted sum in 13..65, the "/ 45" and "/ 65" the step shows |
| Scores.TopGradeSums | src/utils/calculatorUtils.ts:58-59 | all grades 5 reach exactly 45 and 65, so `naishinMaxRaw` = 65 is the weighted maximum |
| Scores.WeightedTotal | src/utils/calculatorUtils.ts:68-74 | with weights off the weighted total is the raw exam total; with all weights 1 it is the raw total too |
| Scores.WeightedTotalPerSubject | src/utils/calculatorUtils.ts:68-74 | each weight multiplies its own subject: raising one subject's score by `d` raises the weighted total by `d` × that subject's weight and by nothing else |
| Scores.WeightedTotalOfOnly | src/utils/calculatorUtils.ts:68-74 | a score in one subject alone counts exactly that subject's weight × the score |
| Scores.WeightedTotalUniform | src/utils/calculatorUtils.ts:68-74 | equal weights `k` on all five subjects give `k` × the raw exam total |
| Scores.WeightedTotalBounds | src/utils/calculatorUtils.ts:105-107 | scores in 0..100 and non-negative weights keep the weighted total in 0..`testWeightedMax` (100 × the weight sum, or 500) |
| Scores.WeightedTotalAtFullMarks | src/utils/calculatorUtils.ts:105-109 | full marks reach `testWeightedMax` exactly, whatever the weights |
| Scores.ExtraTotal | src/utils/calculatorUtils.ts:77-82 | with no flag on the extras add 0 |
| Scores.ExtraTotalEnable | src/utils/calculatorUtils.ts:77-82 | switching one flag on adds exactly that category's value to the extras |
| Scores.ClampScore | src/components/calculator/ExamScoresStep.tsx:82-83 | the clamped score lies in 0..100; it is the entered value when that is in range, 0 below and 100 above |
| Scores.ClampIdempotent | src/components/calculator/ExamScoresStep.tsx:82-83 | clamping a clamped score changes nothing |
| Scores.SetExamScore | src/components/calculator/ExamScoresStep.tsx:82-88 | a score change stores the clamped value for that subject and keeps the other four; the stand-alone page (src/pages/PointCalculatorPage.tsx:213-216) follows the same rule |
| Scores.SetExamScoreKeepsRange | src/components/calculator/ExamScoresStep.tsx:82-88 | score changes keep every score within 0..100 |
| Scores.SetWeight | src/components/calculator/ExamScoresStep.tsx:91-96 | a weight change stores the value as entered, without clamping, and keeps the other weights |
| Scores.SpeakingScore | src/utils/calculatorUtils.ts:13-16 | A..F give 20, 16, 12, 8, 4 and 0 points: 20 minus 4 per grade step |
| Scores.SpeakingScoreOrdered | src/utils/calculatorUtils.ts:13-16 | a better speaking grade never earns fewer points, distinct grades earn distinct points, and every grade earns 0..20 |
| Scores.SetSpeakingGrade | src/components/calculator/ExamScoresStep.tsx:99-105 | a speaking-grade change sets the speaking extra to that grade's points and keeps the other extras |
| ScoreEngine.CalculateResults | src/utils/calculatorUtils.ts:18-125 | all ten result fields: the plain internal sum, the weighted one (practical subjects doubled), max 65, scaled = weighted × multiplier, the raw exam total, the weighted exam total (`Scores.WeightedTotal`), the gated extras, final = internal part + test part + extras; the simple pattern's parts are the scaled internal score and the weighted test total; the ratio pattern's internal part is `naishinRaw / 65` × the internal share `1000 · ratioNaishin / (ratioTest + ratioNaishin)` and its test part is the weighted total / `testWeightedMax` × the remaining `1000 −` internal share (lines 94-111) |
| ScoreEngine.SharesAddUp | src/utils/calculatorUtils.ts:96-99 | the internal and test shares of 1000 points add up to 1000, and the internal one is `1000 · ratioNaishin / (ratioTest + ratioNaishin)` |
| ScoreEngine.NaishinPartAtEnds | src/utils/calculatorUtils.ts:98-102 | ratio pattern: a weighted internal sum of 65 earns exactly the internal share of 1000, and a sum of 0 earns nothing |
| ScoreEngine.TestPartAtEnds | src/utils/calculatorUtils.ts:99-109 | ratio pattern: a weighted exam total at `testWeightedMax` earns exactly the test share (1000 − the internal share), and a total of 0 earns nothing |
| ScoreEngine.SharesNonNegative | src/utils/calculatorUtils.ts:96-99 | with non-negative ratios neither share is negative |
| ScoreEngine.RatioPartsBounded | src/utils/calculatorUtils.ts:94-111 | with raw totals within their maxima, each ratio part is non-negative and the two together are at most 1000 |
| ScoreEngine.RatioPartsAtMax | src/utils/calculatorUtils.ts:94-111 | at both maxima the two ratio parts make exactly 1000 |
| ScoreEngine.RatioWithinThousand | src/utils/calculatorUtils.ts:94-111 | ratio pattern with in-range inputs and non-negative ratios: internal part + test part lies in 0..1000, and extras come on top |
| ScoreEngine.RatioFullMarks | src/utils/calculatorUtils.ts:94-111 | ratio pattern: all grades 5 and all scores 100 give exactly 1000 before extras, whatever the weights and ratios |
| ScoreEngine.SimpleMaximum | src/utils/calculatorUtils.ts:89-93 | simple pattern, default multiplier 3, no weights: internal + test lies in 39..695 |
| ScoreEngine.BinaryStatusOf | src/utils/calculatorUtils.ts:132-144 | "unknown" exactly when there is no threshold; "pass" exactly when the score reaches it; "fail" exactly when the score is below it |
| ScoreEngine.BinaryStatusMonotone | src/utils/calculatorUtils.ts:132-144 | a higher score keeps a pass; passing a threshold passes every lower one |
| ScoreEngine.CalculateSchoolResults | src/utils/calculatorUtils.ts:127-152 | one entry per school in order, the school's own fields unchanged, the final score, and both verdicts against that school's 80 % and 60 % thresholds |
| ResultsStep.Round | src/components/calculator/ResultsStep.tsx:44-47 | `Math.round` gives the integer within one half below and less than one half above |
| ResultsStep.RoundWhole | src/components/calculator/ResultsStep.tsx:44-47 | a whole number rounds to itself |
| ResultsStep.AdjustedExamScores | src/components/calculator/ResultsStep.tsx:43-53 | the four spread scores are the rounded proportional shares, science takes the remainder, and the five always add up to the slider total |
| ResultsStep.SharesSum | src/components/calculator/ResultsStep.tsx:38-53 | the five proportional shares add up to the slider total |
| ResultsStep.ScienceNearShare | src/components/calculator/ResultsStep.tsx:48-52 | science lies at most 2 below and less than 2 above its own proportional share |
| ResultsStep.AdjustedAtOriginalTotal | src/components/calculator/ResultsStep.tsx:38-53 | at the initial slider value whole-number scores come back unchanged |
| ResultsStep.ScienceCanGoNegative | src/components/calculator/ResultsStep.tsx:48-52 | scores 1, 1, 1, 1, 0 spread over 2 give science -2: the remainder is not clamped |
| ResultsStep.FractionalScoreRounded | src/components/calculator/ResultsStep.tsx:44-52 | fractional scores do not survive the spread even at the initial total |
| ResultsStep.PassStatus | src/components/calculator/ResultsStep.tsx:56-63 | each of the five verdicts holds exactly on its range of the margin: unknown without a target, safe at 30 or more, possible from 0, risky from -30, difficult below |
| ResultsStep.PassStatusMonotone | src/components/calculator/ResultsStep.tsx:56-63 | a higher score against the same target never lands in a worse band |
| ResultsStep.PassStatusRefinesBinary | src/components/calculator/ResultsStep.tsx:56-63 | safe and possible are exactly the binary verdict's pass, risky and difficult exactly its fail, unknown its unknown |
| ResultsStep.Adjusted | src/components/calculator/ResultsStep.tsx:66-70 | the input each school is scored with: exam scores that add up to the slider total, everything else unchanged |
| ResultsStep.SchoolResults | src/components/calculator/ResultsStep.tsx:66-92 | one outcome per selected school, in order, with that school's results and both four-band verdicts |
| ResultsStep.SchoolResultsPerSchool | src/components/calculator/ResultsStep.tsx:66-81 | each school's results are `calculateResults` under that school's pattern and ratio on the spread scores |
| ResultsStep.SimpleSchoolsAgree | src/components/calculator/ResultsStep.tsx:66-81 | two simple-pattern schools get the same score whatever their ratios |
| PointCalculator.PageExtraTotal | src/pages/PointCalculatorPage.tsx:152-156 | with none of its four flags on the page adds no extras |
| PointCalculator.PageExtraWithoutSpeaking | src/pages/PointCalculatorPage.tsx:152-156 | the page's extras equal the shared rule's extras with speaking switched off, whatever the speaking points |
| PointCalculator.PageCalculate | src/pages/PointCalculatorPage.tsx:132-195 | the page's internal score is the plain nine-grade sum, scaled by 3; the raw and weighted exam totals (`Scores.WeightedTotal`) and the gated four extras; final = internal part + test part + extras; the simple pattern's parts are the scaled internal score and the weighted test total; the ratio pattern's internal part is the plain sum / 45 × the internal share `1000 · ratioNaishin / (ratioTest + ratioNaishin)` and its test part the weighted total / `testWeightedMax` × the remaining share (lines 168-183) |
| PointCalculator.PageNaishinPartAtEnds | src/pages/PointCalculatorPage.tsx:172-175 | ratio pattern: a plain internal sum of 45 earns exactly the internal share of 1000, and a sum of 0 earns nothing |
| PointCalculator.PageScaledBounds | src/pages/PointCalculatorPage.tsx:134-137 | with grades 1..5 the scaled internal score lies in 27..135 |
| PointCalculator.PageRatioWithinThousand | src/pages/PointCalculatorPage.tsx:168-183 | ratio pattern with in-range inputs: internal + test part lies in 0..1000, with the internal sum normalised by 45 |
| PointCalculator.PageRatioFullMarks | src/pages/PointCalculatorPage.tsx:168-183 | ratio pattern: full marks and no extras give exactly 1000 |
| PointCalculator.PageAgainstEngine | src/pages/PointCalculatorPage.tsx:132-195 | against the shared engine, the page's internal sum is the engine's unweighted sum and the test part and extras agree; the ratio pattern's internal parts agree when all nine grades are equal |
| SchoolSelection.FindById | src/components/calculator/SchoolSelectionStep.tsx:48 | `find` by id gives nothing exactly when no listed school has the id; otherwise it gives a listed school with that id |
| SchoolSelection.RemoveId | src/components/calculator/SchoolSelectionStep.tsx:135-138 | the filter keeps exactly the schools whose id differs, and never lengthens the list |
| SchoolSelection.RemoveIdKeepsOrder | src/components/calculator/SchoolSelectionStep.tsx:135-138 | the filter keeps the remaining schools in their order |
| SchoolSelection.RemoveIdUnique | src/components/calculator/SchoolSelectionStep.tsx:135 | removing a school keeps the selected ids distinct |
| SchoolSelection.AppendUnique | src/components/calculator/SchoolSelectionStep.tsx:111-113 | appending a school whose id is not yet selected keeps the ids distinct |
| SchoolSelection.AddedSelects | src/components/calculator/SchoolSelectionStep.tsx:111-116 | after the duplicate check the school's id is selected exactly once, and the list grows by one only when it was new |
| SchoolSelection.SelectionStep.CurrentDraft | src/components/calculator/SchoolSelectionStep.tsx:96-103 | the new school sent to the server carries the entered name, and a rate left empty is sent as `null` |
| SchoolSelection.SelectionStep.constructor | src/components/calculator/SchoolSelectionStep.tsx:16-29 | the step starts with the form at its defaults (simple pattern, ratio 7:3, empty rates, new school), no available schools and no error |
| SchoolSelection.SelectionStep.ResetForm | src/components/calculator/SchoolSelectionStep.tsx:61-70 | the form fields return to their defaults; the lists and the error stay |
| SchoolSelection.SelectionStep.SelectExisting | src/components/calculator/SchoolSelectionStep.tsx:47-58 | a listed id copies that school's name, pattern, ratios and rates (empty when absent) into the form; an unknown id changes nothing |
| SchoolSelection.SelectionStep.AddSchool | src/components/calculator/SchoolSelectionStep.tsx:73-126 | a blank name is refused, and a chosen school missing from the list is refused, each with the lists and every form field (`CurrentForm`) kept; otherwise the found or newly created school is appended once (display order = old length), a duplicate sets the error, the form is reset, and the selected ids stay distinct |
| SchoolSelection.SelectionStep.RemoveSchool | src/components/calculator/SchoolSelectionStep.tsx:129-143 | the id leaves both the selected and the available list, the other schools keep their order, and the selected ids stay distinct |
| SchoolSelection.SelectionStep.Finish | src/components/calculator/SchoolSelectionStep.tsx:146-152 | the step moves on exactly when a school is selected; otherwise it sets the error; the lists and every form field stay |
| SchoolManagement.Toggled | src/pages/SchoolManagementPage.tsx:33-41 | a checkbox click flips membership of that id and of no other |
| SchoolManagement.ToggledTwice | src/pages/SchoolManagementPage.tsx:33-41 | two clicks on one checkbox restore the selection |
| SchoolManagement.ToggledCommutes | src/pages/SchoolManagementPage.tsx:33-41 | clicks on two checkboxes give the same selection in either order |
| SchoolManagement.AllIds | src/pages/SchoolManagementPage.tsx:47 | the set holds every listed id and nothing else |
| SchoolManagement.SelectAllOf | src/pages/SchoolManagementPage.tsx:43-49 | select-all clears the set when its size equals the number of schools, and checks every listed id otherwise |
| SchoolManagement.SelectAllTwiceClears | src/pages/SchoolManagementPage.tsx:43-49 | with distinct ids, a select-all that checked everything is undone by a second click |
| SchoolManagement.IdsCount | src/pages/SchoolManagementPage.tsx:44-47 | with distinct ids there are as many ids as schools, so the size comparison recognises "all checked" |
| SchoolManagement.SelectAllComparesSizesOnly | src/pages/SchoolManagementPage.tsx:44-45 | a stale checked id of the same count makes select-all clear the set instead of checking the listed school |
| SchoolManagement.ManagementPage.constructor | src/pages/SchoolManagementPage.tsx:10-31 | the page holds the loaded schools and nothing checked |
| SchoolManagement.ManagementPage.ToggleId | src/pages/SchoolManagementPage.tsx:33-41 | the new selection is the toggled one; the list stays |
| SchoolManagement.ManagementPage.SelectAll | src/pages/SchoolManagementPage.tsx:43-49 | the new selection is the select-all result; the list stays |
| SchoolManagement.ManagementPage.DeleteSelected | src/pages/SchoolManagementPage.tsx:51-80 | nothing checked, or a declined dialogue, changes nothing; otherwise every checked id is deleted, the set is cleared and the list is reloaded |
| Records.CompletionStatus.With | src/pages/SchoolSchedulePage.tsx:82-83 | setting one milestone of a status sets it to the value and keeps the other three |
| Records.StatusOf | src/pages/SchoolSchedulePage.tsx:83 | a missing completion entry reads as all four milestones open; a present one as stored |
| Records.ToggleCompletionSpec | src/pages/SchoolSchedulePage.tsx:82-86 | a toggle adds the key if it was missing, negates that milestone, keeps the other three and leaves every other key's entry as it was |
| Records.ToggleTwice | src/pages/SchoolSchedulePage.tsx:82-86 | toggling a milestone twice restores the map, except that a key that was missing stays as a blank entry |
| Records.ToggleCommutes | src/pages/SchoolSchedulePage.tsx:82-86 | toggles of two different milestones, or of two different keys, commute |
| Records.WithCommutes | src/pages/SchoolSchedulePage.tsx:83 | setting two different milestones gives the same status in either order |
| Records.Placeholder | src/pages/SchoolSchedulePage.tsx:43-44 | a "will not apply" placeholder carries the given name and date, no deviation and an empty exam name |
| Records.KeyedByDateStore | src/pages/SchoolSchedulePage.tsx:53-54 | storing a record under its own exam date keeps every choice filed under its own date |
| Records.FillOpenDatesEntries | src/pages/SchoolSchedulePage.tsx:98-117 | after the fill loop the choices are the old ones plus the listed dates; old choices stay, and each newly filled date gets its filler |
| Records.FillOpenDatesChoosesAll | src/pages/SchoolSchedulePage.tsx:98-117 | after the fill loop every ordered date has a choice |
| Records.FillOpenDatesKeyedByDate | src/pages/SchoolSchedulePage.tsx:103-115 | the fill keeps choices filed under their own exam date, since each filler carries its date |
| SchedulePage.NoApplyFiller | src/pages/SchoolSchedulePage.tsx:103-115 | the fill-all placeholder carries the name '지원하지 않음' and its date |
| SchedulePage.Cleaned | src/pages/SchoolSchedulePage.tsx:123-132 | the cleanup keeps only keys that were present |
| SchedulePage.CleanedByEntries | src/pages/SchoolSchedulePage.tsx:125-127 | a map holding exactly the present, still-valid keys with their old values is the cleaned map |
| SchedulePage.KeepValid | src/pages/SchoolSchedulePage.tsx:125-127 | the `forEach` copies exactly the completions whose key belongs to a current choice |
| SchedulePage.SizeCheckCatchesRemoval | src/pages/SchoolSchedulePage.tsx:128 | since the cleanup only filters, an unchanged key count means nothing was removed, so skipping the write loses nothing |
| SchedulePage.Page.constructor | src/pages/SchoolSchedulePage.tsx:16-39 | the page starts in the start phase at date 0, with the loaded dates, the stored choices and completions, the dialogue closed and the stored deviation (60 by default) |
| SchedulePage.Page.CurrentDate | src/pages/SchoolSchedulePage.tsx:41-43 | the current date is present exactly when the cursor is on a non-empty date, and then it is that date |
| SchedulePage.Page.BeginSelection | src/pages/SchoolSchedulePage.tsx:182-185 | the start button reloads the deviation and opens the selection phase; nothing else changes |
| SchedulePage.Page.SelectRecord | src/pages/SchoolSchedulePage.tsx:46-49 | a clicked record waits in the open dialogue; nothing else changes |
| SchedulePage.Page.SelectNoApply | src/pages/SchoolSchedulePage.tsx:211-217 | with a current date the '志願しない' placeholder for that date waits in the open dialogue; without one nothing changes |
| SchedulePage.Page.CancelSelection | src/pages/SchoolSchedulePage.tsx:71-74 | the dialogue closes and nothing is chosen |
| SchedulePage.Page.ConfirmSelection | src/pages/SchoolSchedulePage.tsx:51-69 | with no pending record nothing changes; otherwise the record is stored under its exam date and the dialogue closes; the cursor moves to the next date, or at the last date the summary opens when every date has a choice; choices stay filed under their dates |
| SchedulePage.Page.AllSelected | src/pages/SchoolSchedulePage.tsx:76 | true exactly when there is at least one date and every date has a choice |
| SchedulePage.Page.FinishToSummary | src/pages/SchoolSchedulePage.tsx:78-80 | the summary opens exactly when every date has a choice; nothing else changes |
| SchedulePage.Page.ToggleCompletion | src/pages/SchoolSchedulePage.tsx:82-86 | the completions become the toggled map; nothing else changes |
| SchedulePage.Page.ResetAll | src/pages/SchoolSchedulePage.tsx:88-96 | a declined dialogue changes nothing; a confirmed one clears choices and completions and returns to the start at date 0 |
| SchedulePage.Page.FinishAllNoApply | src/pages/SchoolSchedulePage.tsx:98-121 | every open date gets the '지원하지 않음' filler, existing choices stay, the summary opens, and every date then has a choice |
| SchedulePage.Page.CleanupCompletions | src/pages/SchoolSchedulePage.tsx:123-132 | after the effect the completions are exactly those whose key belongs to a current choice; nothing else changes |
| SchedulePage.Page.Revisit | src/pages/SchoolSchedulePage.tsx:230-235 | a listed date puts the cursor on its first occurrence and reopens the selection phase; an unknown date changes nothing |
| WebStorage.LoadOrEmpty | src/utils/storage.ts:8-28 | a missing or unreadable selections or completions item loads as an empty map; a parsed one loads as stored; src/utils/storage.js:5-25 loads the same way |
| WebStorage.SchoolKeyIgnoresExamName | src/utils/storage.ts:34-36 | the web key ignores the exam name: two exams of one school on one date share a key, hence one completion entry |
| WebStorage.SchoolKeyInjective | src/utils/storage.ts:34-36 | for dates without '_', the key determines the exam date and the school name; src/utils/storage.js:29-31 builds the same key |
| WebStorage.LoadUserName | src/utils/storage.ts:38-40 | the stored name when it is non-empty, otherwise 'シア'; never empty |
| WebStorage.LoadUserDeviationSpec | src/utils/storage.ts:42-44 | the loaded deviation is never 0; it is 60 or the parsed value, and 60 whenever nothing parsable is stored; src/utils/storage.js:43-51 and mobile/src/utils/storage.ts:25 use the same rule |
| WebStorage.UserDeviationRoundTrip | src/utils/storage.ts:42-45 | a deviation saved as `String(dev)` loads back as itself, except 0, which loads as 60 |
| MobileStorage.SchoolKeyExtendsLegacy | mobile/src/utils/storage.ts:11-18 | the three-part key is the legacy two-part key followed by "__" and the exam name |
| MobileStorage.SchoolKeySeparatesExams | mobile/src/utils/storage.ts:11 | two exams of one school on one date get different keys |
| MobileStorage.Upgrade | mobile/src/utils/storage.ts:17-19 | a record's migrated status is the one under its current key, else the one under its legacy key, else blank |
| MobileStorage.MigrateCompletionKeys | mobile/src/utils/storage.ts:13-22 | the migrated map has an entry for every selected record's key, and each entry is the upgrade of a selected record with that key |
| MobileStorage.MigrationStep | mobile/src/utils/storage.ts:15-20 | one loop step keeps the invariant: every visited record has its entry, each upgraded from a visited record |
| MobileStorage.MigrationDone | mobile/src/utils/storage.ts:13-22 | once every date is visited, the invariant is the migration relation |
| MobileStorage.MigrationKeepsCurrent | mobile/src/utils/storage.ts:19 | an entry already stored under a selected record's current key is kept as it is |
| MobileStorage.MigrationPrunesOrphans | mobile/src/utils/storage.ts:13-22 | a key that belongs to no selected record is dropped |
| MobileStorage.MigrationIdempotent | mobile/src/utils/storage.ts:13-22 | migrating a migrated map again with the same selections changes nothing |
| MobileStorage.MigrationDeterministic | mobile/src/utils/storage.ts:13-22 | when records that share a key also share its upgrade, any two results of the migration are equal |
| ExamDates.LazyDigit | src/utils/date.js:5 | the lazy `.*?\d` finds a digit reachable without crossing a line terminator with no digit before it (the first one), and finds none exactly when every later digit lies beyond one |
| ExamDates.DigitGroup | src/utils/date.js:5 | the greedy `(\d{1,2})` takes one or two digits sliced at the position, and two exactly when the next character is also a digit |
| ExamDates.MatchAt | src/utils/date.js:5 | the match at a position exists exactly when a digit there is followed, on the same line, by another digit; both groups are 1-2 digits |
| ExamDates.Search | src/utils/date.js:5 | `match` succeeds exactly when some position from the start admits a match |
| ExamDates.ParseMonthDay | src/utils/date.js:2-9 | a month/day exists exactly when two digits stand on the same line (so empty text gives none); both numbers are below 100 |
| ExamDates.LazyDigitSkips | src/utils/date.js:5 | the lazy scan stops at the first digit after a stretch of non-digits without line breaks |
| ExamDates.ParseMonthDayOfParts | src/utils/date.js:2-9 | digits, a separator without digits or line breaks, digits: parses to the two numbers ("02/01", "2月1日") |
| ExamDates.ParseLeadingZeros | src/utils/date.js:8 | "02/01" parses as month 2, day 1: `parseInt` drops leading zeros |
| ExamDates.ParseSlashed | src/utils/date.js:2-9 | "M/D" with one or two digits on each side parses to its two numbers |
| ExamDates.CompareExamDates | src/utils/date.js:22-30 | when both dates parse, the comparison is by month, then day, and is 0 exactly for the same month/day; otherwise it is string order |
| ExamDates.SortExamDates | src/utils/date.js:21-22 | the sorted copy holds the same dates as the input |
| ExamDates.CompareExamDatesConsistent | src/utils/date.js:22-30 | on dates that all parse the comparator is a total preorder, as `sort` requires |
| ExamDates.SortExamDatesOrdered | src/utils/date.js:21-31 | dates that all parse come out in (month, day) order |
| ExamDates.SortExamDatesStable | src/utils/date.js:21-31 | dates on the same month/day keep their input order |
| ExamDates.SortExamDatesIdempotent | src/utils/date.js:21-31 | sorting a sorted list changes nothing |
| ExamDates.ParseDecember | src/utils/date.js:2-9 | "12/20" parses as 12/20 |
| ExamDates.ParseJanuary | src/utils/date.js:2-9 | "1/15" parses as 1/15 |
| ExamDates.EarlierMonthFirst | src/utils/date.js:27-28 | of two parseable dates the earlier month comes first, whatever the input order |
| ExamDates.NoYearWrap | src/utils/date.js:27-29 | "12/20" sorts after "1/15": the order knows no exam-year cycle |
| ExamDates.DisplayKeepsDate | src/utils/date.js:10-20 | both display forms parse back to the same month/day as the raw text, and unparsable text is shown as it is |
| ExamDates.ToDisplayIdempotent | src/utils/date.js:10-20 | formatting an already formatted date changes nothing |
| ExamDates.DisplayExample | src/utils/date.js:10-20 | "02/01" is shown as "2月1日" and as "2월 1일" |
| Calendar.DaysInMonth | mobile/src/utils/date.ts:12 | every month has 28 to 31 days |
| Calendar.Epoch | mobile/src/utils/date.ts:12-13 | the day count starts at 1 January 1970 |
| Calendar.MarchYearLength | mobile/src/utils/date.ts:12 | a year from March to February has 366 days exactly when its February is a leap February |
| Calendar.MonthLength | mobile/src/utils/date.ts:12 | consecutive month starts lie the month's length apart, and December runs 31 days into January |
| Calendar.LaterInYear | mobile/src/utils/date.ts:12-13 | a later date in the same year has a larger day number |
| Calendar.MakeDayInRange | mobile/src/utils/date.ts:12 | `new Date(y, m - 1, d)` with a month in range is that civil day |
| Calendar.FullYear | mobile/src/utils/date.ts:12 | the `Date` constructor reads years 0..99 as 1900..1999 and keeps other years |
| Calendar.TargetYear | mobile/src/utils/date.ts:9-11 | January to March fall in the next year, and every other month in this year |
| Calendar.ExamSeasonAhead | mobile/src/utils/date.ts:8-13 | from April to December, any valid January-to-March date is ahead of today |
| Calendar.BeforeNewYear | mobile/src/utils/date.ts:12-13 | every valid date of a year comes before 1 January of the next |
| Calendar.FromNewYear | mobile/src/utils/date.ts:12-13 | no valid date of a year comes before its 1 January |
| Calendar.SameDayIsZero | mobile/src/utils/date.ts:12-14 | from April to December, today's own month and day count 0 days |
| Calendar.DdayLabel | mobile/src/utils/date.ts:14-15 | a label is at least three characters and starts with 'D' |
| Calendar.LabelDiff | mobile/src/utils/date.ts:14-15 | only texts of the label's shape read back as a difference |
| Calendar.LabelRoundTrip | mobile/src/utils/date.ts:14-15 | the label reads back as the day difference it was made from: "D-day" 0, "D-n" ahead, "D+n" past |
| Calendar.LabelInjective | mobile/src/utils/date.ts:14-15 | different day differences get different labels |
| MobileDates.ToDisplayJPOfParts | mobile/src/utils/date.ts:1 | only the first '/' becomes '月' and the digits are kept as written ("02/01" is shown as "02月01日") |
| MobileDates.CalcDday | mobile/src/utils/date.ts:3-16 | the result is '' exactly when the text has fewer than two '/'-separated parts or the first or second part does not parse as a number (empty text included); otherwise it is a D-day label that reads back as the days until that month and day |
| MobileDates.CalcDdayOfParts | mobile/src/utils/date.ts:5-15 | for "M/D" with numeric parts, the label of the days until that date in the exam cycle |
| MobileDates.CalcDdayIgnoresRest | mobile/src/utils/date.ts:5 | anything after a second '/' is ignored |
| MobileDates.FirstTwoParts | mobile/src/utils/date.ts:5 | `split('/')` of "a/b" and "a/b/rest" begins with a and b |
| MobileDates.CalcDdayNeedsTwoParts | mobile/src/utils/date.ts:5-7 | without a '/' the day is `NaN` and the result is '' |
| MobileDates.DdayExamples | mobile/src/utils/date.ts:3-16 | on 20 December "12/25" is "D-5"; on 30 December "1/5" is in the next year and "D-6" |
| MobileDates.SameMonthExample | mobile/src/utils/date.ts:12-13 | 20 to 25 December is 5 days |
| MobileDates.NewYearExample | mobile/src/utils/date.ts:9-13 | 30 December to 5 January of the next year is 6 days |
| Csv.Column | src/utils/csv.ts:135-156 | `cols[i] \|\| ''`: a column past the end reads as '' |
| Csv.ParseDeviationText | src/utils/csv.ts:137-138 | a text deviation exists exactly when the text is non-empty and parses to a non-zero number, which it then is; never 0 |
| Csv.CellDeviation | src/utils/csv.ts:21 | a numeric deviation is kept as it is, 0 included; a missing one is absent; text goes through `parseInt(…) \|\| null`; the XLSX row mapping (src/utils/csv.ts:76) reads it by the same rule |
| Csv.MapColumnsFlexible | src/utils/csv.ts:134-160 | the deviation is read from column 2 and is never 0; rows of fewer than 11 columns have no category |
| Csv.CategoryColumnShifts | src/utils/csv.ts:140-158 | inserting a category column into a ten-column row gives the same record plus that category |
| Csv.MapColumnsTrimmed | src/utils/csv.ts:135-156 | the school name, exam date and category of a mapped row are trimmed |
| Csv.StripStray | src/utils/csv.ts:162 | the two global replaces leave no U+FFFD and no U+FEFF, and change nothing in text free of both |
| Csv.CleanField | src/utils/csv.ts:162 | a cleaned field holds no U+FFFD and no U+FEFF and is trimmed; for text free of both characters cleaning is exactly `trim()` |
| Csv.StripAppend | src/utils/csv.ts:162 | removing the two characters works piece by piece over concatenation |
| Csv.CleanFieldDropsStray | src/utils/csv.ts:162 | a U+FFFD or U+FEFF inserted anywhere in a field makes no difference to the cleaned field |
| Csv.CleanFieldIdempotent | src/utils/csv.ts:162 | cleaning a cleaned field changes nothing |
| Csv.CleanFieldOfClean | src/utils/csv.ts:162 | a field already free of both characters and of surrounding white space is left as it is |
| Csv.CleanRecord | src/utils/csv.ts:163 | each of the ten text fields (school name, area, category, exam name, application start and end, exam date, result date, annual, refund) becomes `cleanField` of its old value; the deviation and the id are kept |
| Csv.CleanRecordIdempotent | src/utils/csv.ts:163 | cleaning a cleaned record changes nothing |
| Csv.AreaMap | src/utils/csv.ts:165-166 | the area map holds only non-empty names and non-empty areas |
| Csv.AreaMapLastDonor | src/utils/csv.ts:165-166 | the remembered area of a school is the one given by the last record of that school with an area; a school without one is not remembered |
| Csv.FillArea | src/utils/csv.ts:167 | a record is either left as it is or, when its area was empty, given a non-empty area and otherwise unchanged |
| Csv.FilledAreas | src/utils/csv.ts:164-168 | the back-fill keeps the number of records |
| Csv.FillMissingAreas | src/utils/csv.ts:164-168 | the in-place back-fill leaves the array equal to the back-filled records |
| Csv.BackFill | src/utils/csv.ts:31 | the records handed to `fillMissingAreas` come back back-filled |
| Csv.FilledAreasSpec | src/utils/csv.ts:164-168 | record by record: an area already present stays, an empty one takes the last area given for the same school, and one with no donor stays empty |
| Csv.FilledKeepsDatedUncategorised | src/utils/csv.ts:164-168 | the back-fill changes only areas: exam dates and empty categories are kept |
| Csv.FilledAreasIdempotent | src/utils/csv.ts:164-168 | back-filling twice is back-filling once |
| Csv.WithExamDate | src/utils/csv.ts:30 | every kept record is from the input and has a non-empty exam date, and every input record with one is kept; a single record is kept exactly when it has a date |
| Csv.WithExamDateSnoc | src/utils/csv.ts:30 | filtering a list with one more record at the end adds that record exactly when it has a date |
| Csv.WithExamDateAppend | src/utils/csv.ts:30 | the filter works piece by piece over concatenation, so the kept records keep their order |
| Csv.JsonText | src/utils/csv.ts:19-29 | `j[name] \|\| ''`: an absent field reads as '', a present one as its own text |
| Csv.FromJson | src/utils/csv.ts:18-30 | a JSON object maps to a record with its deviation read by the number-or-text rule and its exam date as given |
| Csv.MapRecords | src/utils/csv.ts:32 | `map` applies the function to each record, in order |
| Csv.LoadJson | src/utils/csv.ts:12-37 | the JSON branch maps each object, drops those without an exam date, back-fills areas and then cleans every record |
| Csv.SeqOfRows | src/utils/csv.ts:18 | one record per JSON object, in order |
| Csv.JsonDeviationZero | src/utils/csv.ts:21 | a numeric deviation 0 is kept, but the text "0" reads as no deviation |
| Csv.LoadGrouped | src/utils/csv.ts:171-187 | the groups are those of the records with an exam date, and the ordered dates are their keys in first-seen order, sorted by `sortExamDates` |
| Csv.LoadGroupedSpec | src/utils/csv.ts:176-184 | every dated record sits in the group of its date, groups keep input order and together hold every dated record once, no group is keyed by '', and the ordered dates are exactly the group keys |
| Csv.OfDateContains | src/utils/csv.ts:180-183 | each record is in the group of its own date |
| Csv.BlankDateSurvivesJsonFilter | src/utils/csv.ts:30-32 | an exam date of white space passes the JSON branch's date filter and is then cleaned to '' |
| Csv.MapXlsxRow | src/utils/csv.ts:71-86 | a spreadsheet row has no category; its deviation follows the number-or-text rule and its exam date the serial rule |
| Sheet.CellAt | src/utils/csv.ts:72 | a cell past the end of a short row is `undefined` |
| Sheet.CellTextRoundTrip | scripts/genExcelJson.mjs:54 | `str(v)` yields trimmed text; a text cell gives its trimmed text; a number cell reads back as the same number; `toStr` (src/utils/csv.ts:88) follows the same rule |
| Sheet.TwoDigitsValue | src/utils/csv.ts:66-67 | a month or day padded to two digits reads back as itself |
| Sheet.SerialTextParses | src/utils/csv.ts:66-68 | the "MM/DD" text of a serial date is five characters with '/' in the middle, and parses back to its month and day |
| Sheet.NormalDate | scripts/genExcelJson.mjs:56 | a missing cell gives '' and a text cell its trimmed text; `excelSerialToDate` (src/utils/csv.ts:61-69) follows the same rule |
| Sheet.NormalDateOfSerial | scripts/genExcelJson.mjs:56-58 | a date serial becomes a non-empty key that parses as its UTC month and day |
| ExcelToJson.ParseDeviation | scripts/genExcelJson.mjs:55 | a missing or empty deviation is null, a number is kept, and other text is its `parseInt` value, NaN being null |
| ExcelToJson.DeviationRulesDiffer | scripts/genExcelJson.mjs:55 | the script and the web loader read deviations alike, except text that parses to 0: the script keeps 0, the loader reads no deviation |
| ExcelToJson.ZeroDeviationText | scripts/genExcelJson.mjs:55 | "0" is a deviation of 0 in the script and no deviation in the loader |
| ExcelToJson.MapRow | scripts/genExcelJson.mjs:27-41 | a data row has no category, and its deviation follows the script's rule |
| ExcelToJson.MapRows | scripts/genExcelJson.mjs:26-27 | one record per data row, in order |
| ExcelToJson.BuildRecords | scripts/genExcelJson.mjs:26-46 | the written records are the mapped rows with an exam date, back-filled |
| ExcelToJson.BuiltRecordsShape | scripts/genExcelJson.mjs:33-46 | every written record has an exam date and an empty category |
| ExcelToJson.FilledShape | scripts/genExcelJson.mjs:44-46 | the back-fill keeps records dated and uncategorised |
| ExcelToJson.DatedNoCategory | scripts/genExcelJson.mjs:33-42 | the rows the date filter keeps have an exam date and no category |
| ExcelToJson.NoCategory | scripts/genExcelJson.mjs:33 | every mapped row has an empty category |
| Grouping.OfDate | src/utils/csv.ts:180-183 | a date's group holds only input records of that date |
| Grouping.GroupedByDate | src/utils/csv.ts:179-184 | the group keys are exactly the first-seen dates, which are exactly the dates with a record; each group is the records of its date in input order |
| Grouping.GroupedSnoc | src/utils/csv.ts:180-183 | one more record joins its date's group, and its date becomes a new key when it was not one |
| Grouping.FirstSeenDistinct | src/utils/csv.ts:184 | `Object.keys(grouped)` lists each date once |
| Grouping.GroupKeys | src/utils/csv.ts:184 | the listed keys are exactly the group keys |
| Grouping.GroupedKeepsCount | src/utils/csv.ts:179-183 | the groups together hold every record once |
| Grouping.GroupStep | src/utils/csv.ts:181-182 | one step of the loop (open the date's group if needed, then push) is the grouping of one more record |
| JsText.Trim | src/utils/csv.ts:88 | `trim()` returns a contiguous slice of its input with no whitespace at either end, and everything cut off before and after the slice is whitespace |
| JsText.TrimCuts | src/utils/csv.ts:88 | trimming the start and then the end cuts off only whitespace, on either side of a slice |
| JsText.TrimIdempotent | src/components/calculator/SchoolSelectionStep.tsx:76 | trimming trimmed text changes nothing |
| JsText.ParseInt | src/utils/storage.ts:43 | `parseInt(v, 10)` gives no number exactly when no digit follows the leading whitespace and optional sign |
| JsText.ParseIntOfIntToString | src/utils/storage.ts:43-45 | an integer saved with `String(dev)` reads back as the same integer |
| JsText.NatToString | src/utils/csv.ts:66-67 | a non-negative number prints as at least one digit, one digit exactly below 10, at most two below 100, without a leading zero |
| JsText.NatToStringValue | src/utils/csv.ts:66-67 | the printed digits have the number's value |
| JsText.PadStart2 | src/utils/csv.ts:66-67 | `padStart(2, '0')` pads to length two on the left and keeps the text as its suffix |
| JsText.RemoveAll | src/utils/csv.ts:162 | a global `replace` with '' removes every occurrence of the character and keeps every other character with its count; the one-character text of that character becomes '' |
| JsText.RemoveAllAppend | src/utils/csv.ts:162 | removal works piece by piece over concatenation, so every other character keeps its place and order |
| JsText.Split | mobile/src/utils/date.ts:5 | `split` gives at least one part and no part holds the separator |
| JsText.JoinSplit | mobile/src/utils/date.ts:5 | joining the parts with the separator gives back the text |
| JsText.SplitCount | src/components/Summary.tsx:128-129 | there is one part more than there are separators |
| JsText.SplitAtFirst | src/components/Summary.tsx:128 | text up to the first separator is the first part, and the rest splits on its own |
| JsText.IndexOf | src/pages/SchoolSchedulePage.tsx:60 | `indexOf` is -1 exactly when the element is absent, else the position of its first occurrence |
| JsText.ReplaceFirst | mobile/src/utils/date.ts:1 | a string `replace` on text without the character leaves it unchanged |
| JsText.CodePointCompare | src/utils/date.js:26 | the comparison is -1, 0 or 1 and is zero exactly for equal texts |
| JsText.CodePointCompareAntisymmetric | src/utils/date.js:26 | swapping the texts negates the result |
| JsText.CodePointCompareTransitive | src/utils/date.js:26 | the order is transitive |
| Sorting.Insert | src/utils/date.js:22 | inserting adds exactly the one element |
| Sorting.SortBy | src/utils/date.js:22 | the sorted copy is a permutation of the input |
| Sorting.Antisymmetric | src/utils/date.js:22-28 | under a consistent comparator a < b exactly when b > a |
| Sorting.Transitive | src/utils/date.js:22-28 | under a consistent comparator a <= b <= c gives a <= c |
| Sorting.SortBySorted | src/utils/date.js:22 | under a consistent comparator the result is sorted |
| Sorting.SortByStable | src/components/SchoolList.tsx:18 | elements the comparator ranks equal keep their input order, as `Array.prototype.sort` promises |
| Sorting.SortByOfSorted | src/utils/date.js:22 | a sorted input comes back unchanged |
| Sorting.SortByIdempotent | src/utils/date.js:22 | sorting twice gives the result of sorting once |
| Bands.DeviationBand | src/components/SchoolList.tsx:39-53 | with diff = deviation - base, each of the five bands holds exactly on its interval: [-3, 3] green, (3, 6] orange, above 6 red, [-6, -3) yellow, below -6 the default; no deviation gives the default; the mobile `bgByDiff` (mobile/src/components/SchoolList.tsx:8-22) and the summary card colour (src/components/Summary.tsx:66-75) use the same bands |
| Bands.BandMonotone | src/components/SchoolList.tsx:42-52 | from 6 below the base upwards, a higher deviation never gets a cooler band, and never the default one |
| Bands.BandShiftInvariant | src/components/SchoolList.tsx:42 | only the difference to the base counts: shifting both by the same amount keeps the band |
| SchoolList.CompareDeviation | src/components/SchoolList.tsx:23-30 | `deviation ?? -Infinity` compared by subtraction: zero exactly for equal values (two missing ones included, the NaN case), a missing deviation below every number, otherwise the numeric order |
| SchoolList.SortRecords | src/components/SchoolList.tsx:18-33 | the sorted copy holds exactly the input records (a permutation); the mobile list (mobile/src/components/SchoolList.tsx:25-40) sorts with the same four comparators |
| SchoolList.ComparatorConsistent | src/components/SchoolList.tsx:18-33 | each of the four sort orders is a total preorder, so the sort is well defined |
| SchoolList.DevDescOrdered | src/components/SchoolList.tsx:27-30 | highest deviation first: deviations never increase down the list and records without one come last |
| SchoolList.DevAscOrdered | src/components/SchoolList.tsx:23-26 | lowest first: records without a deviation come first, then deviations never decrease |
| SchoolList.SortRecordsStable | src/components/SchoolList.tsx:18 | records the chosen order ranks equal keep their input order (the stable `Array.prototype.sort`) |
| SchoolList.SortRecordsIdempotent | src/components/SchoolList.tsx:18-33 | sorting an already sorted list changes nothing |
| SchoolList.SelectedMatchesKey | src/components/SchoolList.tsx:38 | the selected mark (same school name and exam date) holds exactly when the two records share the web completion key, for dates without '_' |
| SchoolList.ItemKey | mobile/src/components/SchoolList.tsx:42 | a record with a non-empty id is keyed by its id; any other is keyed by school name, '_', exam name, '_', exam date, in that order |
| SchoolList.ItemKeysUnique | mobile/src/components/SchoolList.tsx:42 | records tagged by one `groupByDate` run get pairwise distinct list keys |
| Summary.Kept | src/components/Summary.tsx:27-30 | the filter keeps exactly the dates that have a choice the predicate accepts, and never lengthens the list |
| Summary.KeptAppend | src/components/Summary.tsx:27-30 | filtering commutes with concatenation, so cards keep the order of the dates |
| Summary.SelectedDates | src/components/Summary.tsx:26-30 | a date gets a card exactly when it has a choice whose trimmed name is neither of the two "will not apply" names |
| Summary.FillersHidden | src/components/Summary.tsx:26-30 | after "finish, not applying to the rest" exactly the same dates get a card as before |
| Summary.PlaceholderHidden | src/components/Summary.tsx:26 | the per-date "will not apply" placeholder never gets a card |
| Summary.CardStatus | src/components/Summary.tsx:64-65 | a card reads its status under the record's two-part key; a missing entry reads as all open |
| Summary.CardToggleShows | src/components/Summary.tsx:64-81 | a card toggles under the key it reads, so a tap flips exactly the tapped milestone and keeps the other three |
| Summary.AnnualMark | src/components/Summary.tsx:90-94 | O, o or ○ is marked positive and X, x or × negative, each exactly for those texts |
| Summary.FormatDday | src/components/Summary.tsx:126-151 | the result is '' exactly when the text does not split on '/' into exactly two parts or either part does not parse as a number (empty text included); otherwise it is a D-day label that reads back as the days until that month and day |
| Summary.FormatDdayAgrees | src/components/Summary.tsx:126-151 | for well-formed "M/D" text the web label equals the mobile `calcDday` label (mobile/src/utils/date.ts:3-16) |
| Summary.FormatDdayNeedsTwoParts | src/components/Summary.tsx:128-129 | text with a third '/' part gets no web label |
| MobileSummary.SelectedDates | mobile/src/components/Summary.tsx:24 | a date gets a card exactly when it has a choice whose name is not exactly '志願しない' |
| MobileSummary.FillersHidden | mobile/src/components/Summary.tsx:24 | after `finishAllNoApply` exactly the same dates get a card as before |
| MobileSummary.UntrimmedNameShown | mobile/src/components/Summary.tsx:24 | the mobile filter does not trim: '志願しない ' with a trailing space gets a card |
| MobileSummary.ToggleKeyAsWritten | mobile/src/components/Summary.tsx:31 | the toggle key is the id when there is a non-empty one, else the completion key |
| MobileSummary.CardStatus | mobile/src/components/Summary.tsx:31 | a card reads its status under `schoolKey(r)`; a missing entry reads as all open |
| MobileSummary.TaggedIdIsNotKey | mobile/src/components/Summary.tsx:31 | every id `groupByDate` assigns is non-empty and differs from the record's completion key |
| MobileSummary.ToggleInvisibleAsWritten | mobile/src/components/Summary.tsx:39-42 | as written, tapping a milestone of a record from the table leaves the card's status unchanged |
| MobileSummary.ToggleKey | mobile/src/components/Summary.tsx:31 | corrected: the toggle key is the key the card reads |
| MobileSummary.ToggleShows | mobile/src/components/Summary.tsx:39-42 | corrected: a tap flips exactly the tapped milestone of the card and keeps the other three |
| MobileApp.Tail | mobile/App.tsx:16 | the text after the last '_' of an id holds no '_' |
| MobileApp.TailAfterUnderscore | mobile/App.tsx:16 | the part after the last '_' of an id is the index text appended there |
| MobileApp.RecordIdInjective | mobile/App.tsx:16 | ids end in the record's index, so ids that are equal come from the same index |
| MobileApp.Tags | mobile/App.tsx:16 | tagging keeps the table's length and gives record `i` the id built from its own fields and `i` |
| MobileApp.TagIdsUnique | mobile/App.tsx:16 | records at different indices get different ids |
| MobileApp.MonthDayKey | mobile/App.tsx:17 | a date has a numeric month/day key only when it splits on '/' into exactly two parts |
| MobileApp.ComparePairs | mobile/App.tsx:17 | (month, day) pairs compare lexicographically, zero exactly for equal pairs |
| MobileApp.NumericCompare | mobile/App.tsx:17 | the numeric-collation comparison is zero exactly for equal texts and puts an earlier month first |
| MobileApp.NumericCompareConsistent | mobile/App.tsx:17 | on "M/D" dates the comparison is a total preorder, so the sort is well defined |
| MobileApp.FirstSeenOfData | mobile/App.tsx:14-17 | the group keys are exactly the exam dates in the table |
| MobileApp.OrderedDatesSorted | mobile/App.tsx:17 | with "M/D" exam dates, `ordered` is sorted month by month and day by day, lists every exam date of the table and is a permutation of the group keys |
| MobileApp.GroupByDate | mobile/App.tsx:14-19 | the loop builds the grouping of the tagged table by date (each group in table order) and returns the sorted date keys |
| MobileApp.NoApplyRecord | mobile/App.tsx:40 | the "will not apply" record of a date is named '志願しない', carries the date and the id `NO_APPLY_<date>` |
| MobileApp.EffectMissesRename | mobile/App.tsx:37 | a tick stored under the legacy key of the only choice migrates to a one-entry map under the current key; the count is unchanged, so nothing is written and the card reads blank |
| MobileApp.App.constructor | mobile/App.tsx:22-31 | the start state: start phase, nothing grouped, chosen or ticked, deviation 60, no dialog |
| MobileApp.App.LoadTable | mobile/App.tsx:34 | the grouping and the sorted dates of the bundled table are stored; nothing else changes |
| MobileApp.App.LoadSaved | mobile/App.tsx:35 | stored choices and ticks are loaded as they are, and the deviation goes through the stored-deviation rule |
| MobileApp.App.CurrentDate | mobile/App.tsx:38 | the current date is the one under the cursor, and none when the cursor is off the list or on an empty date |
| MobileApp.App.BeginSelection | mobile/App.tsx:70 | starting re-reads the deviation and enters the selection phase, changing nothing else |
| MobileApp.App.OpenConfirm | mobile/App.tsx:42 | tapping a school opens the dialog for it |
| MobileApp.App.SelectNoApply | mobile/App.tsx:40-42 | on a current date the dialog opens for that date's "will not apply" record; without one nothing changes |
| MobileApp.App.Cancel | mobile/App.tsx:55 | the dialog closes and nothing else changes |
| MobileApp.App.Confirm | mobile/App.tsx:43-54 | without a pending record nothing changes; otherwise the record becomes its date's choice, completions are migrated for the new choices, the dialog closes and the cursor moves to the next date, or the summary opens from the last date once every date has a choice |
| MobileApp.App.AllSelected | mobile/App.tsx:56 | true exactly when there are dates and every one has a choice |
| MobileApp.App.Finish | mobile/App.tsx:57 | the summary opens exactly when every date has a choice |
| MobileApp.App.ToggleCompletion | mobile/App.tsx:58 | the completion map becomes the shared toggle rule applied to the key and milestone |
| MobileApp.App.Revisit | mobile/App.tsx:59 | a listed date puts the cursor on it and reopens selection; an unknown date changes nothing |
| MobileApp.App.ResetAll | mobile/App.tsx:60 | choices and ticks are cleared, the cursor returns to 0 and the start screen shows; the table stays loaded |
| MobileApp.App.FinishAllNoApply | mobile/App.tsx:61-67 | every open date gets its "will not apply" record (so every date has a choice), completions are migrated and the summary opens |
| MobileApp.App.MigrationEffect | mobile/App.tsx:37 | nothing happens before the table is grouped; afterwards the migration runs and its result is stored only when the key count differs |

## Left out

- Rendering and styling: JSX, colours as CSS values (modelled as the `Bands.Band` and `Summary.Mark` values), modals, progress bars, the start screens, the date navigators and the header.
- Persistence: `localStorage` and `AsyncStorage` reads and writes and JSON (de)serialisation. A stored value is a parameter (`Option<string>` for a missing one), and a read or parse failure is `None`. Saving is left out.
- Network and authentication: the calculator API, `fetch('/auth/…')` and src/pages/PointCalculatorPageNew.tsx are not part of this model. The API calls the selection step and the management page make are parameters that always succeed: `create`, `reloaded`, and the `parseFloat`/`toString` conversions (`parseFloat`, `show`).
- `window.confirm` and `alert`: the user's answer is the parameter `confirmed`, and an alert is an error value in the state.
- Framework timing: `useEffect` scheduling, `setTimeout`, async/await ordering, the loading flags and the scroll reset. Each handler's state writes happen together. Each effect is a method the caller runs when the effect would fire (`SchedulePage.Page.CleanupCompletions`, `MobileApp.App.MigrationEffect`, `MobileApp.App.LoadTable`, `MobileApp.App.LoadSaved`).
- File and format parsing: Papa, XLSX, `TextDecoder` with BOM sniffing, and line splitting in `legacyLoad`. Only the row mapping `mapColumnsFlexible` and the record clean-up are modelled. The file reads and the skip-if-exists logic of scripts/genExcelJson.mjs are also left out.
- The Excel serial-to-date arithmetic: the UTC month and day of a serial are a parameter of `Sheet.NormalDate`. The model covers the padding and the "MM/DD" text built from them.
- JavaScript `Date`: local midnight, daylight-saving shifts and `Math.round` on milliseconds. Day differences are whole days between proleptic Gregorian day numbers, and "today" is a parameter.
- Locale collation: `localeCompare(…, 'ja')`, and the locale-less `a.localeCompare(b)` fallback of `sortExamDates` (src/utils/date.js:26), are code-point order (`JsText.CodePointCompare`). Real collation differs, e.g. it puts "a" before "B" where code-point order puts "B" first. `{numeric: true}` is exact only for "M/D" keys and falls back to code-point order otherwise (`MobileApp.NumericCompare`).
- IEEE-754 doubles are `real`: no rounding error, no NaN or infinity beyond the cases the comparators handle, and no `toFixed` display. Numeric cells in the spreadsheet and JSON are whole numbers (`int`).
- ScoreEngine.CalculateResults: requires a non-zero ratio sum and a non-zero weight sum on the ratio pattern. The source divides by them unguarded; in JavaScript the result would be NaN or Infinity.
- ResultsStep.AdjustedExamScores: requires a non-zero original exam total. The source divides by it unguarded.
- PointCalculator.PageCalculate: requires the same non-zero sums as `ScoreEngine.CalculateResults`.
- SchoolSelection.SelectionStep.constructor: requires the list handed in to have distinct ids. The step keeps that invariant but cannot establish it for its parent's list.
- MobileApp.App.LoadTable: requires the cursor at 0. The table loads once, at start-up, before any navigation.
- MobileApp.App.LoadSaved and SchedulePage.Page.constructor: require the stored selections to be keyed by their own exam dates, as every write the app makes keeps them. A hand-edited store that breaks this is not modelled.
- MobileApp.GroupByDate: builds new tagged records instead of setting `id` on the bundled objects in place, so the aliasing of the raw table is not modelled.
- MobileStorage.MigrateCompletionKeys: a falsy entry in the selections map is not modelled, since every stored selection is a record.
- WebStorage.SchoolKey and MobileStorage.SchoolKey: the keys are plain strings. The model does not cover keys that collide with `Object.prototype` members such as `__proto__`.
- ExamDates.SortExamDates: the order of a list mixing dates that parse with dates that do not is not modelled. There the comparator is not a total preorder ("2/1" < "10/1" by month, "10/1" < "1x" and "1x" < "2/1" by code point), so `Array.prototype.sort` gives an implementation-defined order. The model's insertion sort fixes one order, and the contract promises only the same multiset of dates.
- Error and status messages are datatype values, not the source's Japanese and Korean texts.
- Build and bootstrap files, routing, and the type files are not part of this model. The types are mirrored as datatypes.

## Findings

| source | as written | input that shows it | evidently intended | confidence | as-written member | corrected member |
|---|---|---|---|---|---|---|
| mobile/src/components/Summary.tsx:31,39-42 | a card reads its status under `schoolKey(r)` but sends its toggles under `r.id \|\| schoolKey(r)` | any record from the bundled table, which `groupByDate` always gives a non-empty id (e.g. `2/10__A__一般__0`): tapping a milestone stores the tick under that id, and the card still shows it open | toggles are written under the key the card reads, so a tap flips the milestone shown | not executed | MobileSummary.ToggleInvisibleAsWritten | MobileSummary.ToggleShows |
