# Verified model of the worklog and analytics core

The product records what instructors did, stores it as minutes, cuts it into
weeks and reports it. Around that sit a CSV importer, a rate limiter, a chain of
model providers with a fetch queue in front of it, and the pseudonyms that keep
names out of what the providers see. This project models the parts of that code
that hold state, parse text or do exact arithmetic, in Dafny, and proves what
they are relied on for.

Every file is one module. A loop of the source is a method with a loop, an
object or module-level variable that the source updates is a class, and each is
tied to a function whose properties the lemmas prove.

| file | what it models |
|---|---|
| `Csv`, `CsvRoundTrip`, `CsvExports`, `CsvLineNumbers` | the CSV reader as a state machine, every file section 2 of RFC 4180 lets a writer produce, the product's two writers, and what the table parser does other than documented |
| `RateLimit` | the fixed-window limiter over a bounded, insertion-ordered map |
| `Intervals` | union and overlap of time intervals, and the adjacent-pair overlap scan |
| `Hours`, `DayAccounting` | minutes kept as two-decimal hours, and the per-day loop of the engine |
| `MetricTables`, `UniversityMetrics`, `Averages` | the stored daily and weekly tables, what the stored university rows are sums of, and the active average read from them |
| `Digits`, `Calendar`, `IsoDates`, `Periods` | dates as text, the Gregorian calendar, weeks of a month, weeks of a span, the period before |
| `Tracker` | the cells, rows and totals of the tracker grid |
| `Pseudonyms` | labels, the register that gives them out, and putting names back |
| `Gemini`, `InsightQueue` | the provider fallback chain with its cooldowns, and the bounded job queue |
| `ReportMerge`, `Durations`, `SpokenDurations` | activities rolled up into report lines, and durations printed, parsed, and read from words |
| `Text`, `Seqs`, `Ints`, `Options` | JavaScript's `trim`, sequences, integers, and optional values |

`dafny verify dfyconfig.toml` checks the whole project.

## Where the code and its documentation part

Named for each are the lemma that says, for all inputs, when the code does what is
promised, and one at an input where it does not. The condition is exact in all of
these but the last, where it is sufficient.

- `parseCsv` says long rows are kept intact (`src/server/import/csv.ts:156-158`).
  A row holds every cell of its record exactly when that is no longer than the
  header; the rest is cut (`CsvLineNumbers.LongRowsAreCut`, and
  `CsvLineNumbers.AnOverlongRowIsCut` at `1,2` under the header `a`).
- `rowNumbers` are documented as source lines and are record numbers. The two
  differ by the line breaks inside the values ahead, and agree exactly when there
  are none (`CsvLineNumbers.RecordNumbersAreNotLines`, and
  `CsvLineNumbers.AQuotedBreakShiftsTheLines` at one quoted line break).
- `splitRecords` reads a bare CR followed by an empty LF-terminated row as one
  CRLF, and drops a last unterminated row that is one empty cell.
  `CsvRoundTrip.ReadingInvertsWriting` shows that these are the only two ways a
  written file is misread (`CsvRoundTrip.EmptyRowsAreLost`).
- `decodeCell` undoes the apostrophe guard for exactly the values that do not look
  guarded themselves (`Csv.DecodeInvertsGuard`, `Csv.AGuardedLookingValue`).
- `weeksBetween` does not always end. A week past 9999 or before the year 0 is
  written with a sign, cut to ten characters and read back as the first of its
  month, so the cursor never moves again. The loop ends exactly when the first
  week starts in the year 0 or later and the last is followed by another in 9999
  or earlier (`Periods.SpanLoopEnds`; `Periods.TheLastWeekHangs` at `9999-12-31`,
  `Periods.TheFirstWeekHangs` at `0000-01-01`).
- `weeksOfMonth` ends for every month but `0000-01` (`Periods.MonthLoopEnds`,
  `Periods.TheFirstMonthHangs`), and is empty for `9999-12`
  (`Periods.WeeksOfMonth`).
- `previousPeriod` overlaps the period itself exactly when that is longer than the
  thousand days at which `eachDate` stops, or longer than seven days if it begins
  before the year 100 and ends in it or later, or begins in January or February of
  the year 0 and ends after them: `Date.UTC` reads a year below 100 as one of the
  1900s (`Periods.PeriodBefore`; `Periods.ALongPeriodOverlaps` at 1001 days,
  `Periods.AcrossTheYear100Overlaps` and `Periods.AcrossTheFirstLeapDayOverlaps` at
  eight).
- The university row is called the sum of its instructors by construction
  (`src/server/analytics/rollup.ts:115-116`). The stored row is the sum of the
  stored daily rows of its date exactly when the last call that wrote it listed
  everybody who has one (`UniversityMetrics.WhenUniversityAddsUp`, and
  `UniversityMetrics.AShorterListLeavesRowsBehind` at a second call without one
  of two instructors).
- `formatMinutes` writes a sign that `parseWorkingMinutes` does not read, so a
  negative duration comes back positive; `compactDuration` prints `0m`, which the
  parser refuses (`Durations.FormattedReadsBack`, `Durations.CompactReadsBack`,
  `Durations.WhatIsNotReadBack`).
- The spellings of `src/domain/worklog-hours.ts:4-7` are not all alike. A length in
  words is refused exactly when it comes to nothing, and a decimal exactly when it
  is above twelve hours (`Durations.SpellingsAgree`, `Durations.DecimalReads`, and
  `Durations.WhereSpellingsDiffer` at `0 hours 0 minutes` and `12.5`).
- A cell of the tracker can drift from its row (`src/server/analytics/tracker.ts:408-409`
  says it never does). The hours printed in a row's cells add up to the row's exactly
  when the weeks whose minutes leave 1 when divided by three and those that leave 2
  differ in number by at most one (`Tracker.CellsDriftFromTheRow`, and
  `Tracker.ThreeTwentyMinuteWeeks` at 0.33 three times under 1.00).
- Restoring names label by label is not always restoring them at once
  (`Pseudonyms.RestoringNamesEveryMention`). A name that holds a label is replaced
  again (`Pseudonyms.ANameMayPassForALabel`), and it is
  not enough that no label is followed by a capital
  (`Pseudonyms.AnOverlapGoesByTurns`). `University` in a name is harmless unless
  the text then goes on as a label would.

## Model

| member | source | states |
|---|---|---|
| `Csv.SplitRecords` | src/server/import/csv.ts:51-123 | the loop over quoted flag, field and record computes `Split`, the function the round-trip lemmas are about |
| `CsvRoundTrip.ReadBack` | src/server/import/csv.ts:51-123 | for any file of quoted or bare cells, commas and LF, CR or CRLF terminators in any mix, exactly what comes back |
| `CsvRoundTrip.ReadingInvertsWriting` | src/server/import/csv.ts:51-123 | reading gives back exactly the rows written if and only if no bare CR stands before an empty LF-terminated row and the file does not end in an unterminated single empty cell |
| `CsvRoundTrip.OneTerminator` | src/server/import/csv.ts:51-123 | with one terminator used throughout, whichever it is, every row comes back |
| `CsvRoundTrip.FinalTerminatorIsOptional` | src/server/import/csv.ts:118-120 | leaving out the last terminator changes what is read exactly when the last row is a single empty cell |
| `CsvRoundTrip.EmptyRowsAreLost` | src/server/import/csv.ts:105-120 | two empty rows, the first ended by CR and the second by LF, come back as one; an unterminated empty row does not come back |
| `CsvExports.SheetExportReadsBack` | src/app/_components/WorklogScreen.tsx:359 | the sheet export, every cell quoted and rows joined by CRLF, reads back as the same rows if and only if the last row is not one empty cell |
| `CsvExports.ImportUndoesExport` | src/server/reports/generator.ts:96-106 | importing a report export gives back its headers and its non-blank rows, trimmed and unguarded, under their own record numbers |
| `CsvRoundTrip.AQuoteLeftOpen` | src/server/import/csv.ts:105-123 | a quote that is never closed takes the rest of the file into its cell and what stands before comes back as ever; only an empty one alone on its row leaves nothing |
| `Csv.DecodeInvertsGuard` | src/server/import/csv.ts:126-129 | decoding undoes the formula guard, up to outer white space, for exactly the values that do not look guarded to begin with; guarded are values that begin with `=`, `+`, `-`, `@`, tab or CR |
| `Csv.AGuardedLookingValue` | src/server/import/csv.ts:126-129 | the value `'=1` comes back as `=1` |
| `Csv.DataNumbersAreTheDataRows` | src/server/import/csv.ts:149-162 | the row numbers are the non-blank records after the header, all of them, each once, in order |
| `Csv.ParseCsv` | src/server/import/csv.ts:136-167 | the parser's four refusals and its table, as a function of the text |
| `Csv.WhenRefused` | src/server/import/csv.ts:136-167 | each refusal, and acceptance, if and only if: nothing but white space; no record that is not blank; the first such record decodes to nothing; no other such record after it |
| `Csv.TableMeans` | src/server/import/csv.ts:136-167 | a table's headers are the decoded cells of the first record that is not blank, and its rows those of all others that are not, in order, under their own numbers, cell by cell under the headers |
| `CsvExports.CsvCellIsWellFormed` | src/server/reports/generator.ts:96-103 | a cell is quoted exactly when, guarded, it holds a quote, a comma, LF or CR |
| `CsvLineNumbers.RecordNumbersAreNotLines` | src/server/import/csv.ts:149-162 | in any written file, the line on which record `n` starts is `n` plus the line breaks inside the values ahead, so it is `n` exactly when no value ahead holds one |
| `CsvLineNumbers.AQuotedBreakShiftsTheLines` | src/server/import/csv.ts:149-162 | after a header with one quoted line break the first data row has the number 2 and starts on line 3 |
| `CsvLineNumbers.LongRowsAreCut` | src/server/import/csv.ts:156-160 | a data row holds every cell of its record exactly when the record is no longer than the header; a longer one is cut, a shorter one padded with empty cells |
| `CsvLineNumbers.AnOverlongRowIsCut` | src/server/import/csv.ts:156-160 | under the header `a` the record `1,2` becomes the row `1` |
| `RateLimit.Limiter.HitAt` | src/server/http/rate-limit.ts:41-101 | a hit with its sweep, eviction and untracked fallback changes the bucket map and answers as `Hit` says, and keeps the map valid |
| `RateLimit.Limiter.Forget` | src/server/http/rate-limit.ts:117-119 | forgetting drops one key |
| `RateLimit.DeleteKeepsPlaces` | src/server/http/rate-limit.ts:117-119 | and leaves the rest in their order |
| `RateLimit.HitKeepsPlaces` | src/server/http/rate-limit.ts:41-101 | a hit leaves the tracked keys in the order they were inserted, and a key that was not tracked goes last |
| `RateLimit.HitEffects` | src/server/http/rate-limit.ts:41-101 | one hit keeps the bound, leaves every other live bucket as it was save at most the oldest unthrottled one of a map full of live buckets, and goes untracked exactly when all of those are throttled |
| `RateLimit.NeverOverfull` | src/server/http/rate-limit.ts:33-101 | on every run of hits, forgets and resets the map holds distinct keys and never more than the maximum |
| `RateLimit.NothingRemainingIsAtLimit` | src/server/http/rate-limit.ts:78-100 | an answer to a hit on a tracked key with nothing remaining means the key is at its limit until its window resets |
| `RateLimit.NeverReleasedEarly` | src/server/http/rate-limit.ts:69-99 | a key at its limit is refused by every later hit with that limit until its window resets, whatever happens to other keys in between |
| `RateLimit.RetryAfterIsExact` | src/server/http/rate-limit.ts:90-100 | waiting as many seconds as a refusal asks is enough, and one second less is not |
| `RateLimit.AnsweredFromHistory` | src/server/http/rate-limit.ts:41-101 | on every run from the empty map with a clock that does not go back, each hit is answered by its number among the hits on its key in its window, counted in the run's own history of operations and lost keys: the first is allowed and the others up to the limit, the rest of the limit remains, and a refusal asks for the seconds until the window ends |
| `RateLimit.WithinTheLimit` | src/server/http/rate-limit.ts:91-100 | with a limit of at least one, the `j`-th hit of a window is allowed if and only if `j` is within the limit, as many remain as the limit leaves, and no wait is asked if and only if it is allowed |
| `RateLimit.OnlyTheIdleAreLost` | src/server/http/rate-limit.ts:45-86 | a key whose window is lost is the oldest unthrottled one of a map full of live windows, or the key hit when all of those are throttled |
| `RateLimit.RefinesUnbounded` | src/server/http/rate-limit.ts:41-101 | as long as the live keys fit, the same with no key ever lost: every answer of the run follows from its operations alone |
| `Intervals.UnionHours` | src/server/analytics/engine.ts:136-157 | the sorted sweep returns the number of milliseconds covered by at least one interval, in hours |
| `Intervals.UnionIgnoresOrderAndRepetition` | src/server/analytics/engine.ts:136-157 | lists of the same intervals in any order and number cover the same time |
| `Intervals.OverlapHours` | src/server/analytics/engine.ts:160-166 | the plain sum less the union, which is never negative |
| `Intervals.ExcessIsTheSharedTime` | src/server/analytics/engine.ts:160-166 | for intervals of positive length, overlap hours are positive exactly when two of them share time |
| `Intervals.ScanOverlaps` | src/server/analytics/exceptions.ts:264-283 | the scan flags each adjacent pair, in order of start, in which the later begins before the earlier ends, with the rounded minutes |
| `Intervals.FlagsSayWhatIsShared` | src/server/analytics/exceptions.ts:264-283 | there is one flag for each neighbour that starts before the one ahead ends, in order, naming the earlier first, with the minutes the two share to the nearest |
| `Intervals.SortIsStable` | src/server/analytics/engine.ts:136-157 | sorting by start keeps intervals that start together in their order |
| `Intervals.ScanFindsSharedTime` | src/server/analytics/exceptions.ts:264-283 | comparing neighbours only is enough: a flag is raised exactly when some two intervals of the day share time, exactly when overlap hours are positive |
| `Hours.MinutesSurvive` | src/server/analytics/rollup.ts:23-24 | whole minutes written as hours to two decimals come back exactly, for every number of minutes |
| `Hours.PercentMeans` | src/server/analytics/rollup.ts:332 | a percentage is given exactly when there is a capacity, in hundredths, and is within half a hundredth of a hundred times the ratio |
| `Hours.Halfway` | src/server/analytics/rollup.ts:23-24 | halves of a hundredth are rounded away from zero, halves of a whole number up |
| `Hours.RoundIsNearest` | src/server/analytics/rollup.ts:24 | rounding to whole minutes is off by half a minute at most |
| `Hours.PublishedTotalIsClose` | src/server/analytics/engine.ts:610-611 | a rounded sum of `n` rounded figures is within 0.005 (n + 1) of the exact sum |
| `DayAccounting.Account` | src/server/analytics/engine.ts:462-587 | the day loop: every row and total, with capacity equal to missing plus unutilized plus what the work took up |
| `DayAccounting.PublishedProductiveIsClose` | src/server/analytics/engine.ts:593-614 | published productive hours over `n` instructors are within 0.005 (n + 1) of the minutes everybody recorded |
| `DayAccounting.StoredMinutesBalance` | src/server/analytics/rollup.ts:157-177 | a stored daily row's productive minutes are the recorded ones; it counts as a working day exactly when it is open, employed and not on leave, and otherwise says why not, leave before closure before employment; the capacity of a working day is the window less the break; capacity is missing plus unutilized plus the lesser of productive and capacity, and missing is all of it exactly when nothing was filed on a working day |
| `MetricTables.Summarise` | src/server/analytics/rollup.ts:115-199 | walking the instructors' days pushes one row for each and adds the same rows up date by date |
| `MetricTables.EntriesAreDays` | src/server/analytics/rollup.ts:115-199 | the rows pushed are exactly one for each day of each instructor, under their key, with that day's minutes |
| `MetricTables.Tables.RollupUniversityDaily` | src/server/analytics/rollup.ts:96-268 | one completed roll-up changes the three tables, sums and percentages, as `Roll` says, and returns how many rows of each kind it wrote |
| `MetricTables.Tables.RollupInstructorWeekly` | src/server/analytics/rollup.ts:282-355 | in each week the window touches, everybody with stored days gets a row whose every figure (capacity, productive, unutilized, missing, working days, percentage) is that of the week's days; the other rows stay, and the rows written are counted |
| `MetricTables.RollKeepsConsistent` | src/server/analytics/rollup.ts:96-355 | a roll-up of any window keeps every figure of every weekly row the sum of that figure over the stored days of its Monday to its Sunday, also in weeks it only touches in part |
| `MetricTables.WeeksAlwaysAddUp` | src/server/analytics/rollup.ts:96-355 | after any sequence of completed roll-ups every figure of every weekly row is the sum of that figure over its stored days, and every stored day is in a stored week |
| `MetricTables.RepeatingChangesNothing` | src/server/analytics/rollup.ts:55-62 | rolling the same window up again over an unchanged source leaves all three tables unchanged |
| `Averages.AverageActiveMinutes` | src/domain/average-hours.ts:86-95 | one sum of minutes over one sum of counts, or none |
| `UniversityMetrics.UniversityFigures` | src/server/analytics/rollup.ts:115-260 | each figure of a stored university row is the sum of that figure over the rows its last call pushed for the date: their number, minutes of each kind, working days, active minutes and how many were active |
| `UniversityMetrics.SumRowsAddsUp` | src/server/analytics/rollup.ts:115-116 | so is each figure of the sum of stored daily rows |
| `UniversityMetrics.UniversityRowIsLast` | src/server/analytics/rollup.ts:115-260 | after any sequence of roll-ups a stored university row is the sum of the rows its last call pushed for the date |
| `UniversityMetrics.WhenUniversityAddsUp` | src/server/analytics/rollup.ts:115-116 | it is the sum of the stored daily rows of the date if and only if that call listed everybody who has one |
| `UniversityMetrics.AShorterListLeavesRowsBehind` | src/server/analytics/rollup.ts:115-116 | after a second call that lists one of two instructors the row counts one and the stored rows two |
| `UniversityMetrics.EngineRowsAreNotNegative` | src/server/analytics/rollup.ts:157-177 | rows made of what the engine's day loop returns have no negative minutes |
| `UniversityMetrics.StoredActiveMinutesAreAll` | src/server/analytics/rollup.ts:182-195 | in every stored university row the active-minutes column equals the productive one, and somebody is counted active exactly when there are any |
| `Averages.AverageIsBetween` | src/domain/average-hours.ts:86-95 | the average is absent exactly when nobody was active on a day of the period, and otherwise lies between the smallest and largest active instructor-day of the period |
| `Averages.StoredAverageIsBetween` | src/domain/average-hours.ts:86-95 | the same of the average read from the stored rows of any universities and dates, after any sequence of roll-ups |
| `Averages.JoinedPeriodsAreWeighted` | src/domain/average-hours.ts:86-95 | the average of joined periods is the mean of theirs weighted by their counts |
| `Calendar.DayNumberOrders` | src/domain/periods.ts:20-24 | day numbers order dates as the calendar does |
| `Calendar.DayNumberFromMarch` | src/domain/periods.ts:20-24 | the day number of every date is given by a formula in year, month and day that knows no month's length |
| `Calendar.MonthTable` | src/server/analytics/tracker.ts:148-151 | the days of a year ahead of a month are those of the table of section 21.4.1 of ECMA-262, and one more from March on in a leap year |
| `Calendar.KnownDays` | src/server/analytics/tracker.ts:148-159 | day 0 is a Thursday; the 29th of April 2024 is a Monday, and six days later it is the 5th of May |
| `Calendar.WeekdaysRepeat` | src/server/analytics/tracker.ts:155-159 | the days since Monday are those of day 0, counted on by sevens |
| `Calendar.DateOfDayNumber` | src/domain/periods.ts:20-24 | every date is the date of its day number |
| `IsoDates.StampReadsBack` | src/domain/periods.ts:20-24 | a day of the years 0 to 9999, written as text, reads back as that day |
| `IsoDates.DayOfWritesBack` | src/domain/periods.ts:20-24 | a date read from text is written as that text |
| `IsoDates.TextOrderIsCalendarOrder` | src/domain/periods.ts:50-55 | dates of four-digit years compare as text just as they do in the calendar |
| `IsoDates.LaterYearsSortFirst` | src/domain/periods.ts:43-50 | a date past 9999, as it is written, sorts before every four-digit one |
| `Periods.WeeksOfMonth` | src/domain/periods.ts:42-58 | four to six buckets numbered from one, each the days of one Monday week, that laid end to end are the month's days each once and in order; none for 9999-12 |
| `Periods.MonthHolds` | src/domain/periods.ts:42-58 | the days from a month's first to the next month's first are exactly those whose date is of that year and month |
| `Periods.ClipIsIntersection` | src/domain/periods.ts:53 | clipping a run of dates by comparing text keeps exactly the days of the month |
| `Periods.WeeksBetween` | src/server/analytics/tracker.ts:167-185 | consecutive Monday weeks from the week of the first date to that of the last, numbered, with the current one marked |
| `Periods.EachDateHasItsWeek` | src/server/analytics/tracker.ts:374-376 | a date of the span lies, as text compares, in exactly one of the weeks |
| `Periods.CurrentWeek` | src/server/analytics/tracker.ts:179 | a week is marked current exactly when today is one of its seven days |
| `Periods.AWeekInTwoMonths` | src/server/analytics/tracker.ts:148-159 | `2024-04-29` is its own Monday, and six days after it comes `2024-05-05` |
| `Periods.SpanLoopEnds` | src/server/analytics/tracker.ts:148-184 | over the cursor read from its text and written seven days on: the loop never throws, and some cursor is past the last date if and only if the first week starts in the year 0 or later and the last is followed by another in 9999 or earlier |
| `Periods.MonthLoopEnds` | src/domain/periods.ts:42-58 | the loop over the weeks of a month ends if and only if the month is not 0000-01 |
| `Periods.CursorSticks` | src/server/analytics/tracker.ts:148-184 | past 9999 the week cursor never moves again and no date sorts before it |
| `Periods.BeforeTheYearZero` | src/server/analytics/tracker.ts:148-184 | a week that begins before the year 0 is written `-000001-12`, and so is the next; it sorts before every date |
| `Periods.TheLastWeekHangs` | src/server/analytics/tracker.ts:167-184 | no cursor gets past 9999-12-31, from whatever date |
| `Periods.TheFirstWeekHangs` | src/server/analytics/tracker.ts:167-184 | from 0000-01-01 no cursor gets past any date |
| `Periods.TheFirstMonthHangs` | src/domain/periods.ts:42-58 | no cursor gets through 0000-01; the month after 9999-12 begins on a day that four digits cannot write |
| `Periods.EachDate` | src/server/analytics/engine.ts:169-182 | the dates from first to last in order, at most a thousand, of the years that `Date.UTC` makes of them and as the formatter writes them |
| `Periods.WorkDatesAreDates` | src/server/analytics/engine.ts:169-182 | from the year 1000 on the dates listed are the dates as they are stored |
| `Periods.WorkDateIsStored` | src/server/analytics/engine.ts:169-182 | a date listed is written as it is stored if and only if it is of the year 1000 or later |
| `Periods.PeriodBefore` | src/server/analytics/engine.ts:241-253 | the period before is as long, and up to a week lies exactly seven days back; it ends before the period begins exactly when that has at most a thousand days, and the day before exactly when it also has at least seven; the bound is seven days for a period that begins before the year 100 and ends in it or later, or begins in the first two months of the year 0 and ends after them |
| `Periods.AcrossTheYear100Overlaps` | src/server/analytics/engine.ts:169-253 | of the eight days from 0099-12-30 none is listed, and the period before ends on the day these begin |
| `Periods.AcrossTheFirstLeapDayOverlaps` | src/server/analytics/engine.ts:169-253 | of the eight days from 0000-02-28 seven are listed, and the period before ends on the day these begin |
| `Periods.ALongPeriodOverlaps` | src/server/analytics/engine.ts:241-253 | the period before the 1001 days from 2000-01-01 ends on the day these begin |
| `Tracker.Seed` | src/server/analytics/tracker.ts:314-352 | one blank row for every instructor the engine lists, active as first listed, with a blank cell for exactly the weeks listed and their capacity rounded at each addition |
| `Tracker.Fill` | src/server/analytics/tracker.ts:374-400 | adding the entries one by one leaves each cell and each row holding the days, minutes and remarks of its week and of the span |
| `Tracker.RowsAddUp` | src/server/analytics/tracker.ts:374-400 | a row's days and minutes are both the sum over its cells and the sum over the instructor's entries in the span |
| `Tracker.RecordedMeans` | src/server/analytics/tracker.ts:374-395 | what is recorded of an instructor from one date to another is as many days as they have entries in that stretch of the calendar, and the sum of those entries' minutes |
| `Tracker.RemarksOnce` | src/server/analytics/tracker.ts:397-399 | a cell prints each trimmed remark of its week that says something, once, in the order they first come up |
| `Tracker.VisibleRowsHoldAll` | src/server/analytics/tracker.ts:402-406 | the rows left out hold nothing, so the rows shown hold everything the listed instructors recorded |
| `Tracker.TotalsAreClose` | src/server/analytics/tracker.ts:408-430 | the grid's days are exactly those recorded, and its hours over `n` rows are within 0.005 (n + 1) of the minutes recorded |
| `Tracker.CapacityIsClose` | src/server/analytics/tracker.ts:349-430 | capacity rounded at every week and once more in total is within 0.005 for each listing and one, and exact when the engine's figures have two decimals |
| `Tracker.EngineCapacities` | src/server/analytics/engine.ts:598 | the engine's figures have two decimals, because it rounds them |
| `Tracker.Publish` | src/server/analytics/tracker.ts:408-422 | every row has its hours and its cells' hours, derived once from their minutes, and exactly the rows shown have a percentage |
| `Tracker.FiguresMean` | src/server/analytics/tracker.ts:408-422 | a row's hours are within half a hundredth of its minutes, and its percentage is what they are of its capacity, if it is shown and has any |
| `Hours.EachAdditionIsRounded` | src/server/analytics/tracker.ts:349 | a row's capacity is rounded to a hundredth at each week added |
| `Tracker.CellsDriftFromTheRow` | src/server/analytics/tracker.ts:408-415 | how far the hours of a row's cells, added up, are from the row's: by a third of a hundredth for each of the weeks by which those leaving 1 minute over threes outnumber those leaving 2, less the row's own rounding; so they agree if and only if the two kinds differ in number by at most one, and never differ by more than a third of a hundredth for each week and one |
| `Tracker.ThreeTwentyMinuteWeeks` | src/server/analytics/tracker.ts:408-415 | three weeks of 20 minutes are printed 0.33 each under a row of 1.00 |
| `Tracker.BuildTracker` | src/server/analytics/tracker.ts:275-452 | the grid from weeks to totals has all of these properties; it shows the active and, of former staff, exactly those who filed a day, counts both, and publishes a percentage of the totals; there is no grid when the span ends before its first week |
| `Pseudonyms.ValueOfSuffix` | src/server/ai/pseudonyms.ts:68-74 | the letters of a number are read back as it |
| `Pseudonyms.SuffixOfValue` | src/server/ai/pseudonyms.ts:68-74 | every run of capitals is the letters of its number |
| `Pseudonyms.SuffixOf` | src/server/ai/pseudonyms.ts:68-74 | the loop computes those letters |
| `Pseudonyms.LabelsAreDistinct` | src/server/ai/pseudonyms.ts:75-76 | two labels are alike only for the same kind and number |
| `Pseudonyms.Register.LabelFor` | src/server/ai/pseudonyms.ts:79-98 | a blank name stays itself, a known name keeps its label, a new one gets the next |
| `Pseudonyms.NamesAndLabelsPairOff` | src/server/ai/pseudonyms.ts:79-98 | labels are alike exactly when the names are |
| `Pseudonyms.AsNameIsClean` | src/server/ai/pseudonyms.ts:131-132 | a name comes out with only characters that stay and single spaces, none at either end, and a second cleaning changes nothing; a name of which nothing stays is left as it is |
| `Pseudonyms.AsNameIsItsWords` | src/server/ai/pseudonyms.ts:131-132 | what comes out is the name's words with single spaces between them: white space ends a word, and a character that is neither a letter nor one of the four signs is dropped without ending one |
| `Pseudonyms.Put` | src/server/ai/pseudonyms.ts:120-138 | the loop replaces the labels of both registers one after the other, longest first, by their names cleaned; if no name holds a label and the text is a readable reply, what comes back is that reply with every mention named |
| `Pseudonyms.HandedOutApart` | src/server/ai/pseudonyms.ts:75-122 | the labels of both registers, people first, are numbered from one on and all different |
| `Pseudonyms.LabelsGivenOut` | src/server/ai/pseudonyms.ts:79-122 | the label put back for a name is the one its register gave it |
| `Pseudonyms.SequentialIsSimultaneous` | src/server/ai/pseudonyms.ts:134-138 | after each label's turn exactly its mentions read as its name, as long as no label begins anywhere but at its mentions |
| `Pseudonyms.RestoringNamesEveryMention` | src/server/ai/pseudonyms.ts:120-138 | with the labels of any two registers, for names that hold no label, in text whose only labels are the mentions and where no piece of text, label or name ends in the start of a label that what follows completes, replacing in turn equals replacing every label at once, and names every mention |
| `Pseudonyms.NeighbourlyIsReadable` | src/server/ai/pseudonyms.ts:120-138 | it is enough that, of any two neighbouring pieces in either of their readings, the second does not go on with a label that the first ends in the start of |
| `Pseudonyms.MayCompleteIsExact` | src/server/ai/pseudonyms.ts:134-138 | a piece may be gone on with by the next exactly when there is a text after the two with which a label crosses the end of the first |
| `Pseudonyms.OrdinaryTextFollows` | src/server/ai/pseudonyms.ts:134-138 | text that begins with a space and no capital, or with a character that is neither a capital nor in `Person` or `University`, may follow any name and any label |
| `Pseudonyms.PersonPLed` | src/server/ai/pseudonyms.ts:134-138 | `Person P led` is readable, though its label ends in the first letter of another |
| `Pseudonyms.AllAtOnceNames` | src/server/ai/pseudonyms.ts:120-138 | one pass that replaces the longest label standing at each place names every mention |
| `Pseudonyms.ANameMayPassForALabel` | src/server/ai/pseudonyms.ts:134-138 | a first name that reads `Person B` is replaced again by the second person's name |
| `Pseudonyms.AnOverlapGoesByTurns` | src/server/ai/pseudonyms.ts:120-138 | with sixteen names given out, whatever they are after the first, `Person Person A` is restored to one text by turns and to another at once |
| `Gemini.Provider.PostGenerate` | src/server/ai/gemini.ts:248-307 | one call walks the chain: what it returns, remembers, counts and sends |
| `Gemini.TurnIsPatient` | src/server/ai/gemini.ts:226-305 | a request that is sent respects every earlier refusal of its model, and what is remembered after it covers the cooldown of every refusal so far |
| `Gemini.OneCallAsks` | src/server/ai/gemini.ts:248-307 | one call asks, in chain order and each at most once, exactly the models that were not cooling down and before which every earlier one was cooling down or failed retryably; outbound calls grow by exactly that many |
| `Gemini.OneCallReturns` | src/server/ai/gemini.ts:255-306 | a call returns an answer if and only if a model that was asked answered, a failure if and only if the last model reached was asked and failed so, that the quota is out if and only if the chain ran to its end on a model that was cooling down, and that nothing was attempted if and only if the chain is empty |
| `Gemini.SkippedExactly` | src/server/ai/gemini.ts:207-307 | after any run of calls a model is skipped if and only if some refusal of its own has not been waited for: the long cooldown for the day's quota, the short one for anything else |
| `Gemini.RunIsPatient` | src/server/ai/gemini.ts:207-307 | over any run of calls a model that failed for capacity is sent no request until its cooldown is over |
| `InsightQueue.Queue.Pump` | src/app/_lib/insight-queue.ts:25-34 | the loop starts waiting jobs, in order, while there is room |
| `InsightQueue.Queue.Enqueue` | src/app/_lib/insight-queue.ts:42-51 | a job goes last and the queue is filled again |
| `InsightQueue.Queue.Settle` | src/app/_lib/insight-queue.ts:29-32 | a job that settles, well or badly, frees its slot and the queue is filled again |
| `InsightQueue.Queue.Depth` | src/app/_lib/insight-queue.ts:54 | the depth is the number of jobs waiting or running |
| `InsightQueue.EveryRunIsBounded` | src/app/_lib/insight-queue.ts:18-51 | in every reachable state at most three jobs run, one waits only while three do, and jobs start in the order enqueued |
| `InsightQueue.StartedInTurn` | src/app/_lib/insight-queue.ts:18-51 | enqueued equals waiting plus running plus finished, and the jobs started are exactly the first finished + 3 |
| `InsightQueue.NobodyStarves` | src/app/_lib/insight-queue.ts:36-51 | unless every job has finished one is running, and whichever settles finishes one more, so if every started job settles every job runs |
| `ReportMerge.RollUp` | src/domain/rollup.ts:126-207 | the loop over the payloads, each resolved by its deliverable's code, its category's name or the fallback, the map of lines and the sort compute the report of the activities that happened |
| `ReportMerge.TheCodeDecides` | src/domain/worklog-taxonomy.ts:432-451 | a deliverable's known code decides whatever the category; without one the category's name does, in any case and with any space around it, and otherwise the fallback |
| `ReportMerge.OnlyAbsencesAreLeftOut` | src/domain/working-hours.ts:77-102 | a missed or excused activity changes nothing in the report, and any other adds its hours to the total |
| `ReportMerge.LineOfOne` | src/domain/rollup.ts:148-179 | the line of one activity: its hours, minutes and start, and the quantity stated; an occurrence of which none is stated counts as one, and anything else is unknown |
| `ReportMerge.RemarksAreKeptOnce` | src/domain/rollup.ts:85-88 | of all activities, those that did not happen included, each remark that is not blank is kept once, in first-seen order |
| `ReportMerge.HeaviestFirstIsStable` | src/domain/rollup.ts:181-183 | the lines heaviest first, the same lines, those of equal weight in first-seen order |
| `ReportMerge.FindInReport` | src/domain/rollup.ts:126-179 | a report has a line for exactly the names that some activity that happened goes by, holding the tally of those activities |
| `ReportMerge.TallyMeans` | src/domain/rollup.ts:150-178 | a line's hours are the sum of its activities' and its minutes the sum of their rounded minutes, its first start is the earliest, and its quantity is unknown exactly when one of theirs is and otherwise what `sumQuantities` gives |
| `ReportMerge.TotalIsEveryHour` | src/domain/rollup.ts:185-190 | the report's hours are the hours of everything that happened, however it is grouped |
| `ReportMerge.ReportsMerge` | src/domain/rollup.ts:126-207 | rolling up two lists together is merging their reports name by name, and the hours add |
| `ReportMerge.OrderDoesNotMatter` | src/domain/rollup.ts:126-207 | permuting the activities changes no line's hours, minutes, quantity or first start, and not the total |
| `Durations.FormattedReadsBack` | src/app/_lib/format.ts:131-137 | `parseWorkingMinutes` of `formatMinutes` is the rounded minutes exactly when they are not negative; a negative one loses its sign, and no value reads back as none |
| `Durations.FormattedHoursReadBack` | src/app/_lib/format.ts:146-149 | `formatHours` reads back as its hours' minutes, rounded, under the same condition |
| `Durations.WorkingHoursReadBack` | src/domain/worklog-report.ts:85-88 | `parseWorkingMinutes` of `workingHours` is the rounded minutes, at least zero |
| `Durations.CompactReadsBack` | src/domain/worklog-report.ts:69-76 | `parseWorkingMinutes` of `compactDuration` is the rounded minutes when positive, and none for `0m` |
| `Durations.PaddedToTheCharacter` | src/app/_lib/format.ts:131-137 | below a hundred hours what is printed is two digits, `h`, a space, two digits and `m` |
| `Durations.CompactToTheCharacter` | src/domain/worklog-report.ts:69-76 | the compact form leaves out hours or minutes that are none, and prints minutes when both are |
| `Durations.WhatIsNotReadBack` | src/domain/worklog-hours.ts:28-77 | `-01h 30m` is read as 90 minutes and `0m` is refused |
| `Durations.SpellingsAgree` | src/domain/worklog-hours.ts:4-7 | for any hours and one or two digits of minutes `H:M`, `HhM`, `Hh Mm` and `H h M` parse alike, to 60 H + M, or to none from 60 minutes on; `H hours M minutes` parses like them if and only if it does not come to nothing, which is refused |
| `Durations.DecimalReads` | src/domain/worklog-hours.ts:32-77 | a decimal number of hours is refused above twelve and otherwise read as its minutes, rounded |
| `Durations.DecimalsAgree` | src/domain/worklog-hours.ts:4-7 | a decimal that comes to whole minutes is read like `H:M` if and only if it is at most twelve hours |
| `Durations.WhereSpellingsDiffer` | src/domain/worklog-hours.ts:32-77 | `0:0` is zero and `0 hours 0 minutes` is refused; `12:30` is 750 minutes and `12.5` is refused |
| `SpokenDurations.HoursInWords` | src/domain/worklog-hours.ts:60-75 | a number, whole or decimal, and a unit of hours among other words are its minutes, rounded, unless they come to nothing |
| `SpokenDurations.MinutesInWords` | src/domain/worklog-hours.ts:60-75 | a number and a unit of minutes among other words are that many minutes, also beyond 59, unless none |
| `SpokenDurations.BothInWords` | src/domain/worklog-hours.ts:60-75 | hours and after them minutes among other words are both together, refused from 60 minutes on or when they come to nothing |
| `SpokenDurations.HoursAlone` | src/domain/worklog-hours.ts:57-58 | a number and any unit of hours, and nothing else, are its minutes, rounded, also beyond twelve hours |
| `SpokenDurations.MinutesAlone` | src/domain/worklog-hours.ts:41-46 | a number and any unit of minutes, and nothing else, are that many, unless none |
| `SpokenDurations.NumberAlone` | src/domain/worklog-hours.ts:32-58 | a number and nothing else is hours, refused above twelve |
| `SpokenDurations.ClockInFull` | src/domain/worklog-hours.ts:48-54 | hours, a colon or `h` and one or two digits of minutes, with any space between and any ending for minutes, refused from 60 minutes on |
| `SpokenDurations.ThreeDigitsAreRefused` | src/domain/worklog-hours.ts:48-54 | hours, a colon and three digits or more are refused |
| `SpokenDurations.NeitherUnit` | src/domain/worklog-hours.ts:60-77 | text with no `h`, `m` or colon in it that is not a number alone is refused |
| `SpokenDurations.SpaceAndCaseDoNotMatter` | src/domain/worklog-hours.ts:28-30 | space around a text and capitals in it make no difference |
| `SpokenDurations.AboutTwoHours` | src/domain/worklog-hours.ts:60-75 | `about 2 hours` is 120 minutes and `90 minutes` is 90 |
| `Durations.ReadsHoursMinutes` | src/domain/worklog-hours.ts:48-54 | digits, an hours sign and one or two digits are hours and minutes, refused above 59 minutes |

## Left out

- Floating point: hours are exact rationals and rounding is exact, so a tie or a sum that binary doubles would tip is not modelled.
- UTF-16: text is a sequence of Dafny characters, so surrogate pairs are single characters.
- Durations.ParseWorkingMinutes: lower-cases ASCII letters only, where JavaScript lower-cases all of Unicode; no printer of the product writes such a letter.
- SpokenDurations.NeitherUnit: says of text without units that it is refused, not of every text that is.
- Periods.WeeksBetween: a Dafny loop has to end, so it requires `WalksInTime`, which `Periods.SpanLoopEnds` proves is exactly where the source's loop ends.
- Periods.WeeksOfMonth: requires `CutsInTime` likewise, by `Periods.MonthLoopEnds` every month but 0000-01.
- Tracker.BuildTracker: requires `WalksInTime` for the same reason. The labels of weeks, the queries' scoping and the order rows are shown in (`localeCompare`) are not modelled.
- Pseudonyms.RestoringNamesEveryMention: the condition on text and names is sufficient, not necessary; text outside it can still come out right by chance.
- Pseudonyms.AsName: which characters Unicode counts as letters or marks is a parameter.
- MetricTables.WeeksAlwaysAddUp: calls complete and each instructor belongs to one university; the errors `recomputeDay` swallows and a change of university are not modelled.
- MetricTables.Tables.RollupUniversityDaily: tables are maps on their unique keys; transactions are not modelled.
- UniversityMetrics.WhenUniversityAddsUp: a call lists an instructor, and of them a date, once.
- ReportMerge.RollUp: the taxonomy's tables are parameters; a label is the deliverable's name alone.
- DayAccounting.Account: `computeDayWindows`, leave and employment are inputs; windows are whole minutes. Trends, deliverable progress and the totals' percentages are left out.
- InsightQueue.Queue.Enqueue: a job that enqueues another in the very act of starting is not modelled; jobs settle between calls.
- Gemini.Provider.PostGenerate: what each model would answer, and when, is an input; prompts, abort timers, bodies, environment settings, logging, `capacityMemory` and `clearCapacityMemory` are left out. Calls run one after another.
- The quoting of numbers and nulls in `csvCell`, and the BOM and `Blob` around the sheet export.
- `formatTrackerAsCsv`, whose header and rows differ in width by design of the code; `quantityCell`, `broadCategoryCell` and `remarksCell`, `formatActiveAverage`, scopes, parameters and bands: short case splits.
- The key of `src/domain/subtopic.ts`, passwords, sessions, screens and marketing pages.
