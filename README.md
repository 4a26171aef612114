# Step challenge front end: a verified model

This project models the logic of the three browser pages of a team step
challenge. On the entry page (`js/invoer.js`) a member logs a day's steps,
ticks activities that earn bonus steps, and marks whether they walked with
colleagues or shared a photo. The admin page (`js/admin.js`) manages teams,
activities and entries. The dashboard (`js/dashboard.js`) shows progress
towards the goal, the leaderboards, and a timeline chart.

The entry and admin pages compute an entry's total by the same rule (the dashboard only shows totals the API sends):

- Sum the bonus steps the entry snapshotted from its activities.
- Multiply steps plus bonus by 1.5 for walking with colleagues and by 1.25 for a shared photo.
- Round the result.

The model covers that rule and what the pages do with the text typed into the entry, team, activity and edit forms:

- JavaScript's `parseInt(..) || 0`.
- The clamp of a day's steps to [0, 35000].
- The refusals of the submit forms.
- The comma-separated member lists.
- The activity checkboxes, whose bonus travels as text in a `data-bonus` attribute.

On the dashboard it covers the goal subtitle, the team colour map, the
flattening and stable sort behind the individual top ten, and the shared date
axis and forward-filled series of the timeline chart.

Modules:

| module | file | what it holds |
|---|---|---|
| `Results` | results.dfy | `Option` and `Result` |
| `JsText` | js_text.dfy | `String.prototype.trim`, `split`/`join`, `parseInt`, and integers written as decimal text |
| `LexOrder` | lex_order.dfy | the order of `Array.prototype.sort` without a comparator, on strings |
| `Dates` | dates.dfy | `YYYY-MM-DD` dates (section 5.6 of RFC 3339), their two display forms, and why string order is calendar order |
| `Scoring` | scoring.dfy | the multiplier, `Math.round`, and the entry total |
| `EntryInput` | entry_input.dfy | what the steps field and the activity checkboxes yield, and the rules shared by the submit forms |
| `Invoer` | invoer.dfy | `updatePreview`, `submitEntry`, `loadRecentEntries` |
| `Admin` | admin.dfy | team and activity forms and prompts, the entries table, the edit-entry modal, quick submit |
| `Dashboard` | dashboard.dfy | the remaining steps, the goal subtitle, the team colour map (a class) |
| `Leaderboard` | leaderboard.dfy | `loadTeamStats`: team rows, the individual top ten, the bar chart |
| `Timeline` | timeline.dfy | `loadTimeline`: the date axis and one carried-forward line per member |

The model's types and arithmetic:

- Numbers are integers. The fractional multipliers are the exact fractions 3/2, 5/4 and 15/8.
- `Math.round(x)` is `floor(x + 1/2)`, so halves round towards +∞ (`RoundQuotient`).
- Text is a sequence of `char`.
- What a page reads from the DOM or receives from the API is a parameter.
- A POST or PUT is the body the page would send. A server's "ok" is a boolean parameter.
- Where the page shows a message instead of saving, the model returns an error value.

Where the code disagrees with what the rest of the pages imply, the model follows the code:

- `addActivity` refuses a bonus that is not positive, non-numeric included (js/admin.js:80), but `editActivity` stores any integer (Findings, row 1).
- An entry stores a snapshot of each activity's bonus (js/invoer.js:114-117), but re-saving it in the admin modal replaces the snapshot with the catalogue's current bonus, so past totals change (Findings, row 2).

## Model

| member | source | states |
|---|---|---|
| JsText.Trim | js/admin.js:153 | the result has no white space at either end, and it is empty exactly when the input is all white space |
| JsText.TrimParts | js/admin.js:153 | any string is its trim with white space before and after |
| JsText.TrimPadded | js/admin.js:153 | trimming a trimmed string padded with white space gives the string back |
| JsText.TrimOfTrimmed | js/admin.js:153 | trimming is idempotent on trimmed strings |
| JsText.TrimIgnoresSpace | js/admin.js:153-154 | white space around a text does not change its trim |
| JsText.TrimKeepsCharacters | js/admin.js:156 | trimming adds no character, so a comma-free string stays comma-free |
| JsText.Split | js/admin.js:181 | `split(',')` yields at least one piece, no piece holds the separator, and joining the pieces with it gives the input back |
| JsText.SplitJoin | js/admin.js:175 | splitting a join of separator-free pieces recovers the pieces |
| JsText.SplitWithout | js/admin.js:181 | a string without the separator splits into itself |
| JsText.SplitAfterPiece | js/admin.js:181 | a separator after a piece starts a new piece |
| JsText.SplitPadEnds | js/admin.js:181 | padding a text outside its separators only pads the first and last pieces |
| JsText.DigitRun | js/invoer.js:80 | `parseInt` reads the longest run of digits of the radix |
| JsText.NatString | js/invoer.js:60 | a number is written with decimal digits, no leading zero, and reads back as itself |
| JsText.ParseIntAfterSpace | js/invoer.js:80 | `parseInt` skips leading white space |
| JsText.ParseIntOfIntString | js/invoer.js:80 | `parseInt` of a written integer, after white space and before a non-digit, is that integer |
| JsText.ParseIntNoDigits | js/invoer.js:80 | text with no decimal digit parses as NaN |
| LexOrder.Irreflexive | js/dashboard.js:129 | no string sorts before itself |
| LexOrder.Transitive | js/dashboard.js:129 | the default sort order is transitive |
| LexOrder.Connected | js/dashboard.js:129 | of two different strings one sorts first |
| LexOrder.Asymmetric | js/dashboard.js:129 | two strings never sort before each other |
| LexOrder.LessAppend | js/dashboard.js:129 | strings with equal-length heads compare by head, then by tail |
| LexOrder.AscendingUnique | js/dashboard.js:129 | a strictly ascending sequence is determined by its elements, so the sorted axis does not depend on set order |
| LexOrder.Insert | js/dashboard.js:129 | inserting a new string into a strictly ascending sequence keeps it strictly ascending and adds exactly that string |
| Dates.FullDateParts | js/admin.js:256 | a full date splits on '-' into year, month and day |
| Dates.DayMonthYearOfFullDate | js/admin.js:256-261 | a full date is shown as day-month-year |
| Dates.DayMonthOfFullDate | js/dashboard.js:150 | the axis label is day-month, the first five characters of the day-month-year form |
| Dates.DayMonthYearTwice | js/invoer.js:177-182 | reformatting a three-part date twice gives it back |
| Dates.DigitsCompare | js/dashboard.js:129 | equal-length digit strings sort as their values do |
| Dates.SortOrderIsCalendarOrder | js/dashboard.js:129 | full dates sort as strings exactly in calendar order |
| Scoring.MultiplierOf | js/admin.js:252-254 | the multiplier is 1, 3/2, 5/4 or 15/8; 15/8 exactly when both flags are set, 1 exactly when neither is; above 1 exactly when a flag is set |
| Scoring.RoundQuotient | js/admin.js:255 | the rounded value is within half of the exact quotient, ties going up |
| Scoring.RoundUnique | js/admin.js:255 | that bound fixes the rounded value |
| Scoring.ScoreClosedForm | js/admin.js:251-255 | the total is b, (3b+1)/2, (5b+2)/4 or (15b+4)/8 for base b, by flags |
| Scoring.ScoreAtLeastBase | js/admin.js:251-255 | a non-negative base never scores less than itself |
| Scoring.ScoreMonotone | js/admin.js:251-255 | a larger base never scores less |
| Scoring.ScoreWithoutFlags | js/admin.js:251-255 | with neither flag the total is the base |
| Scoring.ScoreBothFlagsExample | js/admin.js:252-255 | base 1000 with both flags scores 1875 |
| Scoring.ReduceIsSum | js/admin.js:251 | the `reduce` over the snapshots is the sum of their bonuses |
| Scoring.BonusSumCons | js/admin.js:251 | the bonus sum of a list is its head's bonus plus its tail's sum |
| Scoring.EntryTotalWithoutFlags | js/admin.js:251-255 | with neither flag the total is steps plus the snapshotted bonuses, and steps alone without activities |
| Scoring.EntryTotalBothFlags | js/admin.js:251-255 | with both flags the total is (15·base+4) div 8, at least the base when it is non-negative |
| Scoring.EntryTotalExample | js/admin.js:251-255 | 5000 steps with bonuses 1000 and 500 and no flags total 6500 |
| EntryInput.StepsValueOfIntString | js/invoer.js:80 | `parseInt(..) || 0` of a written integer is that integer |
| EntryInput.StepsValueNoDigits | js/invoer.js:80 | text without digits counts as 0 |
| EntryInput.Clamp | js/invoer.js:81 | the clamped steps lie in [0, 35000], are unchanged inside it, 0 below it and 35000 above it |
| EntryInput.SubmitSteps | js/invoer.js:108-112 | refused exactly when team, member or date is empty, otherwise refused exactly when the steps exceed 35000; accepted steps lie in [0, 35000] and are the parsed steps with negatives raised to 0 |
| EntryInput.SubmitBoundary | js/admin.js:358-362 | "35000" is accepted as 35000, "35001" is refused, "-250" is sent as 0 |
| EntryInput.EditSteps | js/admin.js:321-322 | the modal's steps lie in [0, 35000], equal the input when in range, and are 0 when the input is not a number |
| EntryInput.EditClampsWhatSubmitRefuses | js/admin.js:321-322 | "40000" is clamped to 35000 by the modal but refused by the submit forms |
| EntryInput.PickRendered | js/invoer.js:60 | a checkbox rendered from an activity gives back its id, name and bonus when ticked, for ids and names without `"` or `&` (see Left out) |
| EntryInput.CollectPicked | js/invoer.js:114-117 | one picked activity per ticked box, in order, each read from its box |
| EntryInput.PickAllShape | js/invoer.js:114-117 | the picked list has one element per ticked box, each read from it |
| EntryInput.PickAllCons | js/invoer.js:114-117 | the first ticked box gives the first picked activity |
| EntryInput.PreviewBonusCons | js/invoer.js:84-86 | the preview bonus adds each box's `parseInt(..) || 0` |
| EntryInput.ReducePickedIsPreviewBonus | js/invoer.js:129 | the confirmation's `reduce` equals the preview bonus when every box's bonus parses, and is NaN otherwise |
| EntryInput.NaNAbsorbs | js/invoer.js:129 | once the `reduce` is NaN it stays NaN |
| EntryInput.Snapshots | js/invoer.js:114-125 | one stored snapshot per picked activity with its id and name, and its bonus counted as 0 when it was NaN |
| EntryInput.SnapshotsSum | js/invoer.js:114-117 | the stored snapshots' bonus sum is the picked bonuses' sum |
| EntryInput.PickedBonusIsPreviewBonus | js/invoer.js:84-86 | the picked bonuses add up to the preview bonus |
| EntryInput.SnapshotsBonus | js/invoer.js:114-125 | the stored entry's bonus sum is the preview's bonus, with a NaN bonus stored as 0 (see Left out) |
| Invoer.UpdatePreview | js/invoer.js:79-101 | the steps are the clamped parsed input, the bonus is the sum over ticked boxes, the multiplier follows the flags, the total is the rule's score, the bonus is mentioned exactly when positive and the multiplier exactly when a flag is set |
| Invoer.SubmitEntry | js/invoer.js:104-147 | refused exactly as `SubmitSteps` refuses; otherwise sends the form's fields, the accepted steps and the picked activities; saved exactly when the server accepts, reporting the confirmation's total |
| Invoer.PreviewMatchesSubmit | js/invoer.js:92-93 | the confirmation after a save reports the previewed total when every bonus parses, and NaN otherwise |
| Invoer.SavedEntryScoresAsPreviewed | js/invoer.js:125 | the entry stored for a saved form scores, by the rule, the previewed total |
| Invoer.RowTotalIsEntryTotal | js/invoer.js:171-176 | a recent-entries row shows the rule's total and the sum of the entry's own snapshots |
| Invoer.Rows | js/invoer.js:170 | one row per entry, in order |
| Invoer.RecentEntries | js/invoer.js:155-170 | the prompt exactly when team or member is empty, the empty message exactly when there are no entries, else rows for the first min(10, n) entries |
| Invoer.RecentTableShowsFirstTen | js/invoer.js:170-182 | row i of the table shows entry i's total and its date day first |
| Admin.TrimAll | js/admin.js:181 | each piece is trimmed, in place |
| Admin.NonEmpty | js/admin.js:181 | `filter(m => m)` keeps only non-empty pieces from the input, and keeps a list with none empty as it is |
| Admin.MemberList | js/admin.js:156 | every member name is non-empty, trimmed and comma-free |
| Admin.MemberListOfEmpty | js/admin.js:156 | an empty members field gives no members |
| Admin.MemberListOfName | js/admin.js:181 | a single clean name gives that one member |
| Admin.MemberListAppend | js/admin.js:181 | the names before a comma come first, in order |
| Admin.MemberListIgnoresSpace | js/admin.js:154-156 | white space around the field changes nothing |
| Admin.TrimAllCons | js/admin.js:181 | the first piece is trimmed first |
| Admin.NonEmptyCons | js/admin.js:181 | the filter keeps the first piece exactly when it is non-empty |
| Admin.AddTeam | js/admin.js:152-156 | no request exactly when the trimmed name is empty; the name sent is the trimmed one; a blank members field sends no members |
| Admin.AddTeamParsesAsEditTeam | js/admin.js:156 | the add form parses members as the edit prompt does |
| Admin.FindById | js/admin.js:171 | `teams.find` by id (and `activities.find` at js/admin.js line 96): returns the first element with the id, and nothing exactly when none has it |
| Admin.EditTeam | js/admin.js:170-181 | a request exactly when the team exists and neither prompt is cancelled, sending the trimmed name and the parsed members |
| Admin.MemberListOfPrompt | js/admin.js:175-181 | parsing the prompt's default `members.join(', ')` gives back well-formed members |
| Admin.MemberListOfPromptStep | js/admin.js:175-181 | the inductive step of that round trip |
| Admin.JoinAfterFirst | js/admin.js:175 | the joined prompt is the first name, a comma, a space, then the rest |
| Admin.MemberListAfterBlank | js/admin.js:181 | a leading blank does not change the members |
| Admin.EditTeamUnchanged | js/admin.js:170-181 | accepting both prompts unchanged sends the team's own name and members back |
| Admin.AddActivity | js/admin.js:75-80 | refused exactly when the trimmed name is empty or the bonus is ≤ 0; sends the trimmed name, the positive bonus, and the trimmed emoji or 🏃 |
| Admin.AddActivityRefusals | js/admin.js:80 | a blank name, an empty, zero or negative bonus are each refused |
| Admin.EditActivity | js/admin.js:95-108 | a request exactly when the activity exists and no prompt is cancelled, sending the trimmed answers and `parseInt(..) || 0` of the bonus |
| Admin.EditActivityStoresNonPositiveBonus | js/admin.js:98-108 | the edit prompt sends a negative bonus and an empty name, which the add form refuses |
| Admin.EditActivityChecked | js/admin.js:75-80 | the corrected edit sends only what the add form would, so a positive bonus and a non-empty name |
| Admin.EditActivityUnchanged | js/admin.js:95-108 | accepting every prompt unchanged sends the activity back as it was, in both versions |
| Admin.AdminRowTotalIsEntryTotal | js/admin.js:251-261 | a row shows the rule's total, the snapshots' bonus sum and the date day first |
| Admin.AdminRows | js/admin.js:250 | one row per entry, in order |
| Admin.AdminEntries | js/admin.js:233-255 | the prompt exactly without a team, the empty message exactly without entries, else one row per entry, in order, with the rule's total, bonus sum and day-first date |
| Admin.TickedPositions | js/admin.js:293-294 | the ticked catalogue positions, strictly ascending, are exactly those whose activity the entry has a snapshot of, by id or by name |
| Admin.TickedActivities | js/admin.js:293-296 | one box per ticked catalogue position, in catalogue order; so a catalogue activity is ticked exactly when the entry has a snapshot with its id or its name |
| Admin.Rendered | js/admin.js:296 | each pre-ticked activity is rendered as a checkbox carrying its current bonus |
| Admin.SaveEditEntry | js/admin.js:318-335 | the body sent has the clamped steps and one activity per ticked box, read from the box |
| Admin.ResaveUsesCurrentBonus | js/admin.js:294-296 | re-saving an entry replaces its snapshotted bonus with the catalogue's current one |
| Admin.KeepSnapshots | js/admin.js:324-327 | the corrected save keeps, per ticked box, the entry's own snapshot when it has one |
| Admin.SnapshotFor | js/admin.js:294 | the entry's first snapshot with the requested id, and none exactly when the entry has none with it |
| Admin.SnapshotForAt | js/admin.js:294 | with distinct ids, the snapshot found for an id is the entry's own |
| Admin.KeepSnapshotsOfOwn | js/admin.js:324-327 | re-ticking an entry's own activities keeps its snapshots unchanged |
| Admin.ResaveKeepingSnapshots | js/admin.js:324-327 | with the correction, re-saving any entry with distinct activity ids, whose snapshots the modal ticks one for one in order, stores its snapshots unchanged; a snapshot of an activity deleted from the catalogue is not re-ticked and so is still dropped |
| Admin.QuickSubmit | js/admin.js:354-367 | refused exactly as `SubmitSteps` refuses, otherwise sends the accepted steps in [0, 35000] with no activities and no flags |
| Admin.QuickEntryTotal | js/admin.js:367 | a quick entry scores exactly its steps |
| Dashboard.Remaining | js/dashboard.js:27 | the remaining steps are ≥ 0, 0 exactly when the total reaches the goal, else the difference |
| Dashboard.ProgressSubtitle | js/dashboard.js:34-40 | the goal message exactly when the total reaches the goal, else a positive number of steps to go |
| Dashboard.SubtitleAgreesWithRemaining | js/dashboard.js:27-39 | the goal message is shown exactly when nothing remains, and the steps to go are the remaining steps |
| Dashboard.AssignedColorOf | js/dashboard.js:13 | a team gets the palette colour of its last position, `TEAM_COLORS[i % 5]` |
| Dashboard.AssignedKeeps | js/dashboard.js:13 | a name not in the list keeps whatever it had |
| Dashboard.AssignedFromPalette | js/dashboard.js:13 | every colour in the map is a palette colour or was there before |
| Dashboard.TeamColors.constructor | js/dashboard.js:2 | the map starts empty |
| Dashboard.TeamColors.Color | js/dashboard.js:5 | a stored non-empty colour is returned, and grey for a name not in the map |
| Dashboard.TeamColors.AssignColors | js/dashboard.js:13 | the map after the loop is the old map with each team's palette colour written in order |
| Dashboard.FirstRefreshColors | js/dashboard.js:5-13 | after the first refresh team i is drawn in colour i mod 5 and every other name in grey |
| Leaderboard.TaggedMembers | js/dashboard.js:70 | each member of a team is tagged with the team's name, in order |
| Leaderboard.FlattenedMembers | js/dashboard.js:70 | the flattened list holds exactly the teams' members, each tagged with its own team |
| Leaderboard.FlattenedLength | js/dashboard.js:70 | it holds as many entries as the teams have members |
| Leaderboard.Flatten | js/dashboard.js:69-70 | the push loop builds the flattened list |
| Leaderboard.WithStepsAppend | js/dashboard.js:71 | picking the entries with given steps distributes over concatenation |
| Leaderboard.InsertDescMultiset | js/dashboard.js:71 | insertion adds exactly the inserted entry |
| Leaderboard.InsertDescSorted | js/dashboard.js:71 | insertion keeps a non-increasing list non-increasing |
| Leaderboard.InsertDescStable | js/dashboard.js:71 | insertion puts the new entry after its equals |
| Leaderboard.SortByStepsSortsAndPermutes | js/dashboard.js:71 | the sort is non-increasing in steps and a permutation of its input |
| Leaderboard.SortByStepsStable | js/dashboard.js:71 | entries with equal steps keep their first-seen order |
| Leaderboard.SortedLength | js/dashboard.js:71 | the sort keeps the length |
| Leaderboard.TopTen | js/dashboard.js:74 | the prefix of length min(10, n) |
| Leaderboard.Rows | js/dashboard.js:54-59 | row i has rank i + 1 and the medal style exactly for the first three |
| Leaderboard.TeamRows | js/dashboard.js:54-57 | one row per team, naming its first member when it has one |
| Leaderboard.Bars | js/dashboard.js:96-100 | one bar per team with its name, its steps and its colour |
| Leaderboard.LoadTeamStats | js/dashboard.js:45-100 | only the empty message exactly when there are no teams; the individual board is empty exactly when no team has members, else the ranked top ten of the sorted flattened list |
| Leaderboard.TopTenDominates | js/dashboard.js:69-74 | everyone on the board has at least the steps of everyone left off it, and a board that leaves someone off is full |
| Leaderboard.TopTenAreMembers | js/dashboard.js:69-74 | everyone on the board is a team's member, tagged with that team |
| Timeline.DatesOf | js/dashboard.js:128 | a member's dates are exactly the dates of their points |
| Timeline.AllDatesMembers | js/dashboard.js:127-128 | a date is in the collected set exactly when some member has it |
| Timeline.CollectDates | js/dashboard.js:127-128 | the nested loop collects that union |
| Timeline.SortDates | js/dashboard.js:129 | the axis is strictly ascending, so without duplicates, and holds exactly the set's dates |
| Timeline.DateMapKeys | js/dashboard.js:134 | a member's map has a key for exactly their dates |
| Timeline.LaterRecordWins | js/dashboard.js:134 | for a date listed twice, the later record's cumulative is kept |
| Timeline.FillSeries | js/dashboard.js:133-136 | one value per axis date, each the carried-forward value at that position |
| Timeline.FillIsLatestAt | js/dashboard.js:135-136 | the value at a position is the member's value at the last earlier-or-equal position they have |
| Timeline.FillZeroAt | js/dashboard.js:135-136 | before any position the member has, the value is 0 |
| Timeline.FillIsLatestDated | js/dashboard.js:129-136 | on the sorted axis, the value at a date is the member's cumulative on their latest date not after it |
| Timeline.FillBeforeFirst | js/dashboard.js:129-136 | on the sorted axis, the value before the member's first date is 0 |
| Timeline.Labels | js/dashboard.js:150 | one day-month label per axis date |
| Timeline.LineOf | js/dashboard.js:132-142 | a member's line has their name, their colour, the colour with `20` appended as fill, and their carried-forward values |
| Timeline.Lines | js/dashboard.js:132-143 | one line per member, in key order |
| Timeline.LoadTimeline | js/dashboard.js:122-151 | nothing exactly when there are no members or no dates; otherwise an ascending axis equal to the union of dates, its labels, and one line per member |
| Timeline.ChartShowsLatestCumulative | js/dashboard.js:127-136 | on the chart a member's value at a date is their latest cumulative not after it, the later record winning for a repeated date |

## Left out

- Network and timing: `fetch`, the REST endpoints, JSON parsing, the retry after 5 s and the refresh every 30 s. The API's answers and the server's acceptance are parameters.
- The DOM: reading fields, `innerHTML` templates, toasts, modals, class toggles and the 10 ms `setTimeout`s. `prompt` answers are `Option<string>` parameters, with `None` for Cancel. `confirm` and the delete operations only send a request.
- `fmt`, `toLocaleString('nl-NL')`, `mult.toFixed(3)` and the progress percentage and bar width. They depend on locale and floating-point formatting.
- The Chart.js objects, their options and `destroy`. The model keeps only the labels, data and colours the page hands to Chart.js.
- Admin login, `loadTeams`/`loadMembers`/`populateSelects`, and the module-level `teamsData`/`activitiesData` caches. The caches are parameters.
- Team ranking and each team's member order. They arrive ranked from the API; the page only reads `t.members[0]`.
- Scoring: floating point is not modelled. The fractions 1.5, 1.25 and 1.875 are exact in binary, so `Math.round((steps + bonus) * mult)` is exact as long as the totals stay below 2^53. The model assumes they do. Steps are at most 35000, but `editActivity` can store any bonus (Findings, row 1).
- JsText.ParseInt, JsText.IntString, EntryInput.PickRendered: every number is assumed to have magnitude below 2^53. Beyond that JavaScript's `parseInt` rounds a long digit run to a double, and from 10^21 on `${n}` writes exponent form (`"1e+21"`, which `parseInt` reads back as 1). The model reads and writes such numbers exactly, so its round trips do not hold there for the pages.
- EntryInput.PickRendered, Admin.Rendered: the templates at js/invoer.js:60 and js/admin.js:296 write `a._id` and `a.name` unescaped into double-quoted HTML attributes. The model assumes ids and names contain no `"` and no `&`. Otherwise a name is cut at its first `"` and character references are decoded, so the snapshot name differs from the catalogue name and the by-name pre-tick at js/admin.js:294 can miss.
- JsText.ParseInt: JavaScript strings are sequences of UTF-16 code units, while the model's strings are sequences of Unicode scalar values, so lone surrogates are not modelled. The white space skipped and trimmed is ECMAScript's whole StrWhiteSpaceChar set.
- LexOrder.Less, Timeline.SortDates: `sort()` without a comparator compares UTF-16 code units, while the model compares Unicode scalar values. The two orders agree except when a character above U+FFFF meets one in U+E000–U+FFFF: JavaScript puts U+1F600 before U+FF61, the model after. The dates the timeline sorts are ASCII, where the orders agree.
- EntryInput.Snapshots: a NaN bonus is sent by `JSON.stringify` as `null`, and what the server stores then is outside the pages. The model assumes it is stored so that it counts as 0, as `s + null` does in the pages' own reduce. `EntryInput.SnapshotsBonus` holds under that assumption.
- Leaderboard.SortBySteps: `all.sort` sorts in place. The model sorts a sequence and states the stable result, not the engine's algorithm.
- Dashboard.TeamColors.Color: a name such as `constructor` reads an inherited property of a plain object in the page. The model's map holds only what the page wrote.
- Timeline.LoadTimeline: `Object.keys` lists integer-like keys first. The model takes the members in the order given.
- Invoer.SubmitEntry: the form reset and the reload of recent entries after a save are left out (DOM and network).
- The timeline colours each member's line by `color(name)`, which looks up team names. So a member's line is grey unless a team has the same name. The model keeps this behaviour as it is.

## Findings

| source | as written | input that shows it | evidently intended | confidence | as-written member | corrected member |
|---|---|---|---|---|---|---|
| js/admin.js:98-108 | `editActivity` sends `parseInt(newSteps) \|\| 0` and `newName.trim()` without the checks `addActivity` applies (js/admin.js:80) | answering the bonus prompt with `-500`, or the name prompt with an empty string | the same refusal as the add form: a non-empty name and a positive bonus | not executed | Admin.EditActivityStoresNonPositiveBonus | Admin.EditActivityChecked |
| js/admin.js:294-296, js/admin.js:324-327 | the edit-entry modal re-ticks activities from the current catalogue and re-saves them with the catalogue's current `data-bonus` | an entry whose snapshot has bonus 1000 for an activity since edited to 1500, opened and saved unchanged | an entry's snapshotted bonuses stay as they were, so a past total does not change when an activity is edited | not executed | Admin.ResaveUsesCurrentBonus | Admin.ResaveKeepingSnapshots |
