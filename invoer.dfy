/**
 * The entry page: the live preview of what an entry will count for, the
 * submit form, and the table of the member's recent entries. The page's
 * fields are read into an `EntryForm`; the server's answer to the POST is a
 * parameter.
 */
module Invoer {
  import opened JsText
  import opened Results
  import opened Scoring
  import opened Dates
  import opened EntryInput

  /** What the entry form holds when the preview is drawn or the form is sent. */
  datatype EntryForm = EntryForm(
    teamId: string, memberName: string, date: string, stepsText: string,
    checked: seq<Checkbox>, withColleagues: bool, photoShared: bool)

  /** The preview: the clamped steps, the counted bonus, the multiplier and the total it shows,
      and whether the breakdown line mentions the bonus and the multiplier. */
  datatype Preview = Preview(
    steps: int, bonus: int, mult: Multiplier, total: int, showsBonus: bool, showsMultiplier: bool)

  /** `updatePreview`: steps coerced and clamped, each ticked box's bonus added in turn
      (non-numbers count 0), the multiplier built flag by flag, the total rounded. */
  method UpdatePreview(form: EntryForm) returns (p: Preview)
    ensures 0 <= p.steps <= MaxSteps
    ensures p.steps == Clamp(StepsValue(form.stepsText))
    ensures p.bonus == PreviewBonus(form.checked)
    ensures p.mult == MultiplierOf(form.withColleagues, form.photoShared)
    ensures p.total == Score(p.steps + p.bonus, form.withColleagues, form.photoShared)
    ensures p.showsBonus <==> p.bonus > 0
    ensures p.showsMultiplier <==> form.withColleagues || form.photoShared
  {
    var steps := StepsValue(form.stepsText);
    steps := Clamp(steps);

    var bonus := 0;
    for i := 0 to |form.checked|
      invariant bonus == PreviewBonus(form.checked[..i])
    {
      assert form.checked[..i + 1][..i] == form.checked[..i];
      bonus := bonus + StepsValue(form.checked[i].dataBonus);
    }
    assert form.checked[..|form.checked|] == form.checked;

    var mult := Unit;
    if form.withColleagues { mult := Times(mult, ColleaguesFactor); }
    if form.photoShared { mult := Times(mult, PhotoFactor); }

    var base := steps + bonus;
    var total := RoundQuotient(base * mult.num, mult.den);
    p := Preview(steps, bonus, mult, total, bonus > 0, AboveOne(mult));
  }

  /** The body of the POST to the entries endpoint. */
  datatype Submission = Submission(
    teamId: string, memberName: string, date: string, steps: int,
    activities: seq<PickedActivity>, withColleagues: bool, photoShared: bool)

  /** How a submit ends: refused by the form's own checks, sent but not accepted by the server,
      or saved, with the total the confirmation reports (NaN when a bonus was not a number). */
  datatype SubmitOutcome =
    | Refused(reason: SubmitError)
    | SaveFailed(body: Submission)
    | Saved(body: Submission, total: ParsedInt)

  /** The total the confirmation reports: `Math.round((steps + bonus) * mult)` where the bonus is the
      `reduce` over the submitted activities, which a NaN bonus turns into NaN. */
  function SubmittedTotal(body: Submission): ParsedInt {
    match ReducePicked(Int(0), body.activities)
    case Int(b) => Int(Score(body.steps + b, body.withColleagues, body.photoShared))
    case NaN => NaN
  }

  /** `submitEntry`, with `accepted` standing for `res.ok` of the POST. */
  method SubmitEntry(form: EntryForm, accepted: bool) returns (out: SubmitOutcome)
    ensures out.Refused? <==> SubmitSteps(form.teamId, form.memberName, form.date, form.stepsText).Err?
    ensures out.Refused? ==> out.reason == SubmitSteps(form.teamId, form.memberName, form.date, form.stepsText).error
    ensures !out.Refused? ==> out.body == Submission(
      form.teamId, form.memberName, form.date,
      SubmitSteps(form.teamId, form.memberName, form.date, form.stepsText).value,
      PickAll(form.checked), form.withColleagues, form.photoShared)
    ensures !out.Refused? ==> 0 <= out.body.steps <= MaxSteps
    ensures out.Saved? <==> !out.Refused? && accepted
    ensures out.Saved? ==> out.total == SubmittedTotal(out.body)
  {
    var steps := StepsValue(form.stepsText);
    if form.teamId == [] || form.memberName == [] || form.date == [] {
      return Refused(MissingFields);
    }
    if steps > MaxSteps {
      return Refused(TooManySteps);
    }
    steps := Clamp(steps);

    var activities := CollectPicked(form.checked);
    var body := Submission(form.teamId, form.memberName, form.date, steps, activities,
      form.withColleagues, form.photoShared);
    if !accepted {
      return SaveFailed(body);
    }
    out := Saved(body, SubmittedTotal(body));
  }

  /** For the same form, the confirmation after a save reports the total the preview showed, as long
      as every ticked box's bonus is a number; otherwise it reports NaN. */
  lemma PreviewMatchesSubmit(form: EntryForm)
    requires SubmitSteps(form.teamId, form.memberName, form.date, form.stepsText).Ok?
    ensures var body := Submission(
        form.teamId, form.memberName, form.date,
        SubmitSteps(form.teamId, form.memberName, form.date, form.stepsText).value,
        PickAll(form.checked), form.withColleagues, form.photoShared);
      SubmittedTotal(body) == (
        if AllBonusesParse(form.checked)
        then Int(Score(Clamp(StepsValue(form.stepsText)) + PreviewBonus(form.checked),
                       form.withColleagues, form.photoShared))
        else NaN)
  {
    ReducePickedIsPreviewBonus(0, form.checked);
  }

  /** The entry the server stores for a saved form counts, by the rule every page uses, for
      the total the preview showed. */
  lemma SavedEntryScoresAsPreviewed(form: EntryForm, id: string)
    requires SubmitSteps(form.teamId, form.memberName, form.date, form.stepsText).Ok?
    requires AllBonusesParse(form.checked)
    ensures EntryTotal(Entry(id, form.teamId, form.memberName, form.date,
        SubmitSteps(form.teamId, form.memberName, form.date, form.stepsText).value,
        Snapshots(PickAll(form.checked)), form.withColleagues, form.photoShared))
      == Score(Clamp(StepsValue(form.stepsText)) + PreviewBonus(form.checked),
               form.withColleagues, form.photoShared)
  {
    SnapshotsBonus(form.checked);
  }

  /** One row of the recent-entries table. */
  datatype RecentRow = RecentRow(
    date: string, steps: int, bonus: int, activityNames: string,
    withColleagues: bool, photoShared: bool, total: int)

  function Names(acts: seq<ActivitySnapshot>): seq<string> {
    if acts == [] then [] else Names(acts[..|acts| - 1]) + [acts[|acts| - 1].name]
  }

  /** The row for one entry: the date shown day first, the bonus by `reduce` over the entry's
      own snapshots, and the total by the formula written out once more. */
  function RowOf(e: Entry): RecentRow {
    var bonus := ReduceBonus(0, e.activities);
    var m := MultiplierOf(e.withColleagues, e.photoShared);
    RecentRow(DayMonthYear(e.date), e.steps, bonus, Join(Names(e.activities), ", "),
      e.withColleagues, e.photoShared, RoundQuotient((e.steps + bonus) * m.num, m.den))
  }

  /** Each row's total is the entry's total under the rule, and its bonus is the sum of the
      entry's own snapshotted bonuses. */
  lemma RowTotalIsEntryTotal(e: Entry)
    ensures RowOf(e).total == EntryTotal(e)
    ensures RowOf(e).bonus == BonusSum(e.activities)
  {
    ReduceIsSum(0, e.activities);
  }

  function Rows(entries: seq<Entry>): (rows: seq<RecentRow>)
    ensures |rows| == |entries|
    ensures forall i :: 0 <= i < |entries| ==> rows[i] == RowOf(entries[i])
  {
    if entries == [] then [] else Rows(entries[..|entries| - 1]) + [RowOf(entries[|entries| - 1])]
  }

  /** What the recent-entries box shows. */
  datatype RecentView = SelectPrompt | NoEntries | Table(rows: seq<RecentRow>)

  /** `loadRecentEntries`, given the entries the API returned for the selected member. */
  function RecentEntries(teamId: string, memberName: string, entries: seq<Entry>): (v: RecentView)
    ensures v.SelectPrompt? <==> teamId == [] || memberName == []
    ensures v.NoEntries? <==> teamId != [] && memberName != [] && entries == []
    ensures v.Table? ==> 1 <= |v.rows| == (if |entries| < 10 then |entries| else 10)
    ensures v.Table? ==> forall i :: 0 <= i < |v.rows| ==> v.rows[i] == RowOf(entries[i])
  {
    if teamId == [] || memberName == [] then SelectPrompt
    else if entries == [] then NoEntries
    else Table(Rows(entries[..if |entries| < 10 then |entries| else 10]))
  }

  /** The table shows the member's first ten entries in the order the API sent them, each with
      the total the rule gives it and its date as day-month-year. */
  lemma RecentTableShowsFirstTen(teamId: string, memberName: string, entries: seq<Entry>, i: int)
    requires teamId != [] && memberName != [] && entries != []
    requires 0 <= i < |entries| && i < 10
    ensures RecentEntries(teamId, memberName, entries).Table?
    ensures |RecentEntries(teamId, memberName, entries).rows| > i
    ensures RecentEntries(teamId, memberName, entries).rows[i].total == EntryTotal(entries[i])
    ensures IsFullDate(entries[i].date) ==>
      RecentEntries(teamId, memberName, entries).rows[i].date ==
        entries[i].date[8..] + "-" + entries[i].date[5..7] + "-" + entries[i].date[..4]
  {
    RowTotalIsEntryTotal(entries[i]);
    if IsFullDate(entries[i].date) {
      DayMonthYearOfFullDate(entries[i].date);
    }
  }
}
