/**
 * How the entry forms turn what was typed and ticked into the numbers they
 * send: `parseInt(text) || 0` coercion, the [0, 35000] clamp, the
 * reject-then-clamp rule of the two submit forms, the clamp-only rule of the
 * admin's edit form, and the activity list built from the ticked checkboxes.
 */
module EntryInput {
  import opened JsText
  import opened Results
  import opened Scoring

  /** The most steps an entry may hold for one day. */
  const MaxSteps := 35000

  /** `parseInt(text) || 0`: NaN becomes 0 (as does 0 itself). */
  function StepsValue(text: string): int
  {
    match ParseInt(text)
    case Int(v) => if v == 0 then 0 else v
    case NaN => 0
  }

  /** A typed integer, followed by anything that does not continue it, reads as that integer. */
  lemma StepsValueOfIntString(n: int, tail: string)
    requires tail == [] || !(IsDecimalDigit(tail[0]) || tail[0] == 'x' || tail[0] == 'X')
    ensures StepsValue(IntString(n) + tail) == n
  {
    var s := IntString(n) + tail;
    assert [] + IntString(n) + tail == s;
    ParseIntOfIntString([], n, tail);
    assert ParseInt(s) == Int(n);
  }

  /** Text without a digit (the empty field included) reads as 0. */
  lemma StepsValueNoDigits(s: string)
    requires forall i :: 0 <= i < |s| ==> !IsDecimalDigit(s[i])
    ensures StepsValue(s) == 0
  {
    ParseIntNoDigits(s);
  }

  /** The decimal text of the step counts the boundary lemmas use. */
  lemma Literals()
    ensures IntString(35000) == "35000"
    ensures IntString(35001) == "35001"
    ensures IntString(40000) == "40000"
    ensures IntString(-250) == "-250"
  {
    assert NatString(3) == "3";
    assert NatString(35) == "35";
    assert NatString(350) == "350";
    assert NatString(3500) == "3500";
    assert NatString(4) == "4";
    assert NatString(40) == "40";
    assert NatString(400) == "400";
    assert NatString(4000) == "4000";
    assert NatString(2) == "2";
    assert NatString(25) == "25";
    assert NatString(250) == "250";
  }

  /** `Math.min(Math.max(steps, 0), 35000)` */
  function Clamp(n: int): (r: int)
    ensures 0 <= r <= MaxSteps
    ensures 0 <= n <= MaxSteps ==> r == n
    ensures n < 0 ==> r == 0
    ensures n > MaxSteps ==> r == MaxSteps
  {
    var atLeastZero := if n > 0 then n else 0;
    if atLeastZero < MaxSteps then atLeastZero else MaxSteps
  }

  /** Why a submit form refuses: a field left empty, or more than 35000 steps. */
  datatype SubmitError = MissingFields | TooManySteps

  /** The rule both submit forms apply: refuse when team, member or date is empty,
      then refuse more than 35000 steps, and only then clamp. */
  function SubmitSteps(teamId: string, memberName: string, date: string, stepsText: string): (r: Result<int, SubmitError>)
    ensures r == Err(MissingFields) <==> teamId == [] || memberName == [] || date == []
    ensures r == Err(TooManySteps) <==>
      teamId != [] && memberName != [] && date != [] && StepsValue(stepsText) > MaxSteps
    ensures r.Ok? ==> 0 <= r.value <= MaxSteps
    ensures r.Ok? ==> r.value == (if StepsValue(stepsText) < 0 then 0 else StepsValue(stepsText))
  {
    var steps := StepsValue(stepsText);
    if teamId == [] || memberName == [] || date == [] then Err(MissingFields)
    else if steps > MaxSteps then Err(TooManySteps)
    else Ok(Clamp(steps))
  }

  /** The boundary of the submit rule: exactly 35000 is accepted as it is, 35001 is refused
      rather than clamped, and a negative count is sent as 0. */
  lemma SubmitBoundary(teamId: string, memberName: string, date: string)
    requires teamId != [] && memberName != [] && date != []
    ensures SubmitSteps(teamId, memberName, date, "35000") == Ok(35000)
    ensures SubmitSteps(teamId, memberName, date, "35001") == Err(TooManySteps)
    ensures SubmitSteps(teamId, memberName, date, "-250") == Ok(0)
  {
    Literals();
    StepsValueOfIntString(35000, []);
    StepsValueOfIntString(35001, []);
    StepsValueOfIntString(-250, []);
    assert IntString(35000) + [] == "35000";
    assert IntString(35001) + [] == "35001";
    assert IntString(-250) + [] == "-250";
  }

  /** The admin's edit rule: clamp only, never refuse. */
  function EditSteps(stepsText: string): (steps: int)
    ensures 0 <= steps <= MaxSteps
    ensures 0 <= StepsValue(stepsText) <= MaxSteps ==> steps == StepsValue(stepsText)
    ensures ParseInt(stepsText) == NaN ==> steps == 0
  {
    Clamp(StepsValue(stepsText))
  }

  /** Where the two rules part: 40000 typed into the edit form is stored as 35000,
      while the same text in a submit form is refused. */
  lemma EditClampsWhatSubmitRefuses(teamId: string, memberName: string, date: string)
    requires teamId != [] && memberName != [] && date != []
    ensures EditSteps("40000") == MaxSteps
    ensures SubmitSteps(teamId, memberName, date, "40000") == Err(TooManySteps)
  {
    Literals();
    StepsValueOfIntString(40000, []);
    assert IntString(40000) + [] == "40000";
  }

  /** A ticked activity checkbox: its `value` is the activity id, `data-name` and
      `data-bonus` hold the name and the bonus as text. */
  datatype Checkbox = Checkbox(value: string, dataName: string, dataBonus: string)

  /** The checkbox the pages render for a catalogue activity: `data-bonus="${a.bonusSteps}"`.
      The id and name are written into the attributes unescaped; they are taken to hold no `"`
      and no `&`, so the browser reads them back as written. */
  function RenderCheckbox(a: Activity): Checkbox {
    Checkbox(a.id, a.name, IntString(a.bonusSteps))
  }

  /** `{ activityId: cb.value, name: cb.dataset.name, bonusSteps: parseInt(cb.dataset.bonus) }`:
      no `|| 0` here, so a bonus text without digits is NaN. */
  datatype PickedActivity = PickedActivity(activityId: string, name: string, bonusSteps: ParsedInt)

  function Pick(cb: Checkbox): PickedActivity {
    PickedActivity(cb.value, cb.dataName, ParseInt(cb.dataBonus))
  }

  /** Picking a checkbox rendered from an activity snapshots that activity's current bonus. */
  lemma PickRendered(a: Activity)
    ensures Pick(RenderCheckbox(a)) == PickedActivity(a.id, a.name, Int(a.bonusSteps))
  {
    ParseIntOfIntString([], a.bonusSteps, []);
    assert [] + IntString(a.bonusSteps) + [] == IntString(a.bonusSteps);
  }

  function PickAll(checked: seq<Checkbox>): seq<PickedActivity>
  {
    if checked == [] then [] else PickAll(checked[..|checked| - 1]) + [Pick(checked[|checked| - 1])]
  }

  /** `const activities = []; checked.forEach(cb => activities.push({...}))`: one snapshot per
      ticked box, in page order. */
  method CollectPicked(checked: seq<Checkbox>) returns (activities: seq<PickedActivity>)
    ensures activities == PickAll(checked)
    ensures |activities| == |checked|
    ensures forall i :: 0 <= i < |checked| ==> activities[i] == Pick(checked[i])
  {
    activities := [];
    for i := 0 to |checked|
      invariant activities == PickAll(checked[..i])
      invariant |activities| == i
      invariant forall k :: 0 <= k < i ==> activities[k] == Pick(checked[k])
    {
      assert checked[..i + 1][..i] == checked[..i];
      activities := activities + [Pick(checked[i])];
    }
    assert checked[..|checked|] == checked;
  }

  /** `bonus + a.bonusSteps` when the bonus may be NaN: NaN absorbs. */
  function AddParsed(acc: ParsedInt, b: ParsedInt): ParsedInt {
    match (acc, b)
    case (Int(x), Int(y)) => Int(x + y)
    case _ => NaN
  }

  /** `activities.reduce((s, a) => s + a.bonusSteps, acc)` over freshly picked activities. */
  function ReducePicked(acc: ParsedInt, acts: seq<PickedActivity>): ParsedInt
    decreases |acts|
  {
    if acts == [] then acc else ReducePicked(AddParsed(acc, acts[0].bonusSteps), acts[1..])
  }

  /** The bonus the live preview counts for the ticked boxes: `parseInt(cb.dataset.bonus) || 0` each. */
  function PreviewBonus(checked: seq<Checkbox>): int
  {
    if checked == [] then 0
    else PreviewBonus(checked[..|checked| - 1]) + StepsValue(checked[|checked| - 1].dataBonus)
  }

  predicate AllBonusesParse(checked: seq<Checkbox>) {
    forall i :: 0 <= i < |checked| ==> ParseInt(checked[i].dataBonus).Int?
  }

  lemma {:induction false} PreviewBonusCons(cb: Checkbox, rest: seq<Checkbox>)
    ensures PreviewBonus([cb] + rest) == StepsValue(cb.dataBonus) + PreviewBonus(rest)
    decreases |rest|
  {
    if rest != [] {
      var s := [cb] + rest;
      assert s[..|s| - 1] == [cb] + rest[..|rest| - 1];
      PreviewBonusCons(cb, rest[..|rest| - 1]);
    } else {
      assert ([cb] + rest)[..0] == [];
    }
  }

  lemma {:induction false} PickAllCons(cb: Checkbox, rest: seq<Checkbox>)
    ensures PickAll([cb] + rest) == [Pick(cb)] + PickAll(rest)
    decreases |rest|
  {
    if rest != [] {
      var s := [cb] + rest;
      assert s[..|s| - 1] == [cb] + rest[..|rest| - 1];
      PickAllCons(cb, rest[..|rest| - 1]);
    } else {
      assert ([cb] + rest)[..0] == [];
    }
  }

  /** When every ticked box's bonus text is a number, summing the picked activities (as the
      submit form does) gives the preview's bonus; otherwise the submitted sum is NaN. */
  lemma {:induction false} ReducePickedIsPreviewBonus(acc: int, checked: seq<Checkbox>)
    ensures AllBonusesParse(checked) ==> ReducePicked(Int(acc), PickAll(checked)) == Int(acc + PreviewBonus(checked))
    ensures !AllBonusesParse(checked) ==> ReducePicked(Int(acc), PickAll(checked)) == NaN
    decreases |checked|
  {
    if checked != [] {
      var cb, rest := checked[0], checked[1..];
      assert [cb] + rest == checked;
      PickAllCons(cb, rest);
      PreviewBonusCons(cb, rest);
      assert PickAll(checked)[1..] == PickAll(rest);
      assert forall i :: 0 <= i < |rest| ==> rest[i] == checked[i + 1];
      match ParseInt(cb.dataBonus)
      case Int(v) =>
        ReducePickedIsPreviewBonus(acc + v, rest);
        assert AllBonusesParse(checked) <==> AllBonusesParse(rest) by {
          if AllBonusesParse(rest) {
            forall i | 0 <= i < |checked| ensures ParseInt(checked[i].dataBonus).Int? {
              if i > 0 { assert checked[i] == rest[i - 1]; }
            }
          }
        }
      case NaN =>
        NaNAbsorbs(PickAll(rest));
    }
  }

  lemma {:induction false} NaNAbsorbs(acts: seq<PickedActivity>)
    ensures ReducePicked(NaN, acts) == NaN
    decreases |acts|
  {
    if acts != [] {
      NaNAbsorbs(acts[1..]);
    }
  }

  /** The snapshots the API stores for the picked activities. Only entries whose bonuses are all
      numbers are stored through it below; a NaN bonus is given as 0 to keep it total. */
  function Snapshots(acts: seq<PickedActivity>): (snaps: seq<ActivitySnapshot>)
    ensures |snaps| == |acts|
    ensures forall i :: 0 <= i < |acts| ==>
      snaps[i] == ActivitySnapshot(acts[i].activityId, acts[i].name, CountedBonus(acts[i].bonusSteps))
  {
    if acts == [] then []
    else
      var last := acts[|acts| - 1];
      Snapshots(acts[..|acts| - 1]) + [ActivitySnapshot(last.activityId, last.name, CountedBonus(last.bonusSteps))]
  }

  /** A picked bonus counted the way the preview counts it: NaN as 0. */
  function CountedBonus(b: ParsedInt): int {
    match b
    case Int(v) => v
    case NaN => 0
  }

  function PickedBonus(acts: seq<PickedActivity>): int {
    if acts == [] then 0 else PickedBonus(acts[..|acts| - 1]) + CountedBonus(acts[|acts| - 1].bonusSteps)
  }

  lemma {:induction false} SnapshotsSum(acts: seq<PickedActivity>)
    ensures BonusSum(Snapshots(acts)) == PickedBonus(acts)
    decreases |acts|
  {
    if acts != [] {
      var init := acts[..|acts| - 1];
      SnapshotsSum(init);
      var snaps := Snapshots(acts);
      assert snaps[..|snaps| - 1] == Snapshots(init);
    }
  }

  lemma {:induction false} PickedBonusIsPreviewBonus(checked: seq<Checkbox>)
    ensures PickedBonus(PickAll(checked)) == PreviewBonus(checked)
    decreases |checked|
  {
    if checked != [] {
      var init := checked[..|checked| - 1];
      PickedBonusIsPreviewBonus(init);
      var acts := PickAll(checked);
      assert acts[..|acts| - 1] == PickAll(init);
    }
  }

  /** The entry stored from the ticked boxes carries exactly the bonus the live preview counted. */
  lemma SnapshotsBonus(checked: seq<Checkbox>)
    ensures BonusSum(Snapshots(PickAll(checked))) == PreviewBonus(checked)
  {
    SnapshotsSum(PickAll(checked));
    PickedBonusIsPreviewBonus(checked);
  }

  lemma PickAllShape(checked: seq<Checkbox>)
    ensures |PickAll(checked)| == |checked|
    ensures forall i :: 0 <= i < |checked| ==> PickAll(checked)[i] == Pick(checked[i])
  {
    if checked != [] {
      PickAllShape(checked[..|checked| - 1]);
    }
  }
}
