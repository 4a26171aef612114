/**
 * The admin page: the team and activity forms with their input rules, the
 * entries table, the edit-entry modal and the quick submit. Prompts become
 * `Option` answers (None for Cancel), the catalogues the page caches become
 * parameters, and the server's replies are left to the caller.
 */
module Admin {
  import opened JsText
  import opened Results
  import opened Scoring
  import opened Dates
  import opened EntryInput

  // ---------------------------------------------------------------- member lists

  /** `.map(m => m.trim())` */
  function TrimAll(parts: seq<string>): (r: seq<string>)
    ensures |r| == |parts|
    ensures forall i :: 0 <= i < |parts| ==> r[i] == Trim(parts[i])
  {
    if parts == [] then [] else TrimAll(parts[..|parts| - 1]) + [Trim(parts[|parts| - 1])]
  }

  /** `.filter(m => m)`: the empty strings dropped, the rest kept in order. */
  function NonEmpty(items: seq<string>): (r: seq<string>)
    ensures |r| <= |items|
    ensures forall i :: 0 <= i < |r| ==> r[i] != [] && r[i] in items
    ensures (forall i :: 0 <= i < |items| ==> items[i] != []) ==> r == items
  {
    if items == [] then []
    else
      var init := NonEmpty(items[..|items| - 1]);
      var last := items[|items| - 1];
      assert forall i :: 0 <= i < |init| ==> init[i] in items;
      if last == [] then init else init + [last]
  }

  /** `text.split(',').map(m => m.trim()).filter(m => m)`: the member names typed into a team form.
      Every name is non-empty, has no white space at either end and holds no comma. */
  function MemberList(text: string): (ms: seq<string>)
    ensures forall i :: 0 <= i < |ms| ==> ms[i] != [] && IsTrimmed(ms[i]) && ',' !in ms[i]
  {
    var parts := Split(text, ',');
    var trimmed := TrimAll(parts);
    var ms := NonEmpty(trimmed);
    forall i | 0 <= i < |ms| ensures IsTrimmed(ms[i]) && ',' !in ms[i] {
      var j :| 0 <= j < |trimmed| && trimmed[j] == ms[i];
      TrimKeepsCharacters(parts[j], ',');
    }
    ms
  }

  lemma {:induction false} TrimAllCons(x: string, parts: seq<string>)
    ensures TrimAll([x] + parts) == [Trim(x)] + TrimAll(parts)
  {
  }

  lemma {:induction false} NonEmptyCons(x: string, items: seq<string>)
    ensures NonEmpty([x] + items) == (if x == [] then [] else [x]) + NonEmpty(items)
    decreases |items|
  {
    var s := [x] + items;
    if items == [] {
      assert s[..0] == [];
    } else {
      assert s[..|s| - 1] == [x] + items[..|items| - 1];
      NonEmptyCons(x, items[..|items| - 1]);
    }
  }

  /** An empty field gives no members. */
  lemma MemberListOfEmpty()
    ensures MemberList("") == []
  {
    assert Split("", ',') == [""];
    assert TrimAll([""]) == [Trim("")];
    assert Trim("") == [];
  }

  /** A single well-formed name is read as itself. */
  lemma MemberListOfName(m: string)
    requires m != [] && IsTrimmed(m) && ',' !in m
    ensures MemberList(m) == [m]
  {
    SplitWithout(m, ',');
    TrimOfTrimmed(m);
    assert TrimAll([m]) == [m];
  }

  lemma MemberListSteps(text: string)
    ensures MemberList(text) == NonEmpty(TrimAll(Split(text, ',')))
  {
  }

  /** A comma ends the first piece. */
  lemma MemberListAfterPiece(x: string, y: string)
    requires ',' !in x
    ensures MemberList(x + [','] + y) == NonEmpty([Trim(x)] + TrimAll(Split(y, ',')))
  {
    SplitAfterPiece(x, ',', y);
    TrimAllCons(x, Split(y, ','));
    MemberListSteps(x + [','] + y);
  }

  /** Text without a comma is one piece. */
  lemma MemberListOfPiece(x: string)
    requires ',' !in x
    ensures MemberList(x) == NonEmpty([Trim(x)])
  {
    SplitWithout(x, ',');
    assert TrimAll([x]) == [Trim(x)];
    MemberListSteps(x);
  }

  /** The names before a comma come first, those after it next: the order typed is kept. */
  lemma MemberListAppend(x: string, y: string)
    requires ',' !in x
    ensures MemberList(x + [','] + y) == MemberList(x) + MemberList(y)
  {
    var rest := TrimAll(Split(y, ','));
    MemberListAfterPiece(x, y);
    MemberListOfPiece(x);
    MemberListSteps(y);
    NonEmptyCons(Trim(x), rest);
    NonEmptyCons(Trim(x), []);
    assert [Trim(x)] + [] == [Trim(x)];
  }

  /** Trimming every piece undoes padding the first and last piece with white space. */
  lemma TrimAllPadEnds(p: seq<string>, a: string, b: string)
    requires |p| >= 1 && AllSpace(a) && AllSpace(b)
    ensures TrimAll(PadEnds(p, a, b)) == TrimAll(p)
  {
    var q := PadEnds(p, a, b);
    forall i | 0 <= i < |p|
      ensures Trim(q[i]) == Trim(p[i])
    {
      var pre: string := if i == 0 then a else [];
      var post: string := if i == |p| - 1 then b else [];
      PadEndsAt(p, a, b, i);
      TrimIgnoresSpace(pre, p[i], post);
    }
  }

  /** White space around the whole field changes nothing: it only pads the first and the last piece,
      and trimming removes it again. */
  lemma MemberListIgnoresSpace(a: string, t: string, b: string)
    requires AllSpace(a) && AllSpace(b)
    ensures MemberList(a + t + b) == MemberList(t)
  {
    assert forall i :: 0 <= i < |a| ==> a[i] != ',';
    assert forall i :: 0 <= i < |b| ==> b[i] != ',';
    SplitPadEnds(a, t, b, ',');
    TrimAllPadEnds(Split(t, ','), a, b);
    MemberListSteps(a + t + b);
    MemberListSteps(t);
  }

  /** A team as the API returns it. */
  datatype Team = Team(id: string, name: string, members: seq<string>)

  /** The body of a team POST or PUT. */
  datatype TeamBody = TeamBody(name: string, members: seq<string>)

  /** `addTeam`: the name is required after trimming; the member field is trimmed and, when
      anything is left, parsed. */
  function AddTeam(nameText: string, membersText: string): (r: Option<TeamBody>)
    ensures r.None? <==> Trim(nameText) == []
    ensures r.Some? ==> r.value.name == Trim(nameText) && r.value.name != []
    ensures r.Some? && Trim(membersText) == [] ==> r.value.members == []
  {
    var name := Trim(nameText);
    var membersStr := Trim(membersText);
    if name == [] then None
    else
      var members := if membersStr != [] then MemberList(membersStr) else [];
      Some(TeamBody(name, members))
  }

  /** The two team forms read a member field alike: the extra trim and the empty check of `addTeam`
      give what `editTeam`'s plain parse gives. */
  lemma AddTeamParsesAsEditTeam(nameText: string, membersText: string)
    requires Trim(nameText) != []
    ensures AddTeam(nameText, membersText).value.members == MemberList(membersText)
  {
    var a, b := TrimParts(membersText);
    MemberListIgnoresSpace(a, Trim(membersText), b);
    if Trim(membersText) == [] {
      MemberListOfEmpty();
    }
  }

  /** `xs.find(x => x._id === id)`, used for both teams and activities: the first element with that id. */
  function FindById<T>(xs: seq<T>, idOf: T -> string, id: string): (r: Option<T>)
    ensures r.None? <==> forall i :: 0 <= i < |xs| ==> idOf(xs[i]) != id
    ensures r.Some? ==> idOf(r.value) == id && r.value in xs
    ensures r.Some? ==> exists k :: 0 <= k < |xs| && xs[k] == r.value && forall j :: 0 <= j < k ==> idOf(xs[j]) != id
  {
    if xs == [] then None
    else if idOf(xs[0]) == id then Some(xs[0])
    else FindById(xs[1..], idOf, id)
  }

  function TeamId(t: Team): string {
    t.id
  }

  /** What the member prompt of `editTeam` shows to start with. */
  function MembersPrompt(team: Team): string {
    Join(team.members, ", ")
  }

  /** `editTeam`: nothing is sent for an unknown id or when either prompt is cancelled; otherwise
      the trimmed name and the parsed member field (no check that the name is non-empty). */
  function EditTeam(teams: seq<Team>, id: string, nameAnswer: Option<string>, membersAnswer: Option<string>): (r: Option<TeamBody>)
    ensures r.Some? <==> FindById(teams, TeamId, id).Some? && nameAnswer.Some? && membersAnswer.Some?
    ensures r.Some? ==> r.value == TeamBody(Trim(nameAnswer.value), MemberList(membersAnswer.value))
  {
    match FindById(teams, TeamId, id)
    case None => None
    case Some(_) =>
      match nameAnswer
      case None => None
      case Some(newName) =>
        match membersAnswer
        case None => None
        case Some(newMembers) => Some(TeamBody(Trim(newName), MemberList(newMembers)))
  }

  predicate WellFormedMembers(ms: seq<string>) {
    forall i :: 0 <= i < |ms| ==> ms[i] != [] && IsTrimmed(ms[i]) && ',' !in ms[i]
  }

  /** Parsing what the prompt starts with gives the members back: names without commas and
      without white space at their ends survive `join(', ')` followed by the parse. */
  lemma {:induction false} MemberListOfPrompt(ms: seq<string>)
    requires WellFormedMembers(ms)
    ensures MemberList(Join(ms, ", ")) == ms
    decreases |ms|
  {
    if ms == [] {
      MemberListOfEmpty();
    } else if |ms| == 1 {
      MemberListOfName(ms[0]);
    } else {
      MemberListOfPrompt(ms[1..]);
      MemberListOfPromptStep(ms);
    }
  }

  lemma MemberListOfPromptStep(ms: seq<string>)
    requires |ms| > 1 && WellFormedMembers(ms)
    requires MemberList(Join(ms[1..], ", ")) == ms[1..]
    ensures MemberList(Join(ms, ", ")) == ms
  {
    var first, rest := ms[0], Join(ms[1..], ", ");
    assert ms == [first] + ms[1..];
    assert first != [] && IsTrimmed(first) && ',' !in first;
    JoinAfterFirst(ms);
    MemberListAppend(first, " " + rest);
    MemberListAfterBlank(rest);
    MemberListOfName(first);
    calc {
      MemberList(Join(ms, ", "));
      MemberList(first + [','] + (" " + rest));
      MemberList(first) + MemberList(" " + rest);
      [first] + MemberList(rest);
      [first] + ms[1..];
      ms;
    }
  }

  lemma JoinAfterFirst(ms: seq<string>)
    requires |ms| > 1
    ensures Join(ms, ", ") == ms[0] + [','] + (" " + Join(ms[1..], ", "))
  {
  }

  lemma MemberListAfterBlank(t: string)
    ensures MemberList(" " + t) == MemberList(t)
  {
    assert " " + t == " " + t + [];
    MemberListIgnoresSpace(" ", t, []);
  }

  /** Confirming both prompts of `editTeam` unchanged sends the team as it was. */
  lemma EditTeamUnchanged(teams: seq<Team>, id: string)
    requires FindById(teams, TeamId, id).Some?
    requires IsTrimmed(FindById(teams, TeamId, id).value.name)
    requires WellFormedMembers(FindById(teams, TeamId, id).value.members)
    ensures var team := FindById(teams, TeamId, id).value;
      EditTeam(teams, id, Some(team.name), Some(MembersPrompt(team))) == Some(TeamBody(team.name, team.members))
  {
    var team := FindById(teams, TeamId, id).value;
    TrimOfTrimmed(team.name);
    MemberListOfPrompt(team.members);
  }

  // ---------------------------------------------------------------- activities

  /** The body of an activity POST or PUT. */
  datatype ActivityBody = ActivityBody(name: string, emoji: string, bonusSteps: int)

  /** The emoji an activity gets when none is typed. */
  const DefaultEmoji: string := "\U{1F3C3}"

  /** `addActivity`: refused exactly when the trimmed name is empty or the bonus, read as
      `parseInt(..) || 0`, is not positive; an empty emoji field gives the runner. */
  function AddActivity(nameText: string, emojiText: string, stepsText: string): (r: Option<ActivityBody>)
    ensures r.None? <==> Trim(nameText) == [] || StepsValue(stepsText) <= 0
    ensures r.Some? ==> r.value.name == Trim(nameText) && r.value.name != []
    ensures r.Some? ==> r.value.bonusSteps == StepsValue(stepsText) > 0
    ensures r.Some? ==> r.value.emoji == (if Trim(emojiText) == [] then DefaultEmoji else Trim(emojiText))
  {
    var name := Trim(nameText);
    var emoji := if Trim(emojiText) != [] then Trim(emojiText) else DefaultEmoji;
    var bonusSteps := StepsValue(stepsText);
    if name == [] || bonusSteps <= 0 then None
    else Some(ActivityBody(name, emoji, bonusSteps))
  }

  /** An activity is refused with a name of white space only, and with a bonus field that has no
      digit, reads 0 or reads a negative number. */
  lemma AddActivityRefusals(nameText: string, emojiText: string, spaces: string, n: nat)
    requires AllSpace(spaces)
    ensures AddActivity(spaces, emojiText, IntString(n + 1)).None?
    ensures AddActivity(nameText, emojiText, "").None?
    ensures AddActivity(nameText, emojiText, IntString(0)).None?
    ensures AddActivity(nameText, emojiText, IntString(-(n as int))).None?
  {
    StepsValueNoDigits("");
    StepsValueOfIntString(0, []);
    StepsValueOfIntString(-(n as int), []);
    assert IntString(0) + [] == IntString(0);
    assert IntString(-(n as int)) + [] == IntString(-(n as int));
  }

  function ActivityId(a: Activity): string {
    a.id
  }

  /** `editActivity` as written: the answers are trimmed and the bonus read as `parseInt(..) || 0`,
      with none of `addActivity`'s checks. */
  function EditActivity(catalogue: seq<Activity>, id: string,
                        nameAnswer: Option<string>, emojiAnswer: Option<string>, stepsAnswer: Option<string>): (r: Option<ActivityBody>)
    ensures r.Some? <==> FindById(catalogue, ActivityId, id).Some? && nameAnswer.Some? && emojiAnswer.Some? && stepsAnswer.Some?
    ensures r.Some? ==> r.value == ActivityBody(Trim(nameAnswer.value), Trim(emojiAnswer.value), StepsValue(stepsAnswer.value))
  {
    if FindById(catalogue, ActivityId, id).None? || nameAnswer.None? || emojiAnswer.None? || stepsAnswer.None? then None
    else Some(ActivityBody(Trim(nameAnswer.value), Trim(emojiAnswer.value), StepsValue(stepsAnswer.value)))
  }

  /** Answering the bonus prompt with zero or a negative number stores that bonus, and an empty
      name answer stores an empty name, although `addActivity` refuses both. */
  lemma EditActivityStoresNonPositiveBonus(act: Activity, n: nat, stepsAnswer: string)
    ensures EditActivity([act], act.id, Some(act.name), Some(act.emoji), Some(IntString(-(n as int)))).Some?
    ensures EditActivity([act], act.id, Some(act.name), Some(act.emoji), Some(IntString(-(n as int)))).value.bonusSteps
      == -(n as int)
    ensures EditActivity([act], act.id, Some(""), Some(act.emoji), Some(stepsAnswer)).value.name == []
    ensures AddActivity(act.name, act.emoji, IntString(-(n as int))).None?
  {
    StepsValueOfIntString(-(n as int), []);
    assert IntString(-(n as int)) + [] == IntString(-(n as int));
    assert Trim("") == [];
  }

  /** `editActivity` with `addActivity`'s rule applied to the answers: an empty trimmed name or a
      bonus that is not positive sends nothing, and an empty emoji gives the runner. */
  function EditActivityChecked(catalogue: seq<Activity>, id: string,
                               nameAnswer: Option<string>, emojiAnswer: Option<string>, stepsAnswer: Option<string>): (r: Option<ActivityBody>)
    ensures r.Some? ==> r.value.bonusSteps > 0 && r.value.name != []
    ensures r.Some? <==>
      (FindById(catalogue, ActivityId, id).Some? && nameAnswer.Some? && emojiAnswer.Some? && stepsAnswer.Some?
       && AddActivity(nameAnswer.value, emojiAnswer.value, stepsAnswer.value).Some?)
    ensures r.Some? ==> r == AddActivity(nameAnswer.value, emojiAnswer.value, stepsAnswer.value)
  {
    if FindById(catalogue, ActivityId, id).None? || nameAnswer.None? || emojiAnswer.None? || stepsAnswer.None? then None
    else AddActivity(nameAnswer.value, emojiAnswer.value, stepsAnswer.value)
  }

  /** Confirming the prompts unchanged keeps a well-formed activity as it is, under both versions. */
  lemma EditActivityUnchanged(catalogue: seq<Activity>, act: Activity)
    requires act in catalogue
    requires forall i :: 0 <= i < |catalogue| && catalogue[i].id == act.id ==> catalogue[i] == act
    requires act.name != [] && IsTrimmed(act.name) && act.emoji != [] && IsTrimmed(act.emoji)
    requires act.bonusSteps > 0
    ensures EditActivity(catalogue, act.id, Some(act.name), Some(act.emoji), Some(IntString(act.bonusSteps)))
      == Some(ActivityBody(act.name, act.emoji, act.bonusSteps))
    ensures EditActivityChecked(catalogue, act.id, Some(act.name), Some(act.emoji), Some(IntString(act.bonusSteps)))
      == Some(ActivityBody(act.name, act.emoji, act.bonusSteps))
  {
    TrimOfTrimmed(act.name);
    TrimOfTrimmed(act.emoji);
    StepsValueOfIntString(act.bonusSteps, []);
    assert IntString(act.bonusSteps) + [] == IntString(act.bonusSteps);
  }

  // ---------------------------------------------------------------- entries table

  /** One row of the admin's entries table. */
  datatype AdminRow = AdminRow(
    id: string, date: string, memberName: string, steps: int, bonus: int,
    withColleagues: bool, photoShared: bool, total: int)

  /** The row for one entry: bonus by `reduce` over its own snapshots, the formula written out
      again, and the date shown day first. */
  function AdminRowOf(e: Entry): AdminRow {
    var bonus := ReduceBonus(0, e.activities);
    var m := MultiplierOf(e.withColleagues, e.photoShared);
    AdminRow(e.id, DayMonthYear(e.date), e.memberName, e.steps, bonus,
      e.withColleagues, e.photoShared, RoundQuotient((e.steps + bonus) * m.num, m.den))
  }

  /** The admin table's total is the entry's total under the rule, and its bonus is the sum of
      the entry's own snapshots, whatever the catalogue says now. */
  lemma AdminRowTotalIsEntryTotal(e: Entry)
    ensures AdminRowOf(e).total == EntryTotal(e)
    ensures AdminRowOf(e).bonus == BonusSum(e.activities)
    ensures IsFullDate(e.date) ==> AdminRowOf(e).date == e.date[8..] + "-" + e.date[5..7] + "-" + e.date[..4]
  {
    ReduceIsSum(0, e.activities);
    if IsFullDate(e.date) {
      DayMonthYearOfFullDate(e.date);
    }
  }

  function AdminRows(entries: seq<Entry>): (rows: seq<AdminRow>)
    ensures |rows| == |entries|
    ensures forall i :: 0 <= i < |entries| ==> rows[i] == AdminRowOf(entries[i])
  {
    if entries == [] then [] else AdminRows(entries[..|entries| - 1]) + [AdminRowOf(entries[|entries| - 1])]
  }

  /** What the entries box shows. */
  datatype EntriesView = SelectTeam | NoEntriesFound | EntryTable(rows: seq<AdminRow>)

  /** `loadAdminEntries`, given the entries the API returned for the selection. Every entry gets a
      row, in the order received. */
  function AdminEntries(teamId: string, entries: seq<Entry>): (v: EntriesView)
    ensures v.SelectTeam? <==> teamId == []
    ensures v.NoEntriesFound? <==> teamId != [] && entries == []
    ensures v.EntryTable? ==> |v.rows| == |entries| >= 1
    ensures v.EntryTable? ==> forall i :: 0 <= i < |entries| ==> v.rows[i].total == EntryTotal(entries[i])
    ensures v.EntryTable? ==> v.rows == AdminRows(entries)
  {
    if teamId == [] then SelectTeam
    else if entries == [] then NoEntriesFound
    else
      var rows := AdminRows(entries);
      forall i | 0 <= i < |entries| ensures rows[i].total == EntryTotal(entries[i]) {
        AdminRowTotalIsEntryTotal(entries[i]);
      }
      EntryTable(rows)
  }

  // ---------------------------------------------------------------- edit modal

  /** `entry.activities.some(ea => ea.activityId === a._id || ea.name === a.name)`: whether the edit
      modal ticks a catalogue activity for an entry. */
  predicate PreTicked(entry: Entry, a: Activity) {
    exists k :: 0 <= k < |entry.activities| &&
      (entry.activities[k].activityId == a.id || entry.activities[k].name == a.name)
  }

  /** The catalogue positions whose activity `openEditEntry` ticks: ascending, and exactly the
      pre-ticked ones. */
  function TickedPositions(catalogue: seq<Activity>, entry: Entry): (ps: seq<nat>)
    ensures forall i :: 0 <= i < |ps| ==> ps[i] < |catalogue|
    ensures forall i, j :: 0 <= i < j < |ps| ==> ps[i] < ps[j]
    ensures forall k :: 0 <= k < |catalogue| ==> (k in ps <==> PreTicked(entry, catalogue[k]))
  {
    if catalogue == [] then []
    else
      var n := |catalogue|;
      var init := TickedPositions(catalogue[..n - 1], entry);
      assert forall k :: 0 <= k < n - 1 ==> catalogue[..n - 1][k] == catalogue[k];
      if PreTicked(entry, catalogue[n - 1]) then init + [n - 1] else init
  }

  /** The catalogue activities `openEditEntry` ticks: the activity at each ticked position, in
      catalogue order, so one box per pre-ticked catalogue entry. */
  function TickedActivities(catalogue: seq<Activity>, entry: Entry): (ts: seq<Activity>)
    ensures |ts| == |TickedPositions(catalogue, entry)|
    ensures forall i :: 0 <= i < |ts| ==> ts[i] == catalogue[TickedPositions(catalogue, entry)[i]]
    ensures forall a :: a in ts <==> a in catalogue && PreTicked(entry, a)
    ensures |ts| <= |catalogue|
  {
    var ps := TickedPositions(catalogue, entry);
    var ts := seq(|ps|, i requires 0 <= i < |ps| => catalogue[ps[i]]);
    AscendingBelow(ps, |catalogue|);
    TickedMembers(catalogue, entry, ps, ts);
    ts
  }

  /** A strictly ascending sequence of positions below `n` has at most `n` elements. */
  lemma {:induction false} AscendingBelow(ps: seq<nat>, n: nat)
    requires forall i :: 0 <= i < |ps| ==> ps[i] < n
    requires forall i, j :: 0 <= i < j < |ps| ==> ps[i] < ps[j]
    ensures |ps| <= n
    decreases |ps|
  {
    if ps != [] {
      var m := |ps|;
      AscendingBelow(ps[..m - 1], ps[m - 1]);
    }
  }

  /** Reading the catalogue at the ticked positions gives exactly the pre-ticked activities. */
  lemma TickedMembers(catalogue: seq<Activity>, entry: Entry, ps: seq<nat>, ts: seq<Activity>)
    requires forall i :: 0 <= i < |ps| ==> ps[i] < |catalogue|
    requires forall k :: 0 <= k < |catalogue| ==> (k in ps <==> PreTicked(entry, catalogue[k]))
    requires |ts| == |ps| && forall i :: 0 <= i < |ts| ==> ts[i] == catalogue[ps[i]]
    ensures forall a :: a in ts <==> a in catalogue && PreTicked(entry, a)
  {
    forall a
      ensures a in ts <==> a in catalogue && PreTicked(entry, a)
    {
      if a in ts {
        var i :| 0 <= i < |ts| && ts[i] == a;
        assert ps[i] in ps;
      }
      if a in catalogue && PreTicked(entry, a) {
        var k :| 0 <= k < |catalogue| && catalogue[k] == a;
        assert k in ps;
        var i :| 0 <= i < |ps| && ps[i] == k;
        assert ts[i] == a;
      }
    }
  }

  /** The ticked boxes of the edit modal, rendered from the catalogue's current values. */
  function Rendered(acts: seq<Activity>): (boxes: seq<Checkbox>)
    ensures |boxes| == |acts|
    ensures forall i :: 0 <= i < |acts| ==> boxes[i] == RenderCheckbox(acts[i])
  {
    if acts == [] then [] else Rendered(acts[..|acts| - 1]) + [RenderCheckbox(acts[|acts| - 1])]
  }

  /** The PUT body of `saveEditEntry`. */
  datatype EditBody = EditBody(date: string, steps: int, activities: seq<PickedActivity>,
                               withColleagues: bool, photoShared: bool)

  /** `saveEditEntry`: the steps are clamped (never refused), and one snapshot is pushed for each
      ticked box, in order, with `parseInt` of its bonus text. */
  method SaveEditEntry(date: string, stepsText: string, checked: seq<Checkbox>,
                       withColleagues: bool, photoShared: bool) returns (body: EditBody)
    ensures 0 <= body.steps <= MaxSteps
    ensures body.steps == EditSteps(stepsText)
    ensures body.activities == PickAll(checked)
    ensures body == EditBody(date, EditSteps(stepsText), PickAll(checked), withColleagues, photoShared)
  {
    var steps := StepsValue(stepsText);
    steps := Clamp(steps);
    var activities := [];
    for i := 0 to |checked|
      invariant activities == PickAll(checked[..i])
    {
      assert checked[..i + 1][..i] == checked[..i];
      activities := activities + [Pick(checked[i])];
    }
    assert checked[..|checked|] == checked;
    body := EditBody(date, steps, activities, withColleagues, photoShared);
  }

  /** The snapshots `saveEditEntry` stores when the modal is saved as it was opened. */
  function ResavedSnapshots(catalogue: seq<Activity>, entry: Entry): seq<ActivitySnapshot> {
    Snapshots(PickAll(Rendered(TickedActivities(catalogue, entry))))
  }

  /** Opening an entry and saving it without touching anything replaces its snapshots by the
      catalogue's current values: an entry holding one activity, whose catalogue bonus has since
      changed, counts the new bonus after the save instead of the one it was saved with. */
  lemma ResaveUsesCurrentBonus(entry: Entry, act: Activity)
    requires |entry.activities| == 1 && entry.activities[0].activityId == act.id
    ensures ResavedSnapshots([act], entry) == [ActivitySnapshot(act.id, act.name, act.bonusSteps)]
    ensures BonusSum(entry.activities) == entry.activities[0].bonusSteps
    ensures BonusSum(ResavedSnapshots([act], entry)) == act.bonusSteps
  {
    assert PreTicked(entry, act);
    var ts := TickedActivities([act], entry);
    assert [act][..0] == [];
    assert ts == [act];
    var boxes := Rendered(ts);
    assert boxes == [RenderCheckbox(act)];
    PickRendered(act);
    PickAllShape(boxes);
    var picked := PickAll(boxes);
    assert picked == [PickedActivity(act.id, act.name, Int(act.bonusSteps))];
    var snaps := Snapshots(picked);
    assert snaps == [ActivitySnapshot(act.id, act.name, act.bonusSteps)];
    assert snaps[..0] == [];
    assert entry.activities[..0] == [];
  }

  /** The snapshot a re-save stores for one ticked box: the entry's own snapshot of that activity
      when it has one, otherwise one from the box. */
  function KeepOne(prior: seq<ActivitySnapshot>, p: PickedActivity): ActivitySnapshot {
    match SnapshotFor(prior, p.activityId)
    case Some(s) => s
    case None => ActivitySnapshot(p.activityId, p.name, CountedBonus(p.bonusSteps))
  }

  /** The snapshots a re-save keeps: a ticked box whose activity the entry already held keeps the
      entry's own snapshot, and only a newly ticked box is snapshotted from the catalogue. */
  function KeepSnapshots(prior: seq<ActivitySnapshot>, picked: seq<PickedActivity>): (snaps: seq<ActivitySnapshot>)
    ensures |snaps| == |picked|
    ensures forall i :: 0 <= i < |picked| ==> snaps[i] == KeepOne(prior, picked[i])
  {
    if picked == [] then [] else KeepSnapshots(prior, picked[..|picked| - 1]) + [KeepOne(prior, picked[|picked| - 1])]
  }

  /** The first snapshot of the entry for the given activity id. */
  function SnapshotFor(prior: seq<ActivitySnapshot>, activityId: string): (r: Option<ActivitySnapshot>)
    ensures r.Some? ==> r.value in prior && r.value.activityId == activityId
    ensures r.None? <==> forall k :: 0 <= k < |prior| ==> prior[k].activityId != activityId
    ensures r.Some? ==> exists k :: 0 <= k < |prior| && prior[k] == r.value && forall j :: 0 <= j < k ==> prior[j].activityId != activityId
  {
    if prior == [] then None
    else if prior[0].activityId == activityId then Some(prior[0])
    else SnapshotFor(prior[1..], activityId)
  }

  /** With distinct activity ids, looking up an entry's own snapshot by its id finds it. */
  lemma {:induction false} SnapshotForAt(prior: seq<ActivitySnapshot>, i: int)
    requires 0 <= i < |prior|
    requires forall a, b :: 0 <= a < b < |prior| ==> prior[a].activityId != prior[b].activityId
    ensures SnapshotFor(prior, prior[i].activityId) == Some(prior[i])
    decreases i
  {
    if i > 0 {
      var rest := prior[1..];
      assert rest[i - 1] == prior[i];
      SnapshotForAt(rest, i - 1);
    }
  }

  /** With snapshots kept, re-saving an entry as it was opened, one ticked box per snapshot of
      the entry in the same order, stores the entry's own snapshots again. */
  lemma KeepSnapshotsOfOwn(prior: seq<ActivitySnapshot>, picked: seq<PickedActivity>)
    requires |picked| == |prior|
    requires forall i :: 0 <= i < |prior| ==> picked[i].activityId == prior[i].activityId
    requires forall i, j :: 0 <= i < j < |prior| ==> prior[i].activityId != prior[j].activityId
    ensures KeepSnapshots(prior, picked) == prior
  {
    forall i | 0 <= i < |prior| ensures KeepOne(prior, picked[i]) == prior[i] {
      SnapshotForAt(prior, i);
    }
  }

  /** The corrected re-save keeps every snapshot of an entry, and so its total, whatever the
      catalogue says now, when the modal ticks one catalogue activity per snapshot of the entry,
      in the entry's order. An entry holding an activity since deleted from the catalogue does not
      meet this: the modal renders only the catalogue, so that snapshot is not re-sent. */
  lemma ResaveKeepingSnapshots(catalogue: seq<Activity>, entry: Entry)
    requires forall i, j :: 0 <= i < j < |entry.activities| ==> entry.activities[i].activityId != entry.activities[j].activityId
    requires |TickedActivities(catalogue, entry)| == |entry.activities|
    requires forall i :: 0 <= i < |entry.activities| ==> TickedActivities(catalogue, entry)[i].id == entry.activities[i].activityId
    ensures KeepSnapshots(entry.activities, PickAll(Rendered(TickedActivities(catalogue, entry)))) == entry.activities
  {
    var ts := TickedActivities(catalogue, entry);
    var boxes := Rendered(ts);
    var picked := PickAll(boxes);
    PickAllShape(boxes);
    forall i | 0 <= i < |picked|
      ensures picked[i].activityId == entry.activities[i].activityId
    {
      PickRendered(ts[i]);
    }
    KeepSnapshotsOfOwn(entry.activities, picked);
  }

  // ---------------------------------------------------------------- quick submit

  /** The POST body of `quickSubmit`: no activities and neither flag. */
  datatype QuickBody = QuickBody(teamId: string, memberName: string, date: string, steps: int)

  /** `quickSubmit`: the submit rule of the entry page, applied to the admin's quick form. */
  method QuickSubmit(teamId: string, memberName: string, date: string, stepsText: string)
    returns (r: Result<QuickBody, SubmitError>)
    ensures r.Err? <==> SubmitSteps(teamId, memberName, date, stepsText).Err?
    ensures r.Err? ==> r.error == SubmitSteps(teamId, memberName, date, stepsText).error
    ensures r.Ok? ==> r.value == QuickBody(teamId, memberName, date, SubmitSteps(teamId, memberName, date, stepsText).value)
    ensures r.Ok? ==> 0 <= r.value.steps <= MaxSteps
  {
    var steps := StepsValue(stepsText);
    if teamId == [] || memberName == [] || date == [] {
      return Err(MissingFields);
    }
    if steps > MaxSteps {
      return Err(TooManySteps);
    }
    steps := Clamp(steps);
    r := Ok(QuickBody(teamId, memberName, date, steps));
  }

  /** A quick entry counts for exactly its steps: no bonus, no multiplier. */
  lemma QuickEntryTotal(body: QuickBody, id: string)
    ensures EntryTotal(Entry(id, body.teamId, body.memberName, body.date, body.steps, [], false, false)) == body.steps
  {
    EntryTotalWithoutFlags(Entry(id, body.teamId, body.memberName, body.date, body.steps, [], false, false));
  }
}
