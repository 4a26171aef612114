/**
 * The dashboard's progress panel and its team colours. The colour map is
 * the page's one long-lived mutable object: every refresh writes each team's
 * palette colour into it and nothing ever removes a name.
 */
module Dashboard {

  // ---------------------------------------------------------------- progress

  /** `Math.max(goal - total, 0)`: the steps still needed. */
  function Remaining(goal: int, total: int): (r: int)
    ensures r >= 0
    ensures r == 0 <==> total >= goal
    ensures r > 0 ==> r == goal - total
  {
    if goal - total > 0 then goal - total else 0
  }

  /** What the line under the progress bar says. */
  datatype Subtitle = GoalReached | StepsToGo(remaining: int)

  /** `loadProgress`'s subtitle: the goal message when `total >= goal`, otherwise the steps to go. */
  function ProgressSubtitle(goal: int, total: int): (s: Subtitle)
    ensures s.GoalReached? <==> total >= goal
    ensures s.StepsToGo? ==> s.remaining == goal - total > 0
  {
    var remaining := Remaining(goal, total);
    if total >= goal then GoalReached else StepsToGo(remaining)
  }

  /** The subtitle never announces zero or a negative number of steps to go, and it announces
      the goal exactly when nothing remains. */
  lemma SubtitleAgreesWithRemaining(goal: int, total: int)
    ensures ProgressSubtitle(goal, total).GoalReached? <==> Remaining(goal, total) == 0
    ensures ProgressSubtitle(goal, total).StepsToGo? ==>
      ProgressSubtitle(goal, total).remaining == Remaining(goal, total) > 0
  {
  }

  // ---------------------------------------------------------------- team colours

  /** `TEAM_COLORS` */
  const Palette: seq<string> := ["#2A6085", "#B0543B", "#E0A943", "#BFD4DA", "#1D1D1B"]

  /** The colour of a name the map does not hold. */
  const Grey: string := "#888"

  /** The map after `teams.forEach((t, i) => { teamColorMap[t.name] = TEAM_COLORS[i % 5]; })`,
      starting from `m`: each name gets the palette colour of its position, a later position
      overwriting an earlier one. */
  function Assigned(m: map<string, string>, names: seq<string>): map<string, string>
  {
    if names == [] then m
    else Assigned(m, names[..|names| - 1])[names[|names| - 1] := Palette[(|names| - 1) % |Palette|]]
  }

  /** A name gets the colour of its last position in the list. */
  lemma {:induction false} AssignedColorOf(m: map<string, string>, names: seq<string>, i: int)
    requires 0 <= i < |names|
    requires forall j :: i < j < |names| ==> names[j] != names[i]
    ensures names[i] in Assigned(m, names)
    ensures Assigned(m, names)[names[i]] == Palette[i % |Palette|]
    decreases |names|
  {
    var n := |names|;
    if i < n - 1 {
      var init := names[..n - 1];
      assert init[i] == names[i];
      AssignedColorOf(m, init, i);
    }
  }

  /** A name not in the list keeps what it had: colours of teams from an earlier refresh stay. */
  lemma {:induction false} AssignedKeeps(m: map<string, string>, names: seq<string>, x: string)
    requires forall j :: 0 <= j < |names| ==> names[j] != x
    ensures x in Assigned(m, names) <==> x in m
    ensures x in m ==> Assigned(m, names)[x] == m[x]
    decreases |names|
  {
    if names != [] {
      AssignedKeeps(m, names[..|names| - 1], x);
    }
  }

  /** Every colour in the map after an assignment is from the palette or was there before. */
  lemma {:induction false} AssignedFromPalette(m: map<string, string>, names: seq<string>, x: string)
    requires x in Assigned(m, names)
    ensures Assigned(m, names)[x] in Palette || (x in m && Assigned(m, names)[x] == m[x])
    decreases |names|
  {
    if names != [] {
      var n := |names|;
      if names[n - 1] != x {
        AssignedFromPalette(m, names[..n - 1], x);
      }
    }
  }

  /** `teamColorMap` and the `color` lookup. */
  class TeamColors {
    var colorOf: map<string, string>

    constructor()
      ensures colorOf == map[]
    {
      colorOf := map[];
    }

    /** `color(name)`: `teamColorMap[name] || '#888'`. */
    function Color(name: string): (c: string)
      reads this
      ensures name in colorOf && colorOf[name] != [] ==> c == colorOf[name]
      ensures name !in colorOf ==> c == Grey
    {
      if name in colorOf && colorOf[name] != [] then colorOf[name] else Grey
    }

    /** The loop of `loadDashboard` over the teams it fetched. */
    method AssignColors(teamNames: seq<string>)
      modifies this
      ensures colorOf == Assigned(old(colorOf), teamNames)
    {
      for i := 0 to |teamNames|
        invariant colorOf == Assigned(old(colorOf), teamNames[..i])
      {
        assert teamNames[..i + 1][..i] == teamNames[..i];
        colorOf := colorOf[teamNames[i] := Palette[i % |Palette|]];
      }
      assert teamNames[..|teamNames|] == teamNames;
    }
  }

  /** After the first refresh, team `i` of a list of distinct team names is drawn in palette colour
      `i mod 5`, and every other name in grey. */
  lemma FirstRefreshColors(names: seq<string>, i: int, other: string)
    requires forall a, b :: 0 <= a < b < |names| ==> names[a] != names[b]
    requires 0 <= i < |names|
    requires forall j :: 0 <= j < |names| ==> names[j] != other
    ensures names[i] in Assigned(map[], names)
    ensures Assigned(map[], names)[names[i]] == Palette[i % 5]
    ensures other !in Assigned(map[], names)
  {
    AssignedColorOf(map[], names, i);
    AssignedKeeps(map[], names, other);
  }
}
