/**
 * The dashboard's leaderboards and team bar chart, drawn from the per-team
 * statistics the API sends (teams already ranked, each with its members).
 * The individual board flattens every team's members, sorts them by steps,
 * most first and ties in the order they were met, and keeps the first ten.
 */
module Leaderboard {
  import opened Results
  import opened Dashboard

  datatype MemberStat = MemberStat(name: string, totalSteps: int)
  datatype TeamStat = TeamStat(teamName: string, totalSteps: int, members: seq<MemberStat>)

  /** `{ ...m, teamName: t.teamName }`: a member tagged with its team. */
  datatype Ranked = Ranked(name: string, totalSteps: int, teamName: string)

  // ---------------------------------------------------------------- flattening

  function Tag(m: MemberStat, teamName: string): Ranked {
    Ranked(m.name, m.totalSteps, teamName)
  }

  /** The members of all teams, team by team, each in its team's order. */
  function Flattened(teams: seq<TeamStat>): seq<Ranked> {
    if teams == [] then []
    else
      var t := teams[|teams| - 1];
      Flattened(teams[..|teams| - 1]) + TaggedMembers(t.members, t.teamName)
  }

  function TaggedMembers(ms: seq<MemberStat>, teamName: string): (r: seq<Ranked>)
    ensures |r| == |ms|
    ensures forall j :: 0 <= j < |ms| ==> r[j] == Tag(ms[j], teamName)
  {
    if ms == [] then [] else TaggedMembers(ms[..|ms| - 1], teamName) + [Tag(ms[|ms| - 1], teamName)]
  }

  /** `r` is some team's member, tagged with that team's name. */
  predicate IsTaggedMember(teams: seq<TeamStat>, r: Ranked) {
    exists i, j :: 0 <= i < |teams| && 0 <= j < |teams[i].members| &&
      r == Tag(teams[i].members[j], teams[i].teamName)
  }

  /** The flattened list holds exactly the members of the teams, each tagged with its own team. */
  lemma {:induction false} FlattenedMembers(teams: seq<TeamStat>, r: Ranked)
    ensures r in Flattened(teams) <==> IsTaggedMember(teams, r)
    decreases |teams|
  {
    if teams != [] {
      var n := |teams|;
      var init, t := teams[..n - 1], teams[n - 1];
      FlattenedMembers(init, r);
      var tagged := TaggedMembers(t.members, t.teamName);
      assert Flattened(teams) == Flattened(init) + tagged;
      if r in tagged {
        var j :| 0 <= j < |tagged| && tagged[j] == r;
        assert r == Tag(teams[n - 1].members[j], teams[n - 1].teamName);
      }
      if r in Flattened(init) {
        var i, j :| 0 <= i < |init| && 0 <= j < |init[i].members| &&
          r == Tag(init[i].members[j], init[i].teamName);
        assert teams[i] == init[i];
      }
      if IsTaggedMember(teams, r) {
        var i, j :| 0 <= i < |teams| && 0 <= j < |teams[i].members| &&
          r == Tag(teams[i].members[j], teams[i].teamName);
        if i < n - 1 {
          assert teams[i] == init[i];
        } else {
          assert tagged[j] == r;
        }
      }
    }
  }

  /** As many entries as members in all teams together. */
  function MemberCount(teams: seq<TeamStat>): nat {
    if teams == [] then 0 else MemberCount(teams[..|teams| - 1]) + |teams[|teams| - 1].members|
  }

  lemma {:induction false} FlattenedLength(teams: seq<TeamStat>)
    ensures |Flattened(teams)| == MemberCount(teams)
    decreases |teams|
  {
    if teams != [] {
      FlattenedLength(teams[..|teams| - 1]);
    }
  }

  /** `teams.forEach(t => t.members.forEach(m => all.push({ ...m, teamName: t.teamName })))` */
  method Flatten(teams: seq<TeamStat>) returns (all: seq<Ranked>)
    ensures all == Flattened(teams)
  {
    all := [];
    for i := 0 to |teams|
      invariant all == Flattened(teams[..i])
    {
      assert teams[..i + 1][..i] == teams[..i];
      var t := teams[i];
      var before := all;
      for j := 0 to |t.members|
        invariant all == before + TaggedMembers(t.members[..j], t.teamName)
      {
        assert t.members[..j + 1][..j] == t.members[..j];
        all := all + [Tag(t.members[j], t.teamName)];
      }
      assert t.members[..|t.members|] == t.members;
    }
    assert teams[..|teams|] == teams;
  }

  // ---------------------------------------------------------------- sorting

  /** Non-increasing in steps: what the comparator `b.totalSteps - a.totalSteps` asks for. */
  predicate NonIncreasing(s: seq<Ranked>) {
    forall i, j :: 0 <= i < j < |s| ==> s[i].totalSteps >= s[j].totalSteps
  }

  /** The entries with a given number of steps, in order. */
  function WithSteps(s: seq<Ranked>, v: int): seq<Ranked> {
    if s == [] then []
    else WithSteps(s[..|s| - 1], v) + (if s[|s| - 1].totalSteps == v then [s[|s| - 1]] else [])
  }

  lemma {:induction false} WithStepsAppend(a: seq<Ranked>, b: seq<Ranked>, v: int)
    ensures WithSteps(a + b, v) == WithSteps(a, v) + WithSteps(b, v)
    decreases |b|
  {
    if b == [] {
      assert a + b == a;
    } else {
      var n := |b|;
      assert (a + b)[..|a + b| - 1] == a + b[..n - 1];
      WithStepsAppend(a, b[..n - 1], v);
    }
  }

  /** Puts `x` after every entry of `s` with at least its steps: where a stable sort puts a
      later element among earlier ones. */
  function InsertDesc(s: seq<Ranked>, x: Ranked): seq<Ranked> {
    if s == [] then [x]
    else if s[|s| - 1].totalSteps >= x.totalSteps then s + [x]
    else InsertDesc(s[..|s| - 1], x) + [s[|s| - 1]]
  }

  lemma {:induction false} InsertDescMultiset(s: seq<Ranked>, x: Ranked)
    ensures multiset(InsertDesc(s, x)) == multiset(s) + multiset{x}
    decreases |s|
  {
    if s != [] && s[|s| - 1].totalSteps < x.totalSteps {
      InsertDescMultiset(s[..|s| - 1], x);
      assert s == s[..|s| - 1] + [s[|s| - 1]];
    }
  }

  lemma {:induction false} InsertDescSorted(s: seq<Ranked>, x: Ranked)
    requires NonIncreasing(s)
    ensures NonIncreasing(InsertDesc(s, x))
    decreases |s|
  {
    if s != [] && s[|s| - 1].totalSteps < x.totalSteps {
      var n := |s|;
      var init, last := s[..n - 1], s[n - 1];
      InsertDescSorted(init, x);
      var r := InsertDesc(init, x);
      InsertDescMultiset(init, x);
      forall k | 0 <= k < |r|
        ensures r[k].totalSteps >= last.totalSteps
      {
        assert r[k] in multiset(r);
        if r[k] != x {
          assert r[k] in multiset(init);
          var l :| 0 <= l < |init| && init[l] == r[k];
          assert s[l] == r[k];
        }
      }
    }
  }

  lemma WithStepsOne(y: Ranked, v: int)
    ensures WithSteps([y], v) == if y.totalSteps == v then [y] else []
  {
    assert [y][..0] == [];
  }

  /** The step of `InsertDescStable` where `x` moves in front of a last entry with fewer steps. */
  lemma InsertDescStableStep(init: seq<Ranked>, last: Ranked, x: Ranked, v: int)
    requires last.totalSteps < x.totalSteps
    requires WithSteps(InsertDesc(init, x), v) == WithSteps(init, v) + WithSteps([x], v)
    ensures WithSteps(InsertDesc(init, x) + [last], v) == WithSteps(init + [last], v) + WithSteps([x], v)
  {
    WithStepsAppend(InsertDesc(init, x), [last], v);
    WithStepsAppend(init, [last], v);
    WithStepsOne(last, v);
    WithStepsOne(x, v);
  }

  /** Inserting keeps each steps value's entries in order, with `x` last among its equals. */
  lemma {:induction false} InsertDescStable(s: seq<Ranked>, x: Ranked, v: int)
    ensures WithSteps(InsertDesc(s, x), v) == WithSteps(s, v) + WithSteps([x], v)
    decreases |s|
  {
    if s == [] {
      WithStepsOne(x, v);
    } else if s[|s| - 1].totalSteps >= x.totalSteps {
      WithStepsAppend(s, [x], v);
    } else {
      var n := |s|;
      var init := s[..n - 1];
      InsertDescStable(init, x, v);
      InsertDescStableStep(init, s[n - 1], x, v);
      assert s == init + [s[n - 1]];
    }
  }

  /** `all.sort((a, b) => b.totalSteps - a.totalSteps)`: a stable sort, as JavaScript's sort is,
      written as insertion of each element after those already sorted. */
  function SortBySteps(s: seq<Ranked>): seq<Ranked> {
    if s == [] then [] else InsertDesc(SortBySteps(s[..|s| - 1]), s[|s| - 1])
  }

  /** The sort puts the entries in non-increasing order of steps and loses or adds none. */
  lemma {:induction false} SortByStepsSortsAndPermutes(s: seq<Ranked>)
    ensures NonIncreasing(SortBySteps(s))
    ensures multiset(SortBySteps(s)) == multiset(s)
    decreases |s|
  {
    if s != [] {
      var n := |s|;
      SortByStepsSortsAndPermutes(s[..n - 1]);
      InsertDescSorted(SortBySteps(s[..n - 1]), s[n - 1]);
      InsertDescMultiset(SortBySteps(s[..n - 1]), s[n - 1]);
      assert s == s[..n - 1] + [s[n - 1]];
    }
  }

  /** Ties keep the order in which they were met: for every steps value, the entries with it come
      out in the order they went in. */
  lemma {:induction false} SortByStepsStable(s: seq<Ranked>, v: int)
    ensures WithSteps(SortBySteps(s), v) == WithSteps(s, v)
    decreases |s|
  {
    if s != [] {
      var n := |s|;
      SortByStepsStable(s[..n - 1], v);
      InsertDescStable(SortBySteps(s[..n - 1]), s[n - 1], v);
      WithStepsOne(s[n - 1], v);
    }
  }

  // ---------------------------------------------------------------- the boards

  /** `all.slice(0, 10)` */
  function TopTen(s: seq<Ranked>): (r: seq<Ranked>)
    ensures |r| == if |s| < 10 then |s| else 10
    ensures r == s[..|r|]
  {
    if |s| < 10 then s else s[..10]
  }

  /** One row of a board: its rank (`i + 1`), and whether it gets the medal style of the first three. */
  datatype Row<T> = Row(rank: int, medal: bool, item: T)

  function Rows<T>(items: seq<T>): (rows: seq<Row<T>>)
    ensures |rows| == |items|
    ensures forall i :: 0 <= i < |items| ==> rows[i] == Row(i + 1, i < 3, items[i])
  {
    if items == [] then []
    else Rows(items[..|items| - 1]) + [Row(|items|, |items| - 1 < 3, items[|items| - 1])]
  }

  /** A team row: its name, the detail naming its first member when it has one, and its steps. */
  datatype TeamRow = TeamRow(teamName: string, top: Option<MemberStat>, totalSteps: int)

  function TeamRowOf(t: TeamStat): TeamRow {
    TeamRow(t.teamName, if t.members == [] then None else Some(t.members[0]), t.totalSteps)
  }

  function TeamRows(teams: seq<TeamStat>): (r: seq<TeamRow>)
    ensures |r| == |teams|
    ensures forall i :: 0 <= i < |teams| ==> r[i] == TeamRowOf(teams[i])
  {
    if teams == [] then [] else TeamRows(teams[..|teams| - 1]) + [TeamRowOf(teams[|teams| - 1])]
  }

  /** The individual board: the "no steps yet" message, or up to ten rows. */
  datatype IndividualBoard = NoSteps | Individuals(rows: seq<Row<Ranked>>)

  /** The bar chart: one bar per team, labelled and coloured by the team's name. */
  datatype BarChart = BarChart(labels: seq<string>, data: seq<int>, colors: seq<string>)

  /** What `loadTeamStats` draws: only the "no teams yet" message, or all three parts. */
  datatype TeamStatsView =
    | NoTeams
    | Boards(teamRows: seq<Row<TeamRow>>, individual: IndividualBoard, bars: BarChart)

  /** The bar chart's three `teams.map` calls. */
  function Bars(teams: seq<TeamStat>, colors: TeamColors): (b: BarChart)
    reads colors
    ensures |b.labels| == |b.data| == |b.colors| == |teams|
    ensures forall i :: 0 <= i < |teams| ==>
      b.labels[i] == teams[i].teamName && b.data[i] == teams[i].totalSteps &&
      b.colors[i] == colors.Color(teams[i].teamName)
  {
    if teams == [] then BarChart([], [], [])
    else
      var b := Bars(teams[..|teams| - 1], colors);
      var t := teams[|teams| - 1];
      BarChart(b.labels + [t.teamName], b.data + [t.totalSteps], b.colors + [colors.Color(t.teamName)])
  }

  lemma SortedLength(s: seq<Ranked>)
    ensures |SortBySteps(s)| == |s|
  {
    SortByStepsSortsAndPermutes(s);
    assert |SortBySteps(s)| == |multiset(SortBySteps(s))|;
  }

  /** `loadTeamStats`, given the teams the API returned and the page's colour map. */
  method LoadTeamStats(teams: seq<TeamStat>, colors: TeamColors) returns (v: TeamStatsView)
    ensures v.NoTeams? <==> teams == []
    ensures v.Boards? ==> v.teamRows == Rows(TeamRows(teams))
    ensures v.Boards? ==> (v.individual.NoSteps? <==> MemberCount(teams) == 0)
    ensures v.Boards? && v.individual.Individuals? ==>
      v.individual.rows == Rows(TopTen(SortBySteps(Flattened(teams))))
    ensures v.Boards? ==> v.bars == Bars(teams, colors)
  {
    if |teams| == 0 {
      return NoTeams;
    }
    var all := Flatten(teams);
    var sorted := SortBySteps(all);
    var top10 := TopTen(sorted);
    FlattenedLength(teams);
    SortedLength(all);
    var individual := if |top10| == 0 then NoSteps else Individuals(Rows(top10));
    v := Boards(Rows(TeamRows(teams)), individual, Bars(teams, colors));
  }

  /** Everyone on the individual board has at least the steps of everyone left off it, the board
      holds the ten best-placed members (or all of them when there are fewer), and each of them is
      a member of a team, tagged with that team. */
  lemma TopTenDominates(teams: seq<TeamStat>, i: int, j: int)
    requires 0 <= i < |TopTen(SortBySteps(Flattened(teams)))| <= j < |SortBySteps(Flattened(teams))|
    ensures TopTen(SortBySteps(Flattened(teams)))[i].totalSteps >= SortBySteps(Flattened(teams))[j].totalSteps
    ensures |TopTen(SortBySteps(Flattened(teams)))| == 10
  {
    SortByStepsSortsAndPermutes(Flattened(teams));
  }

  /** Everyone on the individual board is a member of some team, tagged with that team's name. */
  lemma TopTenAreMembers(teams: seq<TeamStat>, i: int)
    requires 0 <= i < |TopTen(SortBySteps(Flattened(teams)))|
    ensures IsTaggedMember(teams, TopTen(SortBySteps(Flattened(teams)))[i])
  {
    var all := Flattened(teams);
    var sorted := SortBySteps(all);
    SortByStepsSortsAndPermutes(all);
    var r := sorted[i];
    assert r in multiset(sorted);
    assert r in all;
    FlattenedMembers(teams, r);
  }
}
