/**
 * The one scoring rule of the challenge. An entry's total is
 * `Math.round((steps + bonus) * mult)`, where `bonus` is the sum of the
 * entry's own snapshotted activity bonuses and `mult` starts at 1, is
 * multiplied by 1.5 when the steps were walked with colleagues and by 1.25
 * when a photo was shared. The pages compute this in four places; the
 * modules that model them prove each one equal to `EntryTotal`.
 */
module Scoring {

  /** An activity of the catalogue, as the admin page creates and edits it. */
  datatype Activity = Activity(id: string, name: string, emoji: string, bonusSteps: int)

  /** An activity as copied into an entry when the entry was saved: later edits of the
      catalogue do not reach it. */
  datatype ActivitySnapshot = ActivitySnapshot(activityId: string, name: string, bonusSteps: int)

  /** A stored entry as the API returns it. */
  datatype Entry = Entry(
    id: string, teamId: string, memberName: string, date: string, steps: int,
    activities: seq<ActivitySnapshot>, withColleagues: bool, photoShared: bool)

  /** The factor num/den. The challenge's factors are dyadic, so the doubles the
      pages compute with hold them, and their products with step counts, exactly. */
  datatype Multiplier = Multiplier(num: nat, den: nat)

  const Unit := Multiplier(1, 1)
  const ColleaguesFactor := Multiplier(3, 2)
  const PhotoFactor := Multiplier(5, 4)

  function Times(a: Multiplier, b: Multiplier): Multiplier {
    Multiplier(a.num * b.num, a.den * b.den)
  }

  /** `mult > 1` */
  predicate AboveOne(m: Multiplier) {
    m.num > m.den
  }

  /** `let mult = 1; if (withColleagues) mult *= 1.5; if (photoShared) mult *= 1.25;`
      The result is one of 1, 1.5, 1.25 and 1.875, never below 1, and 1.875 exactly
      when both flags are set. */
  function MultiplierOf(withColleagues: bool, photoShared: bool): (m: Multiplier)
    ensures m.den > 0 && m.num >= m.den
    ensures m in {Multiplier(1, 1), Multiplier(3, 2), Multiplier(5, 4), Multiplier(15, 8)}
    ensures m == Multiplier(15, 8) <==> withColleagues && photoShared
    ensures m == Multiplier(1, 1) <==> !withColleagues && !photoShared
    ensures AboveOne(m) <==> withColleagues || photoShared
  {
    var m := if withColleagues then Times(Unit, ColleaguesFactor) else Unit;
    if photoShared then Times(m, PhotoFactor) else m
  }

  /** `Math.round(num / den)`: the integer within one half of num/den, a half rounded up
      (towards +infinity, also for negative values). */
  function RoundQuotient(num: int, den: nat): (r: int)
    requires den > 0
    ensures 2 * den * r - den <= 2 * num < 2 * den * r + den
  {
    (2 * num + den) / (2 * den)
  }

  lemma ScaleStep(k: int, a: int, b: int)
    requires k > 0 && a < b
    ensures k * a + k <= k * b
  {
    var d: nat := b - a - 1;
    assert b == a + 1 + d;
    assert k * b == k * a + k + k * d;
  }

  /** Only one integer lies within one half of num/den (a half counting upwards), so
      `RoundQuotient` is that integer. */
  lemma RoundUnique(num: int, den: nat, r: int)
    requires den > 0
    requires 2 * den * r - den <= 2 * num < 2 * den * r + den
    ensures r == RoundQuotient(num, den)
  {
    var q := RoundQuotient(num, den);
    var k := 2 * den;
    assert k * q - den <= 2 * num < k * q + den;
    if r < q {
      ScaleStep(k, r, q);
    } else if r > q {
      ScaleStep(k, q, r);
    }
  }

  /** The score of a base (steps plus bonus) under the two flags:
      `Math.round(base * mult)`. */
  function Score(base: int, withColleagues: bool, photoShared: bool): int
  {
    var m := MultiplierOf(withColleagues, photoShared);
    RoundQuotient(base * m.num, m.den)
  }

  /** The four multipliers reduce `Math.round` to integer arithmetic:
      b, (3b+1) div 2, (5b+2) div 4 and (15b+4) div 8 (floor division). */
  lemma ScoreClosedForm(b: int, withColleagues: bool, photoShared: bool)
    ensures Score(b, withColleagues, photoShared) ==
      if !withColleagues && !photoShared then b
      else if withColleagues && !photoShared then (3 * b + 1) / 2
      else if !withColleagues && photoShared then (5 * b + 2) / 4
      else (15 * b + 4) / 8
  {
    var m := MultiplierOf(withColleagues, photoShared);
    var c := if !withColleagues && !photoShared then b
      else if withColleagues && !photoShared then (3 * b + 1) / 2
      else if !withColleagues && photoShared then (5 * b + 2) / 4
      else (15 * b + 4) / 8;
    assert 2 * m.den * c - m.den <= 2 * (b * m.num) < 2 * m.den * c + m.den;
    RoundUnique(b * m.num, m.den, c);
  }

  /** Every multiplier is at least 1, so a non-negative base never scores less than itself. */
  lemma ScoreAtLeastBase(b: int, withColleagues: bool, photoShared: bool)
    requires b >= 0
    ensures Score(b, withColleagues, photoShared) >= b
  {
    ScoreClosedForm(b, withColleagues, photoShared);
  }

  /** More steps never score less. */
  lemma ScoreMonotone(b1: int, b2: int, withColleagues: bool, photoShared: bool)
    requires b1 <= b2
    ensures Score(b1, withColleagues, photoShared) <= Score(b2, withColleagues, photoShared)
  {
    ScoreClosedForm(b1, withColleagues, photoShared);
    ScoreClosedForm(b2, withColleagues, photoShared);
  }

  /** Without either flag the score is the base itself. */
  lemma ScoreWithoutFlags(b: int)
    ensures Score(b, false, false) == b
  {
    ScoreClosedForm(b, false, false);
  }

  /** Both flags: 1000 steps count as round(1000 * 1.875) = 1875. */
  lemma ScoreBothFlagsExample()
    ensures Score(1000, true, true) == 1875
  {
    ScoreClosedForm(1000, true, true);
  }

  /** The bonus of an entry: the sum of its own snapshotted `bonusSteps`. */
  function BonusSum(acts: seq<ActivitySnapshot>): int
  {
    if acts == [] then 0 else BonusSum(acts[..|acts| - 1]) + acts[|acts| - 1].bonusSteps
  }

  lemma {:induction false} BonusSumCons(a: ActivitySnapshot, rest: seq<ActivitySnapshot>)
    ensures BonusSum([a] + rest) == a.bonusSteps + BonusSum(rest)
    decreases |rest|
  {
    if rest != [] {
      var s := [a] + rest;
      assert s[..|s| - 1] == [a] + rest[..|rest| - 1];
      BonusSumCons(a, rest[..|rest| - 1]);
    } else {
      assert ([a] + rest)[..0] == [];
    }
  }

  /** `activities.reduce((s, a) => s + a.bonusSteps, acc)`: a left fold from `acc`. */
  function ReduceBonus(acc: int, acts: seq<ActivitySnapshot>): int
    decreases |acts|
  {
    if acts == [] then acc else ReduceBonus(acc + acts[0].bonusSteps, acts[1..])
  }

  /** The pages' `reduce` computes the sum of the snapshots' bonuses. */
  lemma {:induction false} ReduceIsSum(acc: int, acts: seq<ActivitySnapshot>)
    ensures ReduceBonus(acc, acts) == acc + BonusSum(acts)
    decreases |acts|
  {
    if acts != [] {
      ReduceIsSum(acc + acts[0].bonusSteps, acts[1..]);
      BonusSumCons(acts[0], acts[1..]);
      assert [acts[0]] + acts[1..] == acts;
    }
  }

  /** The rule: the total an entry counts for, computed from the entry alone. */
  function EntryTotal(e: Entry): int
  {
    Score(e.steps + BonusSum(e.activities), e.withColleagues, e.photoShared)
  }

  /** With neither flag the total is steps plus bonus, and with no activities as well it is the steps. */
  lemma EntryTotalWithoutFlags(e: Entry)
    requires !e.withColleagues && !e.photoShared
    ensures EntryTotal(e) == e.steps + BonusSum(e.activities)
    ensures e.activities == [] ==> EntryTotal(e) == e.steps
  {
    ScoreWithoutFlags(e.steps + BonusSum(e.activities));
  }

  /** With both flags the total is (15 * (steps + bonus) + 4) div 8, and never below steps + bonus
      when that is not negative. */
  lemma EntryTotalBothFlags(e: Entry)
    requires e.withColleagues && e.photoShared
    ensures EntryTotal(e) == (15 * (e.steps + BonusSum(e.activities)) + 4) / 8
    ensures e.steps + BonusSum(e.activities) >= 0 ==> EntryTotal(e) >= e.steps + BonusSum(e.activities)
  {
    ScoreClosedForm(e.steps + BonusSum(e.activities), true, true);
  }

  /** 5000 steps with activities worth 1000 and 500 and no flags total 6500. */
  lemma EntryTotalExample()
    ensures EntryTotal(Entry("", "", "", "", 5000,
      [ActivitySnapshot("", "", 1000), ActivitySnapshot("", "", 500)], false, false)) == 6500
  {
    var acts := [ActivitySnapshot("", "", 1000), ActivitySnapshot("", "", 500)];
    assert acts[..1] == [acts[0]];
    assert BonusSum(acts) == 1500;
    ScoreWithoutFlags(6500);
  }
}
