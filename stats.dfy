/** The score aggregator: the statistics of one player's history. Both ledger
    revisions run the same loop and differ only in which plays count, so the
    rule is a parameter `keep`. */
module Stats {
  import opened Types

  /** The plays of one turn that count, in entry order. */
  function Kept(plays: seq<Play>, keep: Play -> bool): (r: seq<Play>)
    ensures |r| <= |plays|
  {
    if plays == [] then []
    else
      var last := plays[|plays| - 1];
      Kept(plays[..|plays| - 1], keep) + (if keep(last) then [last] else [])
  }

  /** The plays of a turn slot; a hole contributes nothing. */
  function SlotPlays(slot: Option<Turn>, keep: Play -> bool): (r: seq<Play>)
    ensures forall p :: p in r ==> keep(p)
  {
    match slot
    case None => []
    case Some(t) =>
      KeptHas(t.plays, keep);
      Kept(t.plays, keep)
  }

  /** Every counted play of a history, in traversal order: round by round,
      and within a round in entry order. */
  function Collect(turns: seq<Option<Turn>>, keep: Play -> bool): (r: seq<Play>)
    ensures forall p :: p in r ==> keep(p)
  {
    if turns == [] then []
    else Collect(turns[..|turns| - 1], keep) + SlotPlays(turns[|turns| - 1], keep)
  }

  /** A play of a turn is kept exactly when it passes the rule. */
  lemma {:induction false} KeptHas(plays: seq<Play>, keep: Play -> bool)
    ensures forall p :: p in Kept(plays, keep) <==> p in plays && keep(p)
  {
    if plays != [] {
      var n := |plays| - 1;
      KeptHas(plays[..n], keep);
      assert plays == plays[..n] + [plays[n]];
    }
  }

  /** A play counts exactly when it passes the rule and sits in a turn that
      exists; holes contribute nothing. */
  lemma {:induction false} CollectHas(turns: seq<Option<Turn>>, keep: Play -> bool)
    ensures forall p :: p in Collect(turns, keep) <==>
      keep(p) && exists i :: 0 <= i < |turns| && turns[i].Some? && p in turns[i].value.plays
  {
    if turns != [] {
      var n := |turns| - 1;
      CollectHas(turns[..n], keep);
      assert forall i :: 0 <= i < n ==> turns[..n][i] == turns[i];
      if turns[n].Some? {
        KeptHas(turns[n].value.plays, keep);
      }
    }
  }

  /** The total points of `plays`; never negative when no play is. */
  function Sum(plays: seq<Play>): (total: int)
    ensures (forall i :: 0 <= i < |plays| ==> plays[i].points >= 0) ==> total >= 0
  {
    if plays == [] then 0 else Sum(plays[..|plays| - 1]) + plays[|plays| - 1].points
  }

  /** What `[...plays].sort((a, b) => b.points - a.points)[0]` selects: the
      sort is stable, so among the plays with the most points the one met
      first comes out on top. */
  function FirstMax(plays: seq<Play>): (k: nat)
    requires |plays| > 0
    ensures k < |plays|
    ensures forall j :: 0 <= j < |plays| ==> plays[j].points <= plays[k].points
    ensures forall j :: 0 <= j < k ==> plays[j].points < plays[k].points
  {
    if |plays| == 1 then 0
    else
      var k := FirstMax(plays[..|plays| - 1]);
      if plays[|plays| - 1].points > plays[k].points then |plays| - 1 else k
  }

  /** `getPlayerStats` as a value: total and count of the counted plays, the
      exact quotient as average (0 when nothing counts), the first play with
      the most points as highest word (none when nothing counts). */
  function StatsOf(turns: seq<Option<Turn>>, keep: Play -> bool): (s: PlayerStats)
    ensures s.wordCount == |Collect(turns, keep)|
    ensures s.totalScore == Sum(Collect(turns, keep))
    ensures s.wordCount == 0 ==> s.totalScore == 0 && s.averagePoints == 0.0
    ensures s.wordCount > 0 ==> s.averagePoints == s.totalScore as real / s.wordCount as real
    ensures s.highestWord.None? <==> s.wordCount == 0
    ensures s.highestWord.Some? ==>
      var c := Collect(turns, keep);
      s.highestWord.value in c &&
      (forall p :: p in c ==> p.points <= s.highestWord.value.points) &&
      exists k :: 0 <= k < |c| && c[k] == s.highestWord.value &&
        forall j :: 0 <= j < k ==> c[j].points < c[k].points
  {
    var c := Collect(turns, keep);
    var total := Sum(c);
    if |c| == 0 then PlayerStats(total, 0.0, None, 0)
    else
      var k := FirstMax(c);
      PlayerStats(total, total as real / |c| as real, Some(c[k]), |c|)
  }

  /** The `forEach` traversal of `getPlayerStats`: accumulates the total and
      the list of counted plays turn by turn, then derives the rest. */
  method Aggregate(turns: seq<Option<Turn>>, keep: Play -> bool) returns (stats: PlayerStats)
    ensures stats == StatsOf(turns, keep)
  {
    var totalScore := 0;
    var allPlays: seq<Play> := [];
    var i := 0;
    while i < |turns|
      invariant 0 <= i <= |turns|
      invariant allPlays == Collect(turns[..i], keep)
      invariant totalScore == Sum(allPlays)
    {
      match turns[i] {
        case None =>
          assert allPlays == Collect(turns[..i], keep) + SlotPlays(turns[i], keep);
        case Some(turn) =>
          totalScore, allPlays := AccumulateTurn(turn.plays, keep, totalScore, allPlays);
      }
      CollectStep(turns, i, keep);
      i := i + 1;
    }
    assert turns[..i] == turns;
    var wordCount := |allPlays|;
    var averagePoints := if wordCount > 0 then totalScore as real / wordCount as real else 0.0;
    var highestWord := if wordCount > 0 then Some(allPlays[FirstMax(allPlays)]) else None;
    stats := PlayerStats(totalScore, averagePoints, highestWord, wordCount);
  }

  /** The inner `turn.plays.forEach`: adds each counted play's points to the
      running total and pushes the play onto the running list. */
  method AccumulateTurn(plays: seq<Play>, keep: Play -> bool, total0: int, acc0: seq<Play>)
    returns (total: int, acc: seq<Play>)
    requires total0 == Sum(acc0)
    ensures acc == acc0 + Kept(plays, keep)
    ensures total == Sum(acc)
  {
    total, acc := total0, acc0;
    var j := 0;
    while j < |plays|
      invariant 0 <= j <= |plays|
      invariant acc == acc0 + Kept(plays[..j], keep)
      invariant total == Sum(acc)
    {
      var play := plays[j];
      KeptStep(plays, j, keep);
      if keep(play) {
        SumSnoc(acc, play);
        assert acc0 + Kept(plays[..j], keep) + [play] == acc0 + (Kept(plays[..j], keep) + [play]);
        total := total + play.points;
        acc := acc + [play];
      }
      j := j + 1;
    }
    assert plays[..j] == plays;
  }

  lemma SumSnoc(acc: seq<Play>, p: Play)
    ensures Sum(acc + [p]) == Sum(acc) + p.points
  {
    assert (acc + [p])[..|acc|] == acc;
  }

  lemma CollectStep(turns: seq<Option<Turn>>, i: nat, keep: Play -> bool)
    requires i < |turns|
    ensures Collect(turns[..i + 1], keep) == Collect(turns[..i], keep) + SlotPlays(turns[i], keep)
  {
    assert turns[..i + 1][..i] == turns[..i];
  }

  lemma KeptStep(plays: seq<Play>, j: nat, keep: Play -> bool)
    requires j < |plays|
    ensures Kept(plays[..j + 1], keep) == Kept(plays[..j], keep) + (if keep(plays[j]) then [plays[j]] else [])
  {
    assert plays[..j + 1][..j] == plays[..j];
  }

  /** Padding with holes adds no play. */
  lemma {:induction false} CollectPadded(turns: seq<Option<Turn>>, m: nat, keep: Play -> bool)
    ensures Collect(turns + Holes(m), keep) == Collect(turns, keep)
  {
    if m == 0 {
      assert turns + Holes(0) == turns;
    } else {
      CollectPadded(turns, m - 1, keep);
      var padded := turns + Holes(m);
      assert padded[..|padded| - 1] == turns + Holes(m - 1);
    }
  }

  /** Filling a hole with a turn none of whose plays count adds no play. */
  lemma {:induction false} CollectFilled(turns: seq<Option<Turn>>, r: nat, t: Turn, keep: Play -> bool)
    requires r < |turns| && turns[r].None?
    requires Kept(t.plays, keep) == []
    ensures Collect(turns[r := Some(t)], keep) == Collect(turns, keep)
  {
    var n := |turns| - 1;
    var filled := turns[r := Some(t)];
    assert Collect(filled, keep) == Collect(filled[..n], keep) + SlotPlays(filled[n], keep);
    if r == n {
      assert filled[..n] == turns[..n];
    } else {
      assert filled[..n] == turns[..n][r := Some(t)];
      CollectFilled(turns[..n], r, t, keep);
    }
  }

  /** Filling an empty slot with a turn none of whose plays count leaves the
      counted plays as they were. */
  lemma FillInvisible(turns: seq<Option<Turn>>, r: nat, t: Turn, keep: Play -> bool)
    requires TurnAt(turns, r).None?
    requires Kept(t.plays, keep) == []
    ensures Collect(SetTurn(turns, r, t), keep) == Collect(turns, keep)
  {
    if r < |turns| {
      CollectFilled(turns, r, t, keep);
    } else {
      var padded := turns + Holes(r - |turns|);
      CollectPadded(turns, r - |turns|, keep);
      CollectSnoc(padded, Some(t), keep);
    }
  }

  lemma CollectSnoc(s: seq<Option<Turn>>, x: Option<Turn>, keep: Play -> bool)
    ensures Collect(s + [x], keep) == Collect(s, keep) + SlotPlays(x, keep)
  {
    assert (s + [x])[..|s|] == s;
  }

  /** Two counting rules agree on a history when they agree on every play
      of every turn in it. */
  predicate RulesAgree(turns: seq<Option<Turn>>, k1: Play -> bool, k2: Play -> bool)
  {
    forall i, j :: 0 <= i < |turns| && turns[i].Some? && 0 <= j < |turns[i].value.plays| ==>
      k1(turns[i].value.plays[j]) == k2(turns[i].value.plays[j])
  }

  lemma {:induction false} KeptAgree(plays: seq<Play>, k1: Play -> bool, k2: Play -> bool)
    requires forall j :: 0 <= j < |plays| ==> k1(plays[j]) == k2(plays[j])
    ensures Kept(plays, k1) == Kept(plays, k2)
  {
    if plays != [] {
      KeptAgree(plays[..|plays| - 1], k1, k2);
    }
  }

  /** Rules that agree on a history select the same plays from it, so they
      give the same statistics. */
  lemma {:induction false} CollectAgree(turns: seq<Option<Turn>>, k1: Play -> bool, k2: Play -> bool)
    requires RulesAgree(turns, k1, k2)
    ensures Collect(turns, k1) == Collect(turns, k2)
    ensures StatsOf(turns, k1) == StatsOf(turns, k2)
  {
    if turns != [] {
      var n := |turns| - 1;
      assert RulesAgree(turns[..n], k1, k2) by {
        forall i | 0 <= i < n ensures turns[..n][i] == turns[i] { }
      }
      CollectAgree(turns[..n], k1, k2);
      if turns[n].Some? {
        KeptAgree(turns[n].value.plays, k1, k2);
      }
    }
  }
}
