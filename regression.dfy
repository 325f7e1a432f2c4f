/** The first four cases of the in-app regression suite, stated against the
    statistics of the current revision, as lemmas over every timestamp. */
module Regression {
  import opened Types
  import Stats
  import Ledger

  function OneTurn(plays: seq<Play>, now: int): seq<Option<Turn>>
  {
    [Some(Turn(plays, now))]
  }

  lemma OneTurnCollect(plays: seq<Play>, now: int)
    ensures Stats.Collect(OneTurn(plays, now), Ledger.Counts) == Stats.Kept(plays, Ledger.Counts)
  {
    assert OneTurn(plays, now)[..0] == [];
  }

  /** A history of one counted play. */
  lemma SinglePlay(p: Play, now: int)
    requires Ledger.Counts(p)
    ensures var s := Stats.StatsOf(OneTurn([p], now), Ledger.Counts);
      s.totalScore == p.points && s.wordCount == 1 && s.highestWord == Some(p)
  {
    var c := Stats.Collect(OneTurn([p], now), Ledger.Counts);
    assert c == [p] by {
      OneTurnCollect([p], now);
      assert [p][..0] == [];
    }
    assert Stats.Sum(c) == p.points by {
      assert [p][..0] == [];
    }
  }

  /** Basic scoring: one play of 10 gives a total of 10. */
  lemma BasicScore(now: int)
    ensures Stats.StatsOf(OneTurn([NewPlay("HELLO", 10)], now), Ledger.Counts).totalScore == 10
  {
    var p := NewPlay("HELLO", 10);
    assert |p.word| == 5;
    SinglePlay(p, now);
  }

  /** Bingo: the stored points already include the bonus, so a bingo play
      of 65 totals 65. */
  lemma BingoScore(now: int)
    ensures Stats.StatsOf(OneTurn([NewPlay("BINGOS", 65).(isBingo := true)], now), Ledger.Counts).totalScore == 65
  {
    var p := NewPlay("BINGOS", 65).(isBingo := true);
    assert p.word != PASSED by {
      assert p.word[0] == 'B';
    }
    SinglePlay(p, now);
  }

  /** Removed words: a removed play of 50 beside a kept play of 20 leaves a
      total of 20 from one word, and the kept play is the highest. */
  lemma RemovedExcluded(now: int)
    ensures var keep := NewPlay("KEEP", 20);
      var s := Stats.StatsOf(OneTurn([keep, NewPlay("DELETE", 50).(isRemoved := true)], now), Ledger.Counts);
      s.totalScore == 20 && s.wordCount == 1 && s.highestWord == Some(keep)
  {
    var keep := NewPlay("KEEP", 20);
    var plays := [keep, NewPlay("DELETE", 50).(isRemoved := true)];
    assert |keep.word| == 4;
    assert plays[..1] == [keep] && [keep][..0] == [];
    assert Stats.Kept(plays, Ledger.Counts) == [keep];
    OneTurnCollect(plays, now);
    OneTurnCollect([keep], now);
    SinglePlay(keep, now);
  }

  /** Two counted plays in one turn are both collected, in order. */
  lemma TwoCollected(a: Play, b: Play, now: int)
    requires Ledger.Counts(a) && Ledger.Counts(b)
    ensures Stats.Collect(OneTurn([a, b], now), Ledger.Counts) == [a, b]
  {
    assert [a, b][..1] == [a] && [a][..0] == [];
    OneTurnCollect([a, b], now);
  }

  /** A history of two counted plays totals both, counts two words, and has
      the later play as highest word only when it scores strictly more. */
  lemma TwoPlays(a: Play, b: Play, now: int)
    requires Ledger.Counts(a) && Ledger.Counts(b)
    ensures var s := Stats.StatsOf(OneTurn([a, b], now), Ledger.Counts);
      s.totalScore == a.points + b.points && s.wordCount == 2 &&
      s.highestWord == Some(if b.points > a.points then b else a)
  {
    TwoCollected(a, b, now);
    assert [a, b][..1] == [a] && [a][..0] == [];
    assert Stats.Sum([a]) == a.points;
    assert Stats.Sum([a, b]) == a.points + b.points;
    assert Stats.FirstMax([a]) == 0;
    assert Stats.FirstMax([a, b]) == if b.points > a.points then 1 else 0;
  }

  /** Average: plays of 10 and 20 average exactly 15, and the 20 is the
      highest word. */
  lemma AverageOfTwo(now: int)
    ensures var s := Stats.StatsOf(OneTurn([NewPlay("A", 10), NewPlay("B", 20)], now), Ledger.Counts);
      s.averagePoints == 15.0 && s.highestWord == Some(NewPlay("B", 20))
  {
    var a, b := NewPlay("A", 10), NewPlay("B", 20);
    assert |a.word| == 1 && |b.word| == 1;
    TwoPlays(a, b, now);
    assert 30 as real / 2 as real == 15.0;
  }
}
