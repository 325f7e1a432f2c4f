/** The dialogs that decide which updates reach the ledger: the add-word
    dialog (input validation, turn subtotal, the list of plays shown, the
    verdict prefix of a definition) and the play-options dialog (edit, bingo
    toggle, remove), whose updates `modifyPlay` merges. */
module Modals {
  import opened Types
  import Text
  import Stats
  import Ledger

  const BINGO_BONUS: int := 50

  /** `handleBingoToggle`: the flag is flipped and the bonus is baked into
      the points, added when enabling and taken off when disabling. */
  function BingoUpdate(p: Play): (u: PlayUpdate)
    ensures u.isBingo == Some(!p.isBingo)
    ensures u.points.Some? && u.points.value - p.points == (if p.isBingo then -BINGO_BONUS else BINGO_BONUS)
    ensures u.word.None? && u.isEdited.None? && u.isRemoved.None?
  {
    var isEnabling := !p.isBingo;
    PlayUpdate(None, Some(if isEnabling then p.points + BINGO_BONUS else p.points - BINGO_BONUS),
               None, Some(isEnabling), None)
  }

  /** One toggle moves the points by exactly the bonus, in the direction of
      the new flag, and touches nothing else. */
  lemma BingoToggleOnce(p: Play)
    ensures var q := Merge(p, BingoUpdate(p));
      q.isBingo == !p.isBingo &&
      q.points == (if q.isBingo then p.points + BINGO_BONUS else p.points - BINGO_BONUS) &&
      q.word == p.word && q.isEdited == p.isEdited && q.isRemoved == p.isRemoved
  {
  }

  /** Toggling twice gives back the original play exactly. */
  lemma BingoToggleTwice(p: Play)
    ensures var q := Merge(p, BingoUpdate(p)); Merge(q, BingoUpdate(q)) == p
  {
  }

  /** The bingo toggle issued twice through `modifyPlay`, each time built
      from the play as it then stands, restores every player exactly. */
  lemma BingoTwiceThroughModifyPlay(ps: seq<Player>, i: nat, r: int, k: int)
    requires Ledger.UniqueIds(ps)
    requires i < |ps| && TurnAt(ps[i].turns, r).Some?
    requires Ledger.PlayAddressable(ps, ps[i].id, r, k)
    ensures var id := ps[i].id;
      var ps1 := Ledger.ModifiedPlayers(ps, id, r, k, BingoUpdate(TurnAt(ps[i].turns, r).value.plays[k]));
      Ledger.PlayAddressable(ps1, id, r, k) &&
      Ledger.ModifiedPlayers(ps1, id, r, k, BingoUpdate(TurnAt(ps1[i].turns, r).value.plays[k])) == ps
  {
    var id := ps[i].id;
    var t := TurnAt(ps[i].turns, r).value;
    var p := t.plays[k];
    var ps1 := Ledger.ModifiedPlayers(ps, id, r, k, BingoUpdate(p));
    var t1 := TurnAt(ps1[i].turns, r).value;
    var p1 := t1.plays[k];
    assert p1 == Merge(p, BingoUpdate(p));
    BingoToggleTwice(p);
    assert Ledger.PlayAddressable(ps1, id, r, k) by {
      forall j | 0 <= j < |ps1| && ps1[j].id == id && TurnAt(ps1[j].turns, r).Some?
        ensures 0 <= k < |TurnAt(ps1[j].turns, r).value.plays|
      {
        assert j == i;
      }
    }
    var ps2 := Ledger.ModifiedPlayers(ps1, id, r, k, BingoUpdate(p1));
    forall j | 0 <= j < |ps| ensures ps2[j] == ps[j] {
      if j == i {
        assert t1.plays[k := Merge(p1, BingoUpdate(p1))] == t.plays;
        assert ps1[i].turns[r := Some(t1.(plays := t.plays))] == ps[i].turns;
      } else {
        assert ps[j].id != id;
      }
    }
  }

  /** `handleSaveEdit`: refused (no update) when the word is blank or the
      points do not parse; otherwise the upper-cased (not trimmed) word,
      the parsed points, and the edited mark. */
  function EditUpdate(editWord: string, editPoints: string): (u: Option<PlayUpdate>)
    ensures u.None? <==> Text.AllWhite(editWord) || Text.ParseInt(editPoints).None?
    ensures u.Some? ==>
      u.value.word == Some(Text.Upper(editWord)) && u.value.points == Text.ParseInt(editPoints) &&
      u.value.isEdited == Some(true) && u.value.isBingo.None? && u.value.isRemoved.None?
  {
    Text.TrimEmptyIff(editWord);
    var pts := Text.ParseInt(editPoints);
    if Text.Trim(editWord) == [] || pts.None? then None
    else Some(PlayUpdate(Some(Text.Upper(editWord)), Some(pts.value), Some(true), None, None))
  }

  /** An edit is refused exactly when the word is all white space or the
      points are not a number; an accepted edit overwrites word and points,
      marks the play edited, and keeps its bingo and removed flags. */
  lemma EditUpdateEffect(p: Play, editWord: string, editPoints: string)
    ensures EditUpdate(editWord, editPoints).None? <==>
      Text.AllWhite(editWord) || Text.ParseInt(editPoints).None?
    ensures EditUpdate(editWord, editPoints).Some? ==>
      var q := Merge(p, EditUpdate(editWord, editPoints).value);
      q.word == Text.Upper(editWord) && Some(q.points) == Text.ParseInt(editPoints) &&
      q.isEdited && q.isBingo == p.isBingo && q.isRemoved == p.isRemoved
  {
    Text.TrimEmptyIff(editWord);
  }

  /** The "Remove from Turn" action: `{ isRemoved: true }` and nothing else. */
  function RemoveUpdate(): (u: PlayUpdate)
    ensures u.isRemoved == Some(true)
    ensures u.word.None? && u.points.None? && u.isEdited.None? && u.isBingo.None?
  {
    PlayUpdate(None, None, None, None, Some(true))
  }

  /** Removal keeps the word and the points and takes the play out of the
      statistics. */
  lemma RemoveUpdateEffect(p: Play)
    ensures Merge(p, RemoveUpdate()) == p.(isRemoved := true)
    ensures !Ledger.Counts(Merge(p, RemoveUpdate()))
  {
  }

  /** `definition?.trim().toUpperCase().startsWith('VALID')`. */
  predicate IsLegal(definition: Option<string>)
    ensures IsLegal(definition) ==> definition.Some? && |Text.Trim(definition.value)| >= 5
  {
    definition.Some? && Text.StartsWith(Text.Upper(Text.Trim(definition.value)), "VALID")
  }

  /** `definition?.trim().toUpperCase().startsWith('INVALID')`. */
  predicate IsIllegal(definition: Option<string>)
    ensures IsIllegal(definition) ==> definition.Some? && |Text.Trim(definition.value)| >= 7
  {
    definition.Some? && Text.StartsWith(Text.Upper(Text.Trim(definition.value)), "INVALID")
  }

  /** A verdict is never both legal and illegal, and no definition gives
      neither. */
  lemma VerdictsExclusive(definition: Option<string>)
    ensures !(IsLegal(definition) && IsIllegal(definition))
    ensures definition.None? ==> !IsLegal(definition) && !IsIllegal(definition)
  {
  }

  predicate NotRemoved(p: Play)
  {
    !p.isRemoved
  }

  /** `currentPlays.reduce((sum, p) => p.isRemoved ? sum : sum + p.points, 0)`:
      the sum of the plays not removed. */
  function RoundTotal(plays: seq<Play>): (total: int)
    ensures total == Stats.Sum(Stats.Kept(plays, NotRemoved))
  {
    if plays == [] then 0
    else
      var n := |plays| - 1;
      var last := plays[n];
      var kept := Stats.Kept(plays[..n], NotRemoved);
      if last.isRemoved then
        assert kept + [] == kept;
        RoundTotal(plays[..n])
      else
        Stats.SumSnoc(kept, last);
        RoundTotal(plays[..n]) + last.points
  }

  /** The turn subtotal agrees with the statistics: skip markers are worth
      0, so counting them or not makes no difference. */
  lemma RoundTotalIsCountedSum(plays: seq<Play>)
    requires forall j :: 0 <= j < |plays| && IsSkipWord(plays[j].word) ==> plays[j].points == 0
    ensures RoundTotal(plays) == Stats.Sum(Stats.Kept(plays, Ledger.Counts))
  {
    KeptSumsAgree(plays);
  }

  /** Dropping zero-point plays from a selection leaves its sum unchanged. */
  lemma {:induction false} KeptSumsAgree(plays: seq<Play>)
    requires forall j :: 0 <= j < |plays| && IsSkipWord(plays[j].word) ==> plays[j].points == 0
    ensures Stats.Sum(Stats.Kept(plays, NotRemoved)) == Stats.Sum(Stats.Kept(plays, Ledger.Counts))
  {
    if plays != [] {
      var n := |plays| - 1;
      var last := plays[n];
      assert forall j :: 0 <= j < n ==> plays[..n][j] == plays[j];
      KeptSumsAgree(plays[..n]);
      var a := Stats.Kept(plays[..n], NotRemoved);
      var b := Stats.Kept(plays[..n], Ledger.Counts);
      if NotRemoved(last) {
        Stats.SumSnoc(a, last);
      } else {
        assert a + [] == a;
      }
      if Ledger.Counts(last) {
        Stats.SumSnoc(b, last);
      } else {
        assert b + [] == b;
      }
    }
  }

  /** `currentPlays.filter(p => p.word !== 'PASSED' && p.word !== '—')`. */
  function DisplayPlays(plays: seq<Play>): (r: seq<Play>)
    ensures |r| <= |plays|
    ensures forall p :: p in r <==> p in plays && !IsSkipWord(p.word)
  {
    Stats.KeptHas(plays, Ledger.NotSkip);
    Stats.Kept(plays, Ledger.NotSkip)
  }

  /** In a turn without skip markers, which is what `addWordToTurn` leaves,
      the displayed list is the turn itself, so a display index addresses
      the same play in the turn. */
  lemma {:induction false} DisplayIndexIsTurnIndex(plays: seq<Play>)
    requires forall j :: 0 <= j < |plays| ==> !IsSkipWord(plays[j].word)
    ensures DisplayPlays(plays) == plays
  {
    if plays != [] {
      DisplayIndexIsTurnIndex(plays[..|plays| - 1]);
      assert plays[..|plays| - 1] + [plays[|plays| - 1]] == plays;
    }
  }

  /** The input state of the add-word dialog. */
  class AddWordForm {
    var wordInput: string
    var pointsInput: string
    var definition: Option<string>

    constructor ()
      ensures wordInput == [] && pointsInput == [] && definition == None
    {
      wordInput, pointsInput, definition := [], [], None;
    }

    /** `handleSubmit`: a blank word or unparsable points changes nothing
        and calls nothing; otherwise `onAddWord` receives the upper-cased
        word and the parsed points, and the inputs are cleared. The result
        is the call made to `onAddWord`, if any. */
    method HandleSubmit() returns (added: Option<(string, int)>)
      modifies this
      ensures Text.AllWhite(old(wordInput)) || Text.ParseInt(old(pointsInput)).None? ==>
        added == None && wordInput == old(wordInput) && pointsInput == old(pointsInput) &&
        definition == old(definition)
      ensures !Text.AllWhite(old(wordInput)) && Text.ParseInt(old(pointsInput)).Some? ==>
        added == Some((Text.Upper(old(wordInput)), Text.ParseInt(old(pointsInput)).value)) &&
        wordInput == [] && pointsInput == [] && definition == None
    {
      var word, points := wordInput, pointsInput;
      var blank := Text.Trim(word) == [];
      Text.TrimEmptyIff(word);
      var pts := Text.ParseInt(points);
      if blank || pts.None? {
        return None;
      }
      added := Some((Text.Upper(word), pts.value));
      wordInput := [];
      pointsInput := [];
      definition := None;
    }

    /** `handleEditFromSummary(play, originalIndex)`: the play's word and
        points go back into the inputs, and `onRemoveWord` receives the
        display index (the result). Submitting again re-creates the same
        word and points. */
    method HandleEditFromSummary(play: Play, originalIndex: int) returns (removeIndex: int)
      modifies this
      ensures wordInput == play.word && definition == None && removeIndex == originalIndex
      ensures pointsInput == Text.IntToString(play.points)
      ensures Text.ParseInt(pointsInput) == Some(play.points)
    {
      wordInput := play.word;
      pointsInput := Text.IntToString(play.points);
      definition := None;
      Text.ParseIntOfToString(play.points);
      removeIndex := originalIndex;
    }
  }
}
