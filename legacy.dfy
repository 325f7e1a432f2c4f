/** The earlier revision of the ledger, kept in the top-level component: the
    same roster, seat and round, plus the input cells its handlers read
    (word, points, definition, the name being edited). It stores nothing,
    knows only the `—` skip marker, never removes plays, trims the word it
    records, and freezes the roster once a turn exists. */
module LegacyLedger {
  import opened Types
  import Text
  import Stats
  import Ledger

  /** In this revision a play counts unless it is the `—` marker; there is
      no removed flag to consult. */
  predicate Counts(p: Play)
    ensures p.word == EM_DASH ==> !Counts(p)
    ensures !p.isRemoved && p.word != PASSED ==> (Counts(p) <==> Ledger.Counts(p))
  {
    p.word != EM_DASH
  }

  /** `getPlayerStats` of this revision. */
  method GetPlayerStats(player: Player) returns (stats: PlayerStats)
    ensures stats == Stats.StatsOf(player.turns, Counts)
  {
    stats := Stats.Aggregate(player.turns, Counts);
  }

  /** On a history with no removed play and no `PASSED` marker, which is
      every history this revision writes unless a player types `PASSED` as a
      word, both revisions compute the same statistics. */
  lemma StatsAgreeWithHook(turns: seq<Option<Turn>>)
    requires forall i, j :: 0 <= i < |turns| && turns[i].Some? && 0 <= j < |turns[i].value.plays| ==>
      !turns[i].value.plays[j].isRemoved && turns[i].value.plays[j].word != PASSED
    ensures Stats.StatsOf(turns, Counts) == Stats.StatsOf(turns, Ledger.Counts)
  {
    Stats.CollectAgree(turns, Counts, Ledger.Counts);
  }

  /** The turn `endTurn` records for a player who entered nothing. */
  function SkipTurn(now: int): (t: Turn)
    ensures t.timestamp == now && |t.plays| == 1 && t.plays[0].points == 0
    ensures Stats.Kept(t.plays, Counts) == []
  {
    var t := Turn([NewPlay(EM_DASH, 0)], now);
    assert t.plays[..0] == [];
    t
  }

  /** A skipped turn leaves the statistics as they were. */
  lemma SkipTurnScoresNothing(turns: seq<Option<Turn>>, r: nat, now: int)
    requires TurnAt(turns, r).None?
    ensures Stats.StatsOf(SetTurn(turns, r, SkipTurn(now)), Counts) == Stats.StatsOf(turns, Counts)
  {
    Stats.FillInvisible(turns, r, SkipTurn(now), Counts);
  }

  /** `players.some(p => p.turns.length > 0)`. */
  predicate Started(ps: seq<Player>)
    ensures !Started(ps) <==> forall i :: 0 <= i < |ps| ==> ps[i].turns == []
  {
    exists i :: 0 <= i < |ps| && |ps[i].turns| > 0
  }

  /** `players.findIndex(p => p.id === id)`: the first seat with the id, or
      -1 when there is none. */
  function FindId(ps: seq<Player>, id: string): (k: int)
    ensures k == -1 <==> !Ledger.HasId(ps, id)
    ensures k != -1 ==> 0 <= k < |ps| && ps[k].id == id && forall j :: 0 <= j < k ==> ps[j].id != id
  {
    if ps == [] then -1
    else if ps[0].id == id then 0
    else
      var k := FindId(ps[1..], id);
      assert forall j :: 0 <= j < |ps| - 1 ==> ps[1..][j] == ps[j + 1];
      if k == -1 then -1 else k + 1
  }

  /** The turn `submitWord` leaves in the current round: the play appended
      to the existing turn, nothing filtered and the timestamp kept, or a new
      one-play turn stamped `now`. */
  function WithPlay(slot: Option<Turn>, p: Play, now: int): (t: Turn)
    ensures slot.Some? ==> t.plays == slot.value.plays + [p] && t.timestamp == slot.value.timestamp
    ensures slot.None? ==> t.plays == [p] && t.timestamp == now
  {
    match slot
    case Some(t) => t.(plays := t.plays + [p])
    case None => Turn([p], now)
  }

  /** The play `submitWord` records from its two inputs, if any. */
  function Submission(word: string, points: string): (r: Option<Play>)
    ensures r.Some? ==>
      r.value.word != [] && Text.IsUpper(r.value.word) && Some(r.value.points) == Text.ParseInt(points) &&
      !r.value.isEdited && !r.value.isBingo && !r.value.isRemoved
  {
    var parsed := Text.ParseInt(points);
    if Text.Trim(word) == [] || parsed.None? then None
    else Some(NewPlay(Text.Upper(Text.Trim(word)), parsed.value))
  }

  /** No play is recorded exactly when the word is blank or the points are
      not a number; a recorded play carries the trimmed, upper-cased word,
      which is never empty, and the parsed points. */
  lemma SubmissionAccepts(word: string, points: string)
    ensures Submission(word, points).None? <==> Text.AllWhite(word) || Text.ParseInt(points).None?
    ensures Submission(word, points).Some? ==>
      var p := Submission(word, points).value;
      p == NewPlay(Text.Upper(Text.Trim(word)), Text.ParseInt(points).value) && p.word != []
  {
    Text.TrimEmptyIff(word);
  }

  /** The roster after `submitWord` records `play` for seat `c` in round
      index `r`: only that player's turn of that round changes, to
      `WithPlay` of what was there; ids, names and every other turn stay. */
  function Recorded(ps: seq<Player>, c: nat, r: nat, play: Play, now: int): (res: seq<Player>)
    requires c < |ps|
    ensures |res| == |ps|
    ensures forall i :: 0 <= i < |ps| ==> res[i].id == ps[i].id && res[i].name == ps[i].name
    ensures forall i :: 0 <= i < |ps| && i != c ==> res[i] == ps[i]
    ensures res[c] == ps[c].(turns := SetTurn(ps[c].turns, r, WithPlay(TurnAt(ps[c].turns, r), play, now)))
    ensures Ledger.UniqueIds(ps) ==> Ledger.UniqueIds(res)
  {
    ps[c := ps[c].(turns := SetTurn(ps[c].turns, r, WithPlay(TurnAt(ps[c].turns, r), play, now)))]
  }

  /** A rename leaves the roster's seats, ids and turns alone, and every
      name is either the one it was or non-empty and already trimmed. */
  predicate NamesKeptOrTrimmed(before: seq<Player>, after: seq<Player>)
  {
    |after| == |before| &&
    forall i :: 0 <= i < |after| ==>
      after[i].id == before[i].id && after[i].turns == before[i].turns &&
      (after[i].name == before[i].name || (after[i].name != [] && Text.Trim(after[i].name) == after[i].name))
  }

  /** Saving a name that is not blank keeps names kept or trimmed, even
      when the roster already held names saved the same way. */
  lemma RenamedKeepsTrimmed(ps: seq<Player>, id: string, value: string)
    requires !Text.AllWhite(value)
    ensures NamesKeptOrTrimmed(ps, Ledger.Renamed(ps, id, Text.Trim(value)))
  {
    Text.TrimEmptyIff(value);
    Text.TrimTrimmed(value);
  }

  class LegacyGame {
    var players: seq<Player>
    var currentPlayerIndex: int
    var gameRound: int
    var wordInput: string
    var pointsInput: string
    var definition: Option<string>
    /** The id whose name is being edited; `Some("")` is as falsy as None. */
    var editingPlayerId: Option<string>
    var editNameValue: string

    /** The same states as the current revision: at least one player,
        distinct ids, the index on a player, rounds from 1. */
    ghost predicate Valid()
      reads this
    {
      Ledger.ValidSnapshot(Ledger.Snapshot(players, currentPlayerIndex, gameRound))
    }

    /** The `useState` defaults: two players, first seat, round 1, empty
        inputs, nothing being edited. */
    constructor ()
      ensures Valid()
      ensures players == Ledger.DefaultPlayers() && currentPlayerIndex == 0 && gameRound == 1
      ensures wordInput == [] && pointsInput == [] && definition == None
      ensures editingPlayerId == None && editNameValue == []
    {
      players := Ledger.DefaultPlayers();
      currentPlayerIndex := 0;
      gameRound := 1;
      wordInput, pointsInput, definition := [], [], None;
      editingPlayerId, editNameValue := None, [];
    }

    /** `performReset`: histories emptied, first seat, round 1, inputs and
        name editing cleared; ids and names kept. */
    method PerformReset()
      requires Valid()
      modifies this
      ensures Valid()
      ensures players == Ledger.Cleared(old(players)) && !Started(players)
      ensures currentPlayerIndex == 0 && gameRound == 1
      ensures wordInput == [] && pointsInput == [] && definition == None && editingPlayerId == None
      ensures editNameValue == old(editNameValue)
    {
      players := Ledger.Cleared(players);
      currentPlayerIndex := 0;
      gameRound := 1;
      wordInput, pointsInput, definition := [], [], None;
      editingPlayerId := None;
    }

    /** `addPlayer`: refused once the game has started; otherwise a player
        named after the new roster size is appended, with no upper bound.
        The id comes from a random source and is assumed not to be in use. */
    method AddPlayer(newId: string)
      requires Valid()
      requires !Ledger.HasId(players, newId)
      modifies this
      ensures Valid()
      ensures currentPlayerIndex == old(currentPlayerIndex) && gameRound == old(gameRound)
      ensures Started(old(players)) ==> players == old(players)
      ensures !Started(old(players)) ==>
        players == old(players) + [Player(newId, "Player " + Text.NatToString(old(|players|) + 1), [])]
      ensures wordInput == old(wordInput) && pointsInput == old(pointsInput) && definition == old(definition)
      ensures editingPlayerId == old(editingPlayerId) && editNameValue == old(editNameValue)
    {
      if Started(players) {
        return;
      }
      players := players + [Player(newId, "Player " + Text.NatToString(|players| + 1), [])];
    }

    /** `removePlayer(id)`: refused once the game has started or while one
        player is left; otherwise the player is filtered out and the turn
        goes back to the first seat. */
    method RemovePlayer(id: string)
      requires Valid()
      modifies this
      ensures Valid()
      ensures gameRound == old(gameRound)
      ensures Started(old(players)) || old(|players|) <= 1 ==>
        players == old(players) && currentPlayerIndex == old(currentPlayerIndex)
      ensures !Started(old(players)) && old(|players|) > 1 ==>
        players == Ledger.WithoutId(old(players), id) && currentPlayerIndex == 0
      ensures wordInput == old(wordInput) && pointsInput == old(pointsInput) && definition == old(definition)
      ensures editingPlayerId == old(editingPlayerId) && editNameValue == old(editNameValue)
    {
      if Started(players) || |players| <= 1 {
        return;
      }
      Ledger.WithoutIdValid(players, id);
      players := Ledger.WithoutId(players, id);
      currentPlayerIndex := 0;
    }

    /** `startEditingName(player)`: the player's id and name go into the
        editing cells, and the seat moves to the player when it is on the
        roster. */
    method StartEditingName(player: Player)
      requires Valid()
      modifies this
      ensures Valid()
      ensures editingPlayerId == Some(player.id) && editNameValue == player.name
      ensures Ledger.HasId(players, player.id) ==>
        0 <= currentPlayerIndex < |players| && players[currentPlayerIndex].id == player.id
      ensures !Ledger.HasId(players, player.id) ==> currentPlayerIndex == old(currentPlayerIndex)
      ensures players == old(players) && gameRound == old(gameRound)
      ensures wordInput == old(wordInput) && pointsInput == old(pointsInput) && definition == old(definition)
    {
      editingPlayerId := Some(player.id);
      editNameValue := player.name;
      var index := FindId(players, player.id);
      if index != -1 && index != currentPlayerIndex {
        currentPlayerIndex := index;
      }
    }

    /** `cancelEditingName`. */
    method CancelEditingName()
      modifies this`editingPlayerId
      ensures editingPlayerId == None
    {
      editingPlayerId := None;
    }

    /** `savePlayerName`: a blank name, or no id being edited, only ends the
        editing; otherwise the player gets the trimmed name. Either way
        editing ends and ids are untouched. */
    method SavePlayerName()
      requires Valid()
      modifies this
      ensures Valid()
      ensures editingPlayerId == None
      ensures Text.AllWhite(old(editNameValue)) || old(editingPlayerId) in {None, Some([])} ==>
        players == old(players)
      ensures !Text.AllWhite(old(editNameValue)) && old(editingPlayerId) !in {None, Some([])} ==>
        players == Ledger.Renamed(old(players), old(editingPlayerId).value, Text.Trim(old(editNameValue)))
      ensures NamesKeptOrTrimmed(old(players), players)
      ensures currentPlayerIndex == old(currentPlayerIndex) && gameRound == old(gameRound)
      ensures wordInput == old(wordInput) && pointsInput == old(pointsInput) && definition == old(definition)
      ensures editNameValue == old(editNameValue)
    {
      var value := editNameValue;
      var blank := Text.Trim(value) == [];
      Text.TrimEmptyIff(value);
      if blank || editingPlayerId == None || editingPlayerId == Some([]) {
        editingPlayerId := None;
        return;
      }
      RenamedKeepsTrimmed(players, editingPlayerId.value, value);
      players := Ledger.Renamed(players, editingPlayerId.value, Text.Trim(value));
      editingPlayerId := None;
    }

    /** `submitWord`: a blank word or unparsable points changes nothing.
        Otherwise the trimmed, upper-cased word with the parsed points is
        appended to the current player's turn of this round (created if
        missing), and the inputs are cleared; seat and round stay. */
    method SubmitWord(now: int)
      requires Valid()
      modifies this
      ensures Valid()
      ensures Submission(old(wordInput), old(pointsInput)).None? ==> unchanged(this)
      ensures Submission(old(wordInput), old(pointsInput)).Some? ==>
        Accepted(old(players), old(currentPlayerIndex), old(gameRound), Submission(old(wordInput), old(pointsInput)).value, now)
      ensures currentPlayerIndex == old(currentPlayerIndex) && gameRound == old(gameRound)
      ensures editingPlayerId == old(editingPlayerId) && editNameValue == old(editNameValue)
    {
      var submitted := Submission(wordInput, pointsInput);
      if submitted.None? {
        return;
      }
      Accept(submitted.value, now);
    }

    /** What an accepted submission leaves: `play` recorded for the seat
        and round, and the word, points and definition cells cleared. */
    ghost predicate Accepted(before: seq<Player>, c: int, round: int, play: Play, now: int)
      requires 0 <= c < |before| && round >= 1
      reads this
    {
      players == Recorded(before, c, round - 1, play, now) &&
      wordInput == [] && pointsInput == [] && definition == None
    }

    /** The `setPlayers` updater of `submitWord` and the clearing of the
        inputs that follows it. */
    method Accept(play: Play, now: int)
      requires Valid()
      modifies this
      ensures Valid()
      ensures Accepted(old(players), old(currentPlayerIndex), old(gameRound), play, now)
      ensures currentPlayerIndex == old(currentPlayerIndex) && gameRound == old(gameRound)
      ensures editingPlayerId == old(editingPlayerId) && editNameValue == old(editNameValue)
    {
      players := Recorded(players, currentPlayerIndex, gameRound - 1, play, now);
      wordInput, pointsInput, definition := [], [], None;
    }

    /** `endTurn`: a player with no turn this round gets a single `—` play
        worth 0, an existing turn is left alone; then the seat advances,
        the round grows exactly when the last seat ends, and the inputs and
        name editing are cleared. */
    method EndTurn(now: int)
      requires Valid()
      modifies this
      ensures Valid()
      ensures (currentPlayerIndex, gameRound) == Ledger.Advance(old(currentPlayerIndex), old(|players|), old(gameRound))
      ensures var c := old(currentPlayerIndex); var r := old(gameRound) - 1;
        if TurnAt(old(players[c].turns), r).None? then
          players == old(players)[c := old(players[c]).(turns := SetTurn(old(players[c].turns), r, SkipTurn(now)))]
        else players == old(players)
      ensures wordInput == [] && pointsInput == [] && definition == None && editingPlayerId == None
      ensures editNameValue == old(editNameValue)
    {
      var roundIdx := gameRound - 1;
      if TurnAt(players[currentPlayerIndex].turns, roundIdx).None? {
        var updated := players;
        var player := updated[currentPlayerIndex];
        player := player.(turns := SetTurn(player.turns, roundIdx, SkipTurn(now)));
        updated := updated[currentPlayerIndex := player];
        players := updated;
      }
      if currentPlayerIndex == |players| - 1 {
        gameRound := gameRound + 1;
      }
      currentPlayerIndex := (currentPlayerIndex + 1) % |players|;
      wordInput, pointsInput, definition := [], [], None;
      editingPlayerId := None;
    }
  }
}
