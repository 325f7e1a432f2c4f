/** The current revision of the game ledger (the `useScrabbleGame` hook): the
    roster, whose turn it is, the round, and the operations that record plays
    and advance turns. Every operation that changes the state writes the new
    state to storage; the ghost field `saved` is what storage holds. */
module Ledger {
  import opened Types
  import Stats
  import Text

  /** A play counts toward the statistics unless it is a skip marker (either
      spelling) or has been soft-removed. */
  predicate Counts(p: Play)
    ensures IsSkipWord(p.word) ==> !Counts(p)
    ensures p.isRemoved ==> !Counts(p)
    ensures !IsSkipWord(p.word) && !p.isRemoved ==> Counts(p)
  {
    !IsSkipWord(p.word) && !p.isRemoved
  }

  predicate NotSkip(p: Play)
  {
    !IsSkipWord(p.word)
  }

  /** `getPlayerStats` of the hook. */
  method GetPlayerStats(player: Player) returns (stats: PlayerStats)
    ensures stats == Stats.StatsOf(player.turns, Counts)
  {
    stats := Stats.Aggregate(player.turns, Counts);
  }

  /** The stored blob `{ players, currentPlayerIndex, gameRound }`. */
  datatype Snapshot = Snapshot(players: seq<Player>, currentPlayerIndex: int, gameRound: int)

  predicate UniqueIds(ps: seq<Player>)
  {
    forall i, j :: 0 <= i < j < |ps| ==> ps[i].id != ps[j].id
  }

  predicate HasId(ps: seq<Player>, id: string)
  {
    exists i :: 0 <= i < |ps| && ps[i].id == id
  }

  /** The states the ledger can be in: at least one player, distinct ids,
      the index on a player, rounds counted from 1. */
  predicate ValidSnapshot(s: Snapshot)
  {
    |s.players| >= 1 && 0 <= s.currentPlayerIndex < |s.players| && s.gameRound >= 1 &&
    UniqueIds(s.players)
  }

  function DefaultPlayers(): seq<Player>
  {
    [Player("1", "Player 1", []), Player("2", "Player 2", [])]
  }

  /** The state the hook starts from: what storage holds, or two fresh
      players at index 0 in round 1. */
  function Initial(stored: Option<Snapshot>): (s: Snapshot)
    requires stored.Some? ==> ValidSnapshot(stored.value)
    ensures ValidSnapshot(s)
    ensures stored.Some? ==> s == stored.value
    ensures stored.None? ==>
      |s.players| == 2 && s.currentPlayerIndex == 0 && s.gameRound == 1 &&
      (forall i :: 0 <= i < 2 ==> s.players[i].turns == [])
  {
    match stored
    case Some(s) => s
    case None => Snapshot(DefaultPlayers(), 0, 1)
  }

  /** `players.filter(p => p.id !== id)`. */
  function WithoutId(ps: seq<Player>, id: string): (r: seq<Player>)
    ensures |r| <= |ps|
    ensures forall p :: p in r <==> p in ps && p.id != id
  {
    if ps == [] then []
    else (if ps[0].id == id then [] else [ps[0]]) + WithoutId(ps[1..], id)
  }

  lemma {:induction false} WithoutIdAbsent(ps: seq<Player>, id: string)
    requires !HasId(ps, id)
    ensures WithoutId(ps, id) == ps
  {
    if ps != [] {
      assert ps[0].id != id;
      assert !HasId(ps[1..], id) by {
        forall i | 0 <= i < |ps| - 1 ensures ps[1..][i].id != id {
          assert ps[1..][i] == ps[i + 1];
        }
      }
      WithoutIdAbsent(ps[1..], id);
      assert ps == [ps[0]] + ps[1..];
    }
  }

  /** With distinct ids the filter deletes exactly the one player carrying
      the id and keeps the others in order. */
  lemma {:induction false} WithoutIdAt(ps: seq<Player>, id: string, k: nat)
    requires UniqueIds(ps) && k < |ps| && ps[k].id == id
    ensures WithoutId(ps, id) == ps[..k] + ps[k + 1..]
  {
    var tail := ps[1..];
    assert UniqueIds(tail) by {
      forall i, j | 0 <= i < j < |tail| ensures tail[i].id != tail[j].id {
        assert tail[i] == ps[i + 1] && tail[j] == ps[j + 1];
      }
    }
    if k == 0 {
      assert !HasId(tail, id) by {
        forall i | 0 <= i < |tail| ensures tail[i].id != id {
          assert tail[i] == ps[i + 1];
        }
      }
      WithoutIdAbsent(tail, id);
    } else {
      assert ps[0].id != id;
      assert tail[k - 1] == ps[k];
      WithoutIdAt(tail, id, k - 1);
      assert ps[..k] == [ps[0]] + tail[..k - 1];
      assert ps[k + 1..] == tail[k..];
    }
  }

  lemma DeleteKeepsUnique(ps: seq<Player>, k: nat)
    requires UniqueIds(ps) && k < |ps|
    ensures UniqueIds(ps[..k] + ps[k + 1..])
  {
    var r := ps[..k] + ps[k + 1..];
    assert forall i :: 0 <= i < |r| ==> r[i] == ps[if i < k then i else i + 1];
  }

  /** Removing a player leaves at most one fewer, keeps at least one when
      there were two, and keeps the ids distinct. */
  lemma WithoutIdValid(ps: seq<Player>, id: string)
    requires UniqueIds(ps)
    ensures UniqueIds(WithoutId(ps, id))
    ensures HasId(ps, id) ==> |WithoutId(ps, id)| == |ps| - 1
    ensures !HasId(ps, id) ==> WithoutId(ps, id) == ps
  {
    if HasId(ps, id) {
      var k :| 0 <= k < |ps| && ps[k].id == id;
      WithoutIdAt(ps, id, k);
      DeleteKeepsUnique(ps, k);
    } else {
      WithoutIdAbsent(ps, id);
    }
  }

  /** `players.map(p => p.id === id ? { ...p, name } : p)`. */
  function Renamed(ps: seq<Player>, id: string, name: string): (r: seq<Player>)
    ensures |r| == |ps|
    ensures forall i :: 0 <= i < |ps| ==>
      r[i].id == ps[i].id && r[i].turns == ps[i].turns &&
      r[i].name == (if ps[i].id == id then name else ps[i].name)
  {
    seq(|ps|, i requires 0 <= i < |ps| => if ps[i].id == id then ps[i].(name := name) else ps[i])
  }

  /** `players.map(p => ({ ...p, turns: [] }))`. */
  function Cleared(ps: seq<Player>): (r: seq<Player>)
    ensures |r| == |ps|
    ensures forall i :: 0 <= i < |ps| ==> r[i].id == ps[i].id && r[i].name == ps[i].name && r[i].turns == []
  {
    seq(|ps|, i requires 0 <= i < |ps| => ps[i].(turns := []))
  }

  /** The play `modifyPlay` writes must exist in every turn it addresses: an
      index past the end would append a new element instead. */
  predicate PlayAddressable(ps: seq<Player>, id: string, r: int, k: int)
  {
    forall i :: 0 <= i < |ps| && ps[i].id == id && TurnAt(ps[i].turns, r).Some? ==>
      0 <= k < |TurnAt(ps[i].turns, r).value.plays|
  }

  /** One step of `modifyPlay`'s map: merge `u` into play `k` of round `r`
      when the player matches and that turn exists; otherwise keep `p`. */
  function ModifiedPlayer(p: Player, id: string, r: int, k: int, u: PlayUpdate): Player
    requires p.id == id && TurnAt(p.turns, r).Some? ==> 0 <= k < |TurnAt(p.turns, r).value.plays|
  {
    if p.id != id then p
    else match TurnAt(p.turns, r)
      case None => p
      case Some(t) =>
        var plays := t.plays[k := Merge(t.plays[k], u)];
        p.(turns := p.turns[r := Some(t.(plays := plays))])
  }

  /** The players after `modifyPlay`: only play `k` of round `r` of the
      matching player changes, and only in the fields `u` carries; the
      turn keeps its timestamp; an unknown id or a missing turn changes
      nothing. */
  function ModifiedPlayers(ps: seq<Player>, id: string, r: int, k: int, u: PlayUpdate): (res: seq<Player>)
    requires PlayAddressable(ps, id, r, k)
    ensures |res| == |ps|
    ensures forall i :: 0 <= i < |ps| && (ps[i].id != id || TurnAt(ps[i].turns, r).None?) ==> res[i] == ps[i]
    ensures forall i :: 0 <= i < |ps| ==>
      res[i].id == ps[i].id && res[i].name == ps[i].name && |res[i].turns| == |ps[i].turns|
    ensures forall i, q :: 0 <= i < |ps| && q != r ==> TurnAt(res[i].turns, q) == TurnAt(ps[i].turns, q)
    ensures forall i :: 0 <= i < |ps| && ps[i].id == id && TurnAt(ps[i].turns, r).Some? ==>
      var t := TurnAt(ps[i].turns, r).value;
      TurnAt(res[i].turns, r).Some? &&
      var t' := TurnAt(res[i].turns, r).value;
      t'.timestamp == t.timestamp && |t'.plays| == |t.plays| &&
      t'.plays[k] == Merge(t.plays[k], u) &&
      forall j :: 0 <= j < |t.plays| && j != k ==> t'.plays[j] == t.plays[j]
  {
    seq(|ps|, i requires 0 <= i < |ps| => ModifiedPlayer(ps[i], id, r, k, u))
  }

  /** `splice(start, 1)` on a copy: a negative start counts from the end
      (clamped at 0), a start past the end deletes nothing. */
  function SpliceIndex(len: nat, start: int): (k: nat)
    ensures k <= len
    ensures 0 <= start <= len ==> k == start
    ensures start > len ==> k == len
    ensures start < 0 && -start <= len ==> k == len + start
    ensures start < 0 && -start > len ==> k == 0
  {
    if start < 0 then (if len + start < 0 then 0 else len + start)
    else if start > len then len
    else start
  }

  /** The plays after `splice(start, 1)`: the play at the resolved index is
      gone and the rest keep their order. */
  function Splice1(s: seq<Play>, start: int): (r: seq<Play>)
    ensures var k := SpliceIndex(|s|, start);
      if k < |s| then
        |r| == |s| - 1 &&
        (forall i :: 0 <= i < k ==> r[i] == s[i]) &&
        (forall i :: k <= i < |r| ==> r[i] == s[i + 1])
      else r == s
  {
    var k := SpliceIndex(|s|, start);
    if k < |s| then s[..k] + s[k + 1..] else s
  }

  /** An in-range index deletes exactly that play. */
  lemma Splice1InRange(s: seq<Play>, i: int)
    requires 0 <= i < |s|
    ensures Splice1(s, i) == s[..i] + s[i + 1..]
  {
  }

  /** The index and round after a turn ends: the next seat, and a new round
      exactly when the seat wraps back to the first player. */
  function Advance(i: int, n: int, round: int): (next: (int, int))
    requires 0 <= i < n
    ensures 0 <= next.0 < n
    ensures next.0 == 0 <==> i == n - 1
    ensures i < n - 1 ==> next.0 == i + 1
    ensures next.1 == (if i == n - 1 then round + 1 else round)
  {
    var nextPlayerIndex := (i + 1) % n;
    (nextPlayerIndex, if nextPlayerIndex == 0 then round + 1 else round)
  }

  /** `k` turn ends in a row. */
  function AdvanceN(i: int, n: int, round: int, k: nat): (int, int)
    requires 0 <= i < n
    decreases k
  {
    if k == 0 then (i, round)
    else
      var next := Advance(i, n, round);
      AdvanceN(next.0, n, next.1, k - 1)
  }

  /** A round is one full cycle: from any seat, the turns left until the
      last player has ended bring the index back to 0 and the round up by
      exactly one. */
  lemma {:induction false} FullCycle(i: int, n: int, round: int)
    requires 0 <= i < n
    ensures AdvanceN(i, n, round, n - i) == (0, round + 1)
    decreases n - i
  {
    if i < n - 1 {
      FullCycle(i + 1, n, round);
    }
  }

  /** The turn `endTurn` records for a pass. */
  function PassTurn(now: int): (t: Turn)
    ensures t.timestamp == now && |t.plays| == 1 && t.plays[0].points == 0
    ensures Stats.Kept(t.plays, Counts) == []
  {
    var t := Turn([NewPlay(PASSED, 0)], now);
    assert t.plays[..0] == [];
    t
  }

  /** A pass recorded where there was no turn leaves the statistics as they
      were: the marker play is worth nothing and is not counted. */
  lemma PassTurnScoresNothing(turns: seq<Option<Turn>>, r: nat, now: int)
    requires TurnAt(turns, r).None?
    ensures Stats.StatsOf(SetTurn(turns, r, PassTurn(now)), Counts) == Stats.StatsOf(turns, Counts)
  {
    Stats.FillInvisible(turns, r, PassTurn(now), Counts);
  }

  /** The turn `addWordToTurn` leaves in the current round: the existing
      turn with its skip markers dropped and the play appended, keeping its
      timestamp, or a new one-play turn stamped `now`. */
  function WithWord(slot: Option<Turn>, p: Play, now: int): (t: Turn)
    ensures slot.Some? ==>
      t.plays == Stats.Kept(slot.value.plays, NotSkip) + [p] && t.timestamp == slot.value.timestamp
    ensures slot.None? ==> t.plays == [p] && t.timestamp == now
    ensures !IsSkipWord(p.word) ==> forall j :: 0 <= j < |t.plays| ==> !IsSkipWord(t.plays[j].word)
  {
    match slot
    case Some(t) =>
      var kept := Stats.Kept(t.plays, NotSkip);
      Stats.KeptHas(t.plays, NotSkip);
      assert forall j :: 0 <= j < |kept| ==> kept[j] in kept;
      t.(plays := kept + [p])
    case None => Turn([p], now)
  }

  class Game {
    var players: seq<Player>
    var currentPlayerIndex: int
    var gameRound: int
    /** The blob in storage, None until the first write. */
    ghost var saved: Option<Snapshot>

    ghost function State(): Snapshot
      reads this
    {
      Snapshot(players, currentPlayerIndex, gameRound)
    }

    /** The state is one the ledger can be in, and once storage has been
        written it mirrors the state: every change is persisted. */
    ghost predicate Valid()
      reads this
    {
      ValidSnapshot(State()) && (saved.Some? ==> saved.value == State())
    }

    /** `getInitialState` and the `useState` defaults. */
    constructor (stored: Option<Snapshot>)
      requires stored.Some? ==> ValidSnapshot(stored.value)
      ensures Valid()
      ensures State() == Initial(stored) && saved == stored
    {
      var s := Initial(stored);
      players := s.players;
      currentPlayerIndex := s.currentPlayerIndex;
      gameRound := s.gameRound;
      saved := stored;
    }

    /** `persist(p, c, r)`: storage receives exactly the given triple. */
    ghost method Persist(p: seq<Player>, c: int, r: int)
      modifies this`saved
      ensures saved == Some(Snapshot(p, c, r))
    {
      saved := Some(Snapshot(p, c, r));
    }

    /** `addPlayer(max)`. The id comes from a random source and is assumed
        not to be in use. */
    method AddPlayer(max: int, newId: string)
      requires Valid()
      requires !HasId(players, newId)
      modifies this
      ensures Valid()
      ensures currentPlayerIndex == old(currentPlayerIndex) && gameRound == old(gameRound)
      ensures old(|players|) >= max ==> players == old(players) && saved == old(saved)
      ensures old(|players|) < max ==>
        players == old(players) + [Player(newId, "Player " + Text.NatToString(old(|players|) + 1), [])] &&
        saved == Some(State())
    {
      if |players| >= max {
        return;
      }
      var newPlayers := players + [Player(newId, "Player " + Text.NatToString(|players| + 1), [])];
      players := newPlayers;
      Persist(newPlayers, currentPlayerIndex, gameRound);
    }

    /** `removePlayer(id)`: refused while one player is left; otherwise the
        player is filtered out and the turn goes back to the first seat. */
    method RemovePlayer(id: string)
      requires Valid()
      modifies this
      ensures Valid()
      ensures gameRound == old(gameRound)
      ensures old(|players|) <= 1 ==> players == old(players) && currentPlayerIndex == old(currentPlayerIndex) && saved == old(saved)
      ensures old(|players|) > 1 ==>
        players == WithoutId(old(players), id) && currentPlayerIndex == 0 && saved == Some(State())
      ensures old(|players|) > 1 && HasId(old(players), id) ==> |players| == old(|players|) - 1
    {
      if |players| <= 1 {
        return;
      }
      WithoutIdValid(players, id);
      var newPlayers := WithoutId(players, id);
      players := newPlayers;
      currentPlayerIndex := 0;
      Persist(newPlayers, 0, gameRound);
    }

    /** `updatePlayerName(id, name)`: no check on the name in this revision. */
    method UpdatePlayerName(id: string, name: string)
      requires Valid()
      modifies this
      ensures Valid()
      ensures players == Renamed(old(players), id, name)
      ensures currentPlayerIndex == old(currentPlayerIndex) && gameRound == old(gameRound)
      ensures saved == Some(State())
    {
      var newPlayers := Renamed(players, id, name);
      players := newPlayers;
      Persist(newPlayers, currentPlayerIndex, gameRound);
    }

    /** `resetGame()`: every history emptied, first seat, round 1; ids and
        names kept. */
    method ResetGame()
      requires Valid()
      modifies this
      ensures Valid()
      ensures players == Cleared(old(players))
      ensures currentPlayerIndex == 0 && gameRound == 1
      ensures saved == Some(State())
    {
      var cleared := Cleared(players);
      players := cleared;
      currentPlayerIndex := 0;
      gameRound := 1;
      Persist(cleared, 0, 1);
    }

    /** `addWordToTurn(word, points)`. An existing turn of this round loses
        its skip markers and gets the play appended, keeping its timestamp;
        otherwise a one-play turn stamped `now` is created. Nothing else
        changes. */
    method AddWordToTurn(word: string, points: int, now: int)
      requires Valid()
      modifies this
      ensures Valid()
      ensures currentPlayerIndex == old(currentPlayerIndex) && gameRound == old(gameRound)
      ensures |players| == old(|players|)
      ensures forall j :: 0 <= j < |players| && j != currentPlayerIndex ==> players[j] == old(players[j])
      ensures var c := currentPlayerIndex; var r := gameRound - 1;
        players[c] == old(players[c]).(turns := SetTurn(old(players[c].turns), r,
          WithWord(TurnAt(old(players[c].turns), r), NewPlay(word, points), now)))
      ensures saved == Some(State())
    {
      var roundIdx := gameRound - 1;
      var newPlay := NewPlay(word, points);
      var updated := players;
      var player := updated[currentPlayerIndex];
      var newTurns := player.turns;
      newTurns := SetTurn(newTurns, roundIdx, WithWord(TurnAt(newTurns, roundIdx), newPlay, now));
      player := player.(turns := newTurns);
      updated := updated[currentPlayerIndex := player];
      players := updated;
      Persist(updated, currentPlayerIndex, gameRound);
    }

    /** `removeWordFromTurn(playIndex)`: with a turn in this round, the play
        at the (splice-resolved) index is deleted; without one, nothing
        changes and nothing is written. */
    method RemoveWordFromTurn(playIndex: int)
      requires Valid()
      modifies this
      ensures Valid()
      ensures currentPlayerIndex == old(currentPlayerIndex) && gameRound == old(gameRound)
      ensures var c := currentPlayerIndex; var r := gameRound - 1;
        match TurnAt(old(players[c].turns), r)
        case None => players == old(players) && saved == old(saved)
        case Some(t) =>
          players == old(players)[c := old(players[c]).(turns := old(players[c].turns)[r := Some(t.(plays := Splice1(t.plays, playIndex)))])] &&
          saved == Some(State())
    {
      var roundIdx := gameRound - 1;
      var updated := players;
      var player := updated[currentPlayerIndex];
      var newTurns := player.turns;
      if TurnAt(newTurns, roundIdx).Some? {
        var t := TurnAt(newTurns, roundIdx).value;
        var newPlays := Splice1(t.plays, playIndex);
        newTurns := newTurns[roundIdx := Some(t.(plays := newPlays))];
        player := player.(turns := newTurns);
        updated := updated[currentPlayerIndex := player];
        players := updated;
        Persist(updated, currentPlayerIndex, gameRound);
      }
    }

    /** `endTurn(isPass)`: a pass, or a turn ended with nothing recorded,
        stores a single `PASSED` play worth 0 (a pass overwrites what was
        there); then the seat advances and the round grows exactly when the
        seat wraps to 0. */
    method EndTurn(isPass: bool, now: int)
      requires Valid()
      modifies this
      ensures Valid()
      ensures (currentPlayerIndex, gameRound) == Advance(old(currentPlayerIndex), old(|players|), old(gameRound))
      ensures |players| == old(|players|)
      ensures var c := old(currentPlayerIndex); var r := old(gameRound) - 1;
        if isPass || TurnAt(old(players[c].turns), r).None? then
          players == old(players)[c := old(players[c]).(turns := SetTurn(old(players[c].turns), r, PassTurn(now)))]
        else players == old(players)
      ensures saved == Some(State())
    {
      var roundIdx := gameRound - 1;
      var updated := players;
      var player := updated[currentPlayerIndex];
      var newTurns := player.turns;
      if isPass || TurnAt(newTurns, roundIdx).None? {
        newTurns := SetTurn(newTurns, roundIdx, PassTurn(now));
      }
      player := player.(turns := newTurns);
      updated := updated[currentPlayerIndex := player];
      var nextPlayerIndex := (currentPlayerIndex + 1) % |players|;
      var nextRound := if nextPlayerIndex == 0 then gameRound + 1 else gameRound;
      players := updated;
      currentPlayerIndex := nextPlayerIndex;
      gameRound := nextRound;
      Persist(updated, nextPlayerIndex, nextRound);
    }

    /** `modifyPlay(playerId, roundIdx, playIdx, updates)`: the partial
        update is merged into one play; storage is written even when the
        id or the turn is unknown and nothing changed. */
    method ModifyPlay(playerId: string, roundIdx: int, playIdx: int, updates: PlayUpdate)
      requires Valid()
      requires PlayAddressable(players, playerId, roundIdx, playIdx)
      modifies this
      ensures Valid()
      ensures players == ModifiedPlayers(old(players), playerId, roundIdx, playIdx, updates)
      ensures currentPlayerIndex == old(currentPlayerIndex) && gameRound == old(gameRound)
      ensures saved == Some(State())
    {
      var updated := ModifiedPlayers(players, playerId, roundIdx, playIdx, updates);
      players := updated;
      Persist(updated, currentPlayerIndex, gameRound);
    }
  }
}
