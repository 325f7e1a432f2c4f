/** The records of the score ledger: plays, turns, players and the statistics
    computed from them, plus the two pieces of JavaScript object semantics the
    ledger relies on: sparse turn arrays and partial-object merges. */
module Types {

  datatype Option<+T> = None | Some(value: T)

  /** One word entry. The three flags are optional in the stored record; an
      absent flag reads as false everywhere, so the model stores plain bools. */
  datatype Play = Play(word: string, points: int, isEdited: bool, isBingo: bool, isRemoved: bool)

  /** A play as it is created: only a word and a score, no flags set. */
  function NewPlay(word: string, points: int): (p: Play)
    ensures p.word == word && p.points == points
    ensures !p.isEdited && !p.isBingo && !p.isRemoved
  {
    Play(word, points, false, false, false)
  }

  datatype Turn = Turn(plays: seq<Play>, timestamp: int)

  /** `turns` is indexed by round minus one. Entries a player has not reached
      are holes in the array (null once serialised), modelled as None. */
  datatype Player = Player(id: string, name: string, turns: seq<Option<Turn>>)

  datatype PlayerStats = PlayerStats(totalScore: int, averagePoints: real, highestWord: Option<Play>, wordCount: nat)

  const PASSED: string := "PASSED"
  const EM_DASH: string := "—"

  /** The two spellings of the skip marker used across the revisions. */
  predicate IsSkipWord(w: string)
  {
    w == PASSED || w == EM_DASH
  }

  /** Reading `turns[r]`: an index past the end, a negative index or a hole
      all read as "no turn". */
  function TurnAt(turns: seq<Option<Turn>>, r: int): Option<Turn>
  {
    if 0 <= r < |turns| then turns[r] else None
  }

  function Holes(n: nat): (h: seq<Option<Turn>>)
    ensures |h| == n
    ensures forall i :: 0 <= i < n ==> h[i] == None
  {
    if n == 0 then [] else Holes(n - 1) + [None]
  }

  /** Writing `turns[r] = t` on a copy of the array: past the end the array
      grows and the skipped slots become holes. */
  function SetTurn(turns: seq<Option<Turn>>, r: nat, t: Turn): (res: seq<Option<Turn>>)
    ensures |res| == if r < |turns| then |turns| else r + 1
    ensures TurnAt(res, r) == Some(t)
    ensures forall q :: q != r ==> TurnAt(res, q) == TurnAt(turns, q)
  {
    if r < |turns| then turns[r := Some(t)]
    else turns + Holes(r - |turns|) + [Some(t)]
  }

  /** `Partial<Play>`: each field is either present (Some) or absent. */
  datatype PlayUpdate = PlayUpdate(
    word: Option<string>,
    points: Option<int>,
    isEdited: Option<bool>,
    isBingo: Option<bool>,
    isRemoved: Option<bool>)

  function Pick<T>(u: Option<T>, current: T): T
  {
    if u.Some? then u.value else current
  }

  /** `{ ...play, ...updates }`: a present field of the update wins, every
      absent one keeps the play's value. */
  function Merge(p: Play, u: PlayUpdate): (r: Play)
    ensures u.word.None? ==> r.word == p.word
    ensures u.word.Some? ==> r.word == u.word.value
    ensures u.points.None? ==> r.points == p.points
    ensures u.points.Some? ==> r.points == u.points.value
    ensures u.isEdited.None? ==> r.isEdited == p.isEdited
    ensures u.isEdited.Some? ==> r.isEdited == u.isEdited.value
    ensures u.isBingo.None? ==> r.isBingo == p.isBingo
    ensures u.isBingo.Some? ==> r.isBingo == u.isBingo.value
    ensures u.isRemoved.None? ==> r.isRemoved == p.isRemoved
    ensures u.isRemoved.Some? ==> r.isRemoved == u.isRemoved.value
  {
    Play(Pick(u.word, p.word), Pick(u.points, p.points), Pick(u.isEdited, p.isEdited),
         Pick(u.isBingo, p.isBingo), Pick(u.isRemoved, p.isRemoved))
  }
}
