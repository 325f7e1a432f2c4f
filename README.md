# LexiScore score ledger in Dafny

LexiScore is a score keeper for word-board games. Players take turns. In each
turn a player enters words with their points. A turn can also be passed or
skipped, and plays can be edited, marked as bingo (+50) or soft-removed. The
core of the program is a ledger: the roster, whose turn it is, the round, and
every turn each player has recorded. The program derives each player's
statistics from that ledger: total, word count, average and highest word.

This project models that ledger in two revisions, plus the dialog logic that
builds the updates sent to it.

- `types.dfy` (`Types`) holds the records `Play`, `Turn`, `Player` and
  `PlayerStats`. It also holds the two pieces of JavaScript object semantics
  the ledger relies on:
  - sparse turn arrays, where writing past the end leaves holes (`TurnAt`,
    `SetTurn`);
  - the partial-object spread `{ ...play, ...updates }` (`Merge`).
- `text.dfy` (`Text`) holds the string primitives the input handlers use,
  following ECMA-262:
  - `trim` over the WhiteSpace and LineTerminator code points;
  - `toUpperCase` on ASCII letters;
  - `startsWith`;
  - `parseInt` with no radix: leading white space, a sign, a `0x` prefix,
    then digits up to the first non-digit;
  - integer `toString`.
- `stats.dfy` (`Stats`) is the statistics aggregator. The `forEach` traversal
  is written as nested loops (`Aggregate`, `AccumulateTurn`). It is proved
  equal to the specification `StatsOf`, whose contract states:
  - which plays count;
  - the sum;
  - the exact average;
  - the highest word, chosen as the stable descending sort's first element.
  The rule for which plays count is a parameter, because the two revisions
  differ only there.
- `ledger.dfy` (`Ledger`) is the current revision (the `useScrabbleGame`
  hook), modelled as the class `Game`. Every operation that changes the state
  writes the new `(players, currentPlayerIndex, gameRound)` triple to
  storage, and `modifyPlay` writes it in every case. The ghost
  field `saved` stands for storage, and `Valid()` says that once written it
  mirrors the state.
- `modals.dfy` (`Modals`) holds the add-word dialog (`AddWordForm`), the
  play-options updates (bingo toggle, edit, remove), the verdict prefixes, the
  turn subtotal and the displayed plays.
- `legacy.dfy` (`LegacyLedger`) is the earlier revision, which lives in the
  top-level component (class `LegacyGame`). It knows only the `—` skip marker
  and has no removed flag. It trims the submitted word, never overwrites an
  existing turn when one ends, and freezes the roster once a turn exists.
- `regression.dfy` (`Regression`) states the first four cases of the in-app
  regression suite as lemmas, for every timestamp.

Where the two revisions differ, the code decides. The differences are:

- The hook's `updatePlayerName` accepts a blank name. Only the earlier
  revision's `savePlayerName` refuses one.
- The hook's `addPlayer` has no "game started" check; only a size cap.
- The hook's `endTurn(true)` overwrites plays already recorded this round with
  a single `PASSED` play.
- The hook's `modifyPlay` writes storage even when nothing changed.
- The add-word dialog upper-cases the word without trimming it. The earlier
  revision's `submitWord` trims it first.

Skipped and passed turns are recorded as ordinary plays whose word is a
marker: `PASSED` or `—` in the hook, `—` in the earlier revision. A word typed
as `PASSED` is therefore the marker too: the hook's statistics drop it, and
the next word added to that turn deletes it. The model keeps this behaviour.

## Model

| member | source | states |
|---|---|---|
| Types.NewPlay | types.ts:2-8 | a play as created carries the given word and points and no flag set (absent optional flags read as false) |
| Types.Holes | hooks/useScrabbleGame.ts:106 | the gap left by writing past the end of a turn array: `n` slots, each reading as "no turn" |
| Types.SetTurn | hooks/useScrabbleGame.ts:102-106 | writing round `r` of a turn array: that slot now holds the turn, every other round reads as before, and the array grows to `r+1` when `r` is past the end (the gap reads as "no turn") |
| Types.Merge | hooks/useScrabbleGame.ts:159 | `{ ...play, ...updates }`: each field present in the update wins, each absent one keeps the play's value |
| Text.LeadingWhite | App.tsx:110 | the count of leading white-space characters: all of them are white space and the next one is not |
| Text.TrailingWhite | App.tsx:110 | the count of trailing white-space characters: all of them are white space and the one before them is not |
| Text.TrimEmptyIff | App.tsx:110 | `!s.trim()` holds exactly when every character of `s` is white space |
| Text.TrimTrimmed | App.tsx:92 | trimming is idempotent |
| Text.Trim | App.tsx:110 | `trim` is the slice of the input after its leading white space; everything after the slice is white space, and a non-empty result starts and ends with a non-white character |
| Text.Upper | App.tsx:114 | upper-casing keeps the length, maps each lower-case ASCII letter to its upper-case letter (code point minus 32), and leaves every other character (digits, punctuation, upper-case letters) alone |
| Text.StartsWith | components/GameModals.tsx:59-60 | `startsWith` holds exactly when the prefix is no longer than the string and matches it character by character |
| Text.ParseInt | App.tsx:109 | `parseInt` of blank text is NaN; text starting with a decimal digit (and no `0x` prefix) always parses; a negative result comes only from text whose trimmed start is `-` followed by more |
| Text.IntToString | components/GameModals.tsx:53 | `toString` of an integer is non-empty, starts with `-` exactly when the integer is negative, and is digits after that |
| Text.UpperOfUpper | components/GameModals.tsx:269 | upper-casing an upper-case word changes nothing |
| Text.DigitsValue | App.tsx:109 | the value of a digit string is never negative |
| Text.DigitPrefix | App.tsx:109 | the longest prefix of digits of the radix: a prefix of the input, all digits, followed by a non-digit or the end |
| Text.DigitChar | components/GameModals.tsx:53 | a decimal digit character with the given value |
| Text.NatToString | components/GameModals.tsx:53 | the decimal text of a natural number is non-empty and all digits |
| Text.NatToStringDigits | components/GameModals.tsx:53 | the decimal text of `m` is non-empty, all digits, and its value is `m` |
| Text.DigitPrefixOfDigits | App.tsx:109 | a string made only of digits is its own digit prefix |
| Text.ParseIntOfToString | components/GameModals.tsx:53 | `parseInt(n.toString())` gives back `n` for every integer, negative ones included |
| Text.MagnitudeOfNatToString | components/GameModals.tsx:53 | the decimal text of `m` starts with a digit and its unsigned reading is `m` |
| Text.ParseMagnitudeOfDecimal | App.tsx:109 | a decimal digit string with no `x` in second place reads as its decimal value |
| Text.SignedRoundTrip | App.tsx:109 | a digit string parses to its magnitude, and with a leading `-` to its negation |
| Text.ParseIntUnsigned | App.tsx:109 | with no leading white space or sign, `parseInt` is the unsigned reading |
| Text.ParseIntNegative | App.tsx:109 | a leading `-` negates the unsigned reading, and gives NaN when that is NaN |
| Stats.Sum | hooks/useScrabbleGame.ts:52 | the running total of a list of plays; never negative when no play has negative points |
| Stats.SlotPlays | hooks/useScrabbleGame.ts:49-50 | a hole contributes nothing, and every play a turn contributes passes the rule |
| Stats.Collect | hooks/useScrabbleGame.ts:48-57 | the plays `allPlays` gathers over the whole history; every one of them passes the rule |
| Stats.Kept | hooks/useScrabbleGame.ts:50-54 | the plays of one turn that count, never more than the turn holds |
| Stats.KeptHas | hooks/useScrabbleGame.ts:50-54 | a play is kept from a turn exactly when it is in the turn and passes the rule |
| Stats.CollectHas | hooks/useScrabbleGame.ts:48-57 | a play is collected exactly when it passes the rule and sits in a turn that exists; holes contribute nothing |
| Stats.FirstMax | hooks/useScrabbleGame.ts:60-62 | the index the stable descending sort puts first: its points are maximal and every earlier play has strictly fewer |
| Stats.StatsOf | hooks/useScrabbleGame.ts:58-63 | count and total of the counted plays; average is the exact quotient and 0 when nothing counts; highest word is none exactly when nothing counts, and otherwise the first counted play with the most points |
| Stats.Aggregate | hooks/useScrabbleGame.ts:45-64 | the `forEach` traversal computes exactly `StatsOf` |
| Stats.AccumulateTurn | hooks/useScrabbleGame.ts:50-55 | the inner loop appends exactly the turn's counted plays to the running list and keeps the total equal to their sum |
| Stats.SumSnoc | hooks/useScrabbleGame.ts:52 | adding a play adds its points to the sum |
| Stats.CollectStep | hooks/useScrabbleGame.ts:48-49 | one more turn slot adds exactly that slot's counted plays |
| Stats.KeptStep | hooks/useScrabbleGame.ts:50-51 | one more play adds it exactly when it counts |
| Stats.CollectPadded | hooks/useScrabbleGame.ts:49 | holes added at the end of a history add no counted play |
| Stats.CollectFilled | hooks/useScrabbleGame.ts:49 | filling a hole with a turn of which no play counts leaves the counted plays unchanged |
| Stats.FillInvisible | hooks/useScrabbleGame.ts:49 | writing such a turn where there was none, inside or past the end of the array, leaves the counted plays unchanged |
| Stats.CollectSnoc | hooks/useScrabbleGame.ts:48-49 | appending a slot appends its counted plays |
| Stats.KeptAgree | App.tsx:184 | two counting rules that agree on every play of a turn keep the same plays |
| Stats.CollectAgree | App.tsx:181-190 | two counting rules that agree on every play of a history collect the same plays and give the same statistics |
| Ledger.Counts | hooks/useScrabbleGame.ts:51 | a play counts exactly when its word is neither `PASSED` nor `—` and it is not removed |
| Ledger.GetPlayerStats | hooks/useScrabbleGame.ts:45-64 | the hook's statistics: a play counts unless its word is `PASSED` or `—` or it is removed |
| Ledger.Initial | hooks/useScrabbleGame.ts:8-35 | loading yields the stored triple, or two players with no turns at index 0 in round 1; either is a valid state |
| Ledger.WithoutId | hooks/useScrabbleGame.ts:76 | `filter(p => p.id !== id)`: exactly the players with another id remain |
| Ledger.WithoutIdAbsent | hooks/useScrabbleGame.ts:76 | filtering out an id nobody has changes nothing |
| Ledger.WithoutIdAt | hooks/useScrabbleGame.ts:76 | with distinct ids, the filter deletes exactly the one player with the id and keeps the order of the rest |
| Ledger.DeleteKeepsUnique | hooks/useScrabbleGame.ts:76 | deleting one player keeps the ids distinct |
| Ledger.WithoutIdValid | hooks/useScrabbleGame.ts:74-80 | removal keeps ids distinct, removes exactly one player when the id is present, and nothing otherwise |
| Ledger.Renamed | hooks/useScrabbleGame.ts:83 | only the players with the id get the new name; ids and turns are untouched |
| Ledger.Cleared | hooks/useScrabbleGame.ts:89 | every history is emptied; ids and names are kept |
| Ledger.ModifiedPlayers | hooks/useScrabbleGame.ts:152-162 | only the addressed play of the addressed round of the matching player changes, by `Merge`; the turn keeps its timestamp; an unknown id or missing turn changes nothing |
| Ledger.SpliceIndex | hooks/useScrabbleGame.ts:121 | `splice`'s start resolution: a start in `0..len` is kept, one past the end becomes `len`, a negative one becomes `len + start`, clamped at 0 when that is negative |
| Ledger.Splice1InRange | hooks/useScrabbleGame.ts:120-121 | `splice(i, 1)` with `i` in range removes exactly element `i`: the result is the part before it followed by the part after it |
| Ledger.Splice1 | hooks/useScrabbleGame.ts:120-121 | `splice(start, 1)`: the play at the resolved index is gone and the rest keep their order; nothing changes when that index is past the end |
| Ledger.Advance | hooks/useScrabbleGame.ts:143-144 | the next index stays in range, is 0 exactly when the last seat ended, is `i+1` otherwise, and the round grows by exactly one exactly then |
| Ledger.FullCycle | hooks/useScrabbleGame.ts:143-144 | from any seat, the remaining turn ends of the round bring the index to 0 and the round up by exactly one |
| Ledger.PassTurn | hooks/useScrabbleGame.ts:137 | the pass turn is stamped `now` and holds one play worth 0, which never counts |
| Ledger.WithWord | hooks/useScrabbleGame.ts:102-107 | an existing turn keeps its timestamp, loses its skip markers and gets the play appended; with no turn, a one-play turn stamped `now`; if the new word is not a marker, the turn holds no marker |
| Ledger.PassTurnScoresNothing | hooks/useScrabbleGame.ts:136-137 | recording a pass where there was no turn leaves the statistics unchanged |
| Ledger.Game.constructor | hooks/useScrabbleGame.ts:20-35 | the hook starts from `Initial` of what storage holds |
| Ledger.Game.Persist | hooks/useScrabbleGame.ts:37-43 | storage receives exactly the given triple |
| Ledger.Game.AddPlayer | hooks/useScrabbleGame.ts:66-72 | at the cap nothing changes and nothing is written; otherwise a player named "Player n+1" with no turns is appended, and the new state is stored |
| Ledger.Game.RemovePlayer | hooks/useScrabbleGame.ts:74-80 | with one player left nothing changes; otherwise the player is filtered out, the index goes to 0, and the state stays valid and stored |
| Ledger.Game.UpdatePlayerName | hooks/useScrabbleGame.ts:82-86 | the players with the id get the name, with no check on it; the new state is stored |
| Ledger.Game.ResetGame | hooks/useScrabbleGame.ts:88-94 | histories emptied, index 0, round 1, ids and names kept, stored |
| Ledger.Game.AddWordToTurn | hooks/useScrabbleGame.ts:96-112 | an existing turn of this round loses its skip markers and gets the play appended, keeping its timestamp; otherwise a one-play turn stamped `now` appears; other players, other rounds, index and round are unchanged |
| Ledger.Game.RemoveWordFromTurn | hooks/useScrabbleGame.ts:114-128 | with a turn this round, the play at the splice-resolved index is deleted and the rest keep their order; without one nothing changes and nothing is written |
| Ledger.Game.EndTurn | hooks/useScrabbleGame.ts:130-150 | a pass, or a turn with nothing recorded, stores a single `PASSED` play worth 0 (a pass overwrites); otherwise turns are untouched; index and round advance as `Advance` and stay valid; the new triple is stored |
| Ledger.Game.ModifyPlay | hooks/useScrabbleGame.ts:152-165 | the players become `ModifiedPlayers`; index and round are unchanged; storage is written in every case |
| Modals.BingoUpdate | components/GameModals.tsx:272-292 | the update flips the bingo flag and moves the points by +50 when enabling and by -50 when disabling; word and the other flags are absent |
| Modals.EditUpdate | components/GameModals.tsx:266-270 | no update exactly when the word is blank or the points do not parse; otherwise the upper-cased word, the parsed points and the edited flag, with bingo and removed absent |
| Modals.RemoveUpdate | components/GameModals.tsx:362 | the update sets only the removed flag |
| Modals.IsLegal | components/GameModals.tsx:59 | the VALID verdict needs a definition whose trimmed text has at least five characters |
| Modals.IsIllegal | components/GameModals.tsx:60 | the INVALID verdict needs a definition whose trimmed text has at least seven characters |
| Modals.RoundTotal | components/GameModals.tsx:63 | the subtotal is the sum of the plays that are not removed |
| Modals.DisplayPlays | components/GameModals.tsx:64 | the displayed plays are exactly the plays of the turn that are not skip markers, never more than the turn holds |
| Modals.KeptSumsAgree | components/GameModals.tsx:63 | when skip markers are worth 0, summing the plays that are not removed equals summing the plays that count |
| Modals.BingoToggleOnce | components/GameModals.tsx:272-292 | one toggle flips the flag and moves the points by exactly 50 in the direction of the new flag, touching nothing else |
| Modals.BingoToggleTwice | components/GameModals.tsx:272-292 | toggling twice gives back the play exactly |
| Modals.BingoTwiceThroughModifyPlay | components/GameModals.tsx:289-292 | two toggles sent through `modifyPlay`, each built from the play as it then stands, restore every player exactly |
| Modals.EditUpdateEffect | components/GameModals.tsx:266-270 | an edit is refused exactly when the word is blank or the points do not parse; otherwise the play gets the upper-cased, untrimmed word and the parsed points, is marked edited, and keeps its bingo and removed flags |
| Modals.RemoveUpdateEffect | components/GameModals.tsx:362 | removal sets only the removed flag, keeps word and points, and takes the play out of the statistics |
| Modals.VerdictsExclusive | components/GameModals.tsx:59-60 | a definition is never both VALID and INVALID, and a missing definition is neither |
| Modals.RoundTotalIsCountedSum | components/GameModals.tsx:63 | the turn subtotal (skipping removed plays) equals the sum of the counted plays when skip markers are worth 0 |
| Modals.DisplayIndexIsTurnIndex | components/GameModals.tsx:64 | in a turn without skip markers the displayed list is the turn, so a display index addresses the same play |
| Modals.AddWordForm.constructor | components/GameModals.tsx:29-31 | the dialog starts with empty inputs and no definition |
| Modals.AddWordForm.HandleSubmit | components/GameModals.tsx:34-41 | a blank word or unparsable points changes nothing and adds nothing; otherwise the upper-cased word and the parsed points are added and the inputs cleared |
| Modals.AddWordForm.HandleEditFromSummary | components/GameModals.tsx:51-56 | the play's word and points go back into the inputs, the display index is what gets removed, and the points text reads back as the play's points |
| LegacyLedger.Counts | App.tsx:184 | a `—` play never counts; on a play that is not removed and not `PASSED`, this rule agrees with the hook's |
| LegacyLedger.Started | App.tsx:42-44 | the game has not started exactly when no player has any turn |
| LegacyLedger.SkipTurn | App.tsx:156-159 | the skip turn is stamped `now` and holds one `—` play worth 0, which never counts |
| LegacyLedger.Submission | App.tsx:109-116 | an accepted submission has a non-empty upper-case word, the points `parseInt` gives, and no flag set |
| LegacyLedger.RenamedKeepsTrimmed | App.tsx:91-93 | renaming to the trim of a non-blank value leaves every name either unchanged or non-empty and trimmed, and keeps ids and turns |
| LegacyLedger.GetPlayerStats | App.tsx:177-199 | this revision's statistics: only `—` plays are excluded; removed flags are ignored |
| LegacyLedger.StatsAgreeWithHook | App.tsx:184 | on histories with no removed play and no `PASSED` word both revisions give the same statistics |
| LegacyLedger.SkipTurnScoresNothing | App.tsx:152-160 | a skipped turn leaves this revision's statistics unchanged |
| LegacyLedger.FindId | App.tsx:80 | `findIndex`: -1 exactly when no player has the id, otherwise the first seat with it |
| LegacyLedger.WithPlay | App.tsx:123-135 | the play is appended to an existing turn with no filtering and its timestamp kept, or a one-play turn stamped `now` is created |
| LegacyLedger.SubmissionAccepts | App.tsx:109-116 | no play exactly when the word is blank or the points are NaN; otherwise the trimmed, upper-cased, non-empty word with the parsed points |
| LegacyLedger.Recorded | App.tsx:118-140 | only the current player's turn of this round changes, to `WithPlay` of what was there; ids, names and every other turn are kept, and distinct ids stay distinct |
| LegacyLedger.LegacyGame.constructor | App.tsx:24-39 | two players, index 0, round 1, empty inputs, nobody being renamed |
| LegacyLedger.LegacyGame.PerformReset | App.tsx:52-61 | histories emptied so the game is no longer started, index 0, round 1, inputs and renaming cleared, ids and names kept |
| LegacyLedger.LegacyGame.AddPlayer | App.tsx:63-67 | refused once any player has a turn; otherwise "Player n+1" is appended, with no cap |
| LegacyLedger.LegacyGame.RemovePlayer | App.tsx:69-73 | refused once started or with one player left; otherwise the player is filtered out and the index goes to 0 |
| LegacyLedger.LegacyGame.StartEditingName | App.tsx:75-84 | the player's id and name go into the rename cells, and the index moves to the player's seat when the player is on the roster |
| LegacyLedger.LegacyGame.CancelEditingName | App.tsx:97-99 | renaming ends |
| LegacyLedger.LegacyGame.SavePlayerName | App.tsx:86-95 | a blank name or no id being renamed only ends renaming; otherwise the player gets the trimmed name; every name afterwards is either unchanged or non-empty and trimmed; ids and turns are untouched |
| LegacyLedger.LegacyGame.SubmitWord | App.tsx:108-145 | a refused submission changes nothing; an accepted one records the play for the current seat and round and clears the inputs; index and round stay |
| LegacyLedger.LegacyGame.Accept | App.tsx:118-144 | the play is recorded as `Recorded` says and the word, points and definition cells are cleared |
| LegacyLedger.LegacyGame.EndTurn | App.tsx:147-175 | a player with no turn this round gets a single `—` play worth 0, and an existing turn is left alone; the round grows exactly when the last seat ends and the index moves to `(i+1) mod n`; inputs and renaming are cleared |
| Regression.OneTurnCollect | services/testRunner.ts:16-22 | the counted plays of a one-turn history are those of the turn |
| Regression.SinglePlay | services/testRunner.ts:16-47 | a history of one counted play totals its points, counts one word, and has it as highest word |
| Regression.BasicScore | services/testRunner.ts:15-30 | a play of 10 totals 10 |
| Regression.BingoScore | services/testRunner.ts:32-47 | a bingo play stored at 65 totals 65 |
| Regression.RemovedExcluded | services/testRunner.ts:49-67 | a kept 20 beside a removed 50 totals 20 from one word, with the kept play as highest |
| Regression.TwoCollected | services/testRunner.ts:69-84 | two counted plays in one turn are both collected, in order |
| Regression.TwoPlays | services/testRunner.ts:69-84 | two counted plays total both, count two words, and the later one is highest only when it scores strictly more |
| Regression.AverageOfTwo | services/testRunner.ts:69-84 | plays of 10 and 20 average exactly 15, and the 20 is the highest word |

## Left out

- The definition lookup (`services/geminiService.ts`) is a network call, and the debounced and async lookups around it use timers and promises. The model treats `definition` as an input cell, and `IsLegal`/`IsIllegal` read whatever text it holds.
- All JSX rendering, animation and confetti are left out, and so are `components/ScoreSheet.tsx`, `components/GameHeader.tsx`, `components/StatsCard.tsx` and `components/TestModal.tsx`. The add and remove guards in those components are UI only, and the subtotal in `ScoreSheet` duplicates `Modals.RoundTotal`.
- `localStorage` and JSON text are not modelled. Storage is the ghost field `saved`, and a stored blob is assumed to be a valid state (`Ledger.Initial` requires it), because `JSON.parse` checks no shape.
- Floating point is not modelled. The average is an exact real quotient. `toFixed(1)` display is out of scope.
- `Math.random` ids and `Date.now()` timestamps are parameters (`newId`, `now`).
- Ledger.Game.AddPlayer: a fresh id is a precondition. The program only hopes a random id is unused.
- LegacyLedger.LegacyGame.AddPlayer: a fresh id is a precondition, for the same reason.
- Ledger.Game.ModifyPlay: an out-of-range `playIdx` is a precondition. The program would create a new element that holds only the update's fields.
- Text.Upper: only ASCII letters are upper-cased. Full Unicode case mapping (for example `ß` to `SS`) is not modelled.
- Text.ParseInt: integers are unbounded. Precision loss past 2^53, `Infinity`, and the sign of `-0` are not modelled.
- Text.IntToString: exponent notation for very large numbers is not modelled.
- React state updates are modelled as applied in order on one state. Render batching and stale closures are not modelled.
- The earlier revision stores nothing, so `LegacyLedger.LegacyGame` has no storage field.
- The DOM probes of the regression suite (`services/testRunner.ts:86-104`) inspect the page, so they are left out.
