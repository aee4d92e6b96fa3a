# Every Scoreboard: the Cacheta and Truco scoreboards in Dafny

This project models the game logic of two screens of a mobile scoreboard app for card
games.

* **Cacheta** (`Cacheta.dfy`, module `Cacheta`). The screen keeps a roster of players. Each
  player has an id, a name, a per-round history of actions (won, folded, lost or none) and a
  pending action for the round being played. A player's points are never stored. They are
  computed from the history: the starting points (10 by default), minus one per fold and two
  per loss, floored at zero. The handlers do the following:
  * commit a round, but refuse it when nobody won and someone still has points;
  * toggle a pending action or a past round's cell;
  * check the round editor before closing it;
  * delete a round from every history;
  * add, rename and delete players;
  * reset the game.

  They are the methods of the class `Cacheta.Scoreboard`, whose fields are the screen's
  `players` and `initialPoints` state.
* **Truco** (`Truco.dfy`, module `Truco`). Two teams score the current stake of the hand.
  * A plus press adds the stake. Reaching 12 is a victory, which counts a trophy (at most
    five) and caps the score at 12.
  * A minus press takes off one point, floored at zero.
  * A point history of (team, points) events is kept beside the scores. A score undo trims
    the team's most recent event: the screen searches backwards for it, then lowers it by
    one point or splices it out.
  * In each mode (Paulista 1-3-6-9-12, Mineiro 2-4-6-8-10-12) the stake climbs through that
    mode's sequence.
  * Other handlers reset the game or the hand, change the mode, and save the team names.

  The screen state is the class `Truco.Scoreboard`. Its ghost invariant `Valid()` says that:
  * each score lies in [0, 12];
  * each score is at most the points of that team's events, and equal to them as long as no
    addition was cut off by the cap since the last reset;
  * every event is worth at least one point;
  * the stake and the trophy counters stay in range.

A few behaviours of the code are worth stating outright, and each is a property of the model:
* A player added mid-game starts with an empty history, so the rounds stop lining up
  (`AddPlayerLockStep`).
* A score undo lowers the team's latest event by exactly one point (`UndoTotals`).
* The victory target is the literal 12 (`ApplyPoints`).
* The mode-change reset is a React effect that depends on `gameMode`. It happens only when
  the mode value actually changes, and uses the new mode's base stake (`SetGameMode`).

The React state setters are modelled as assignments taking effect at once. A handler is one
atomic step on the class. Translation keys stand for the translated texts. The button label
keys form the datatype `Truco.Label`. Alerts become boolean results: `accepted`, `closed` and
`victory`. The name save shows no alert and silently ignores a blank name; its `saved`
result is the outcome of the `trim()` guard.

## Model

| member | source | states |
|---|---|---|
| Cacheta.CurrentPoints | src/screens/CachetaScreen.tsx:76-81 | The `forEach` accumulator equals `Points(initial, h)`: the initial points less one per fold and two per loss, floored at zero, so never negative. |
| Cacheta.CountIsMultiplicity | src/screens/CachetaScreen.tsx:77-80 | The number of rounds holding an action equals that action's multiplicity in the history's multiset. |
| Cacheta.PointsIgnoreOrder | src/screens/CachetaScreen.tsx:74-83 | Two histories with the same multiset of actions show the same points: the fold does not depend on round order. |
| Cacheta.PointsNeverRise | src/screens/CachetaScreen.tsx:74-83 | Appending a round never raises points; a win or an empty round leaves them unchanged, and from zero they stay zero. |
| Cacheta.RemoveRoundCount | src/screens/CachetaScreen.tsx:307 | Splicing out round `k` lowers the count of an action by one exactly when round `k` held it. |
| Cacheta.Map | src/screens/CachetaScreen.tsx:95-99 | `players.map(f)` keeps the length, and element `i` is `f` of old element `i`. |
| Cacheta.Without | src/screens/CachetaScreen.tsx:141 | The filter keeps exactly the players whose id differs, and never lengthens the roster. |
| Cacheta.WithoutConcat | src/screens/CachetaScreen.tsx:141 | Filtering distributes over concatenation, so the kept players keep their order. |
| Cacheta.Alive | src/screens/CachetaScreen.tsx:88 | The alive filter keeps exactly the players whose points are positive. |
| Cacheta.CommitGuard | src/screens/CachetaScreen.tsx:87-93 | The round is refused if and only if nobody has a pending win and some player still has points, in both directions. |
| Cacheta.ToggleTwice | src/screens/CachetaScreen.tsx:118-121 | Choosing the same action twice restores the cell if and only if it was empty or already held that action; otherwise the cell ends up empty. |
| Cacheta.SetCell | src/screens/CachetaScreen.tsx:117-119 | Writing cell `k` of a history copy sets that cell and keeps every other cell. A write past the end grows the history to `k + 1` cells, with empty holes. |
| Cacheta.RemoveAt | src/screens/CachetaScreen.tsx:307 | `splice(k, 1)` drops cell `k` and shifts the later cells down by one; past the end it changes nothing. |
| Cacheta.RemoveLastRound | src/screens/CachetaScreen.tsx:307 | Deleting the round that was just appended gives the previous history back. |
| Cacheta.AddPlayerLockStep | src/screens/CachetaScreen.tsx:192 | Adding a player with an empty history keeps all histories the same length if and only if no round has been played yet. |
| Cacheta.NatToString | src/screens/CachetaScreen.tsx:192 | The number in the placeholder name is printed as a non-empty string of decimal digits, without a leading zero unless the number is 0. |
| Cacheta.NatToStringRoundTrip | src/screens/CachetaScreen.tsx:192 | The printed digits read back as the same number. |
| Cacheta.Scoreboard.constructor | src/screens/CachetaScreen.tsx:36-41 | The initial state has players "1", "2" and "3", named "JOGADOR 1" to "JOGADOR 3", with empty histories and no pending action, and 10 starting points. |
| Cacheta.Scoreboard.SetInitialPoints | src/screens/CachetaScreen.tsx:169 | The starting points become the given number; the players are unchanged. |
| Cacheta.Scoreboard.PlayersPoints | src/screens/CachetaScreen.tsx:74-83 | Gives one value per player, equal to `Points` of that player's history. |
| Cacheta.Scoreboard.NextRound | src/screens/CachetaScreen.tsx:86-102 | Accepted exactly when the guard allows it. On refusal nothing changes. Otherwise each player's pending action (possibly none) is appended to that player's history and cleared, ids and names are kept, and aligned rounds stay aligned. |
| Cacheta.Scoreboard.Reset | src/screens/CachetaScreen.tsx:104-111 | Every history is emptied and every pending action cleared, while the roster, ids, names and starting points are kept. Every player is back at the floored starting points. |
| Cacheta.Scoreboard.UpdateAction | src/screens/CachetaScreen.tsx:113-123 | Players with other ids are untouched. In history mode with a round selected, only that round's cell is toggled; otherwise only the pending action is. Alignment is kept when the edited round exists. |
| Cacheta.Scoreboard.SaveHistory | src/screens/CachetaScreen.tsx:126-135 | The round editor closes if and only if no round is selected or some player won the selected round. Nothing is modified. |
| Cacheta.Scoreboard.DeleteRound | src/screens/CachetaScreen.tsx:303-310 | Round `k` is spliced out of every history; everything else is kept, and aligned rounds stay aligned. |
| Cacheta.Scoreboard.DeletePlayer | src/screens/CachetaScreen.tsx:137-145 | Exactly the players with other ids remain, in their order. |
| Cacheta.Scoreboard.AddPlayer | src/screens/CachetaScreen.tsx:192 | One player with the fresh id and the next placeholder name is appended, with no history. Rounds stay aligned if and only if none was played. |
| Cacheta.Scoreboard.Rename | src/screens/CachetaScreen.tsx:262 | Players with id `pId` get the new name and nothing else changes. |
| Truco.StakesShape | src/screens/TrucoScreen.tsx:161 | Each mode's sequence starts at that mode's base stake, ends at 12 and strictly increases. |
| Truco.IndexOf | src/screens/TrucoScreen.tsx:162 | Like `indexOf`: it gives -1 exactly when the value is absent, and otherwise the first index holding the value. |
| Truco.NextStake | src/screens/TrucoScreen.tsx:160-164 | The new stake lies in the mode's sequence. 12 stays 12, a value outside the sequence goes to its first element, and any other value strictly increases. |
| Truco.NextStakeAt | src/screens/TrucoScreen.tsx:162-163 | From position `i` of the sequence a raise moves to position `i + 1`, or stays on the last position. |
| Truco.RaiseFromIndex | src/screens/TrucoScreen.tsx:160-164 | `n` raises from position `i` land on position `min(i + n, last)`. |
| Truco.RaisesReachTop | src/screens/TrucoScreen.tsx:160-164 | From any stake, at least as many raises as the sequence is long reach 12, and 12 stays. |
| Truco.ButtonLabelNamesNextStake | src/screens/TrucoScreen.tsx:166-181 | At a sequence value below 12 the label is "truco" on a fresh hand, and otherwise names the stake the press raises to. At or above 12 it shows the 12 label; outside the sequence, the "max" label. |
| Truco.ButtonLabel | src/screens/TrucoScreen.tsx:166-181 | The 12 label is shown exactly at 12 and above, and the "truco" label exactly on the mode's base stake. |
| Truco.IsHandRaisedPosition | src/screens/TrucoScreen.tsx:188 | `IsHandRaised` models `isHandRaised`. On the mode's sequence the hand is raised exactly past the first position. A raise press leaves the hand raised exactly when the stake was on the sequence. |
| Truco.TeamTotalConcat | src/screens/TrucoScreen.tsx:94-113 | A team's total of a concatenation is the sum of the two totals. |
| Truco.TeamTotalSign | src/screens/TrucoScreen.tsx:94-113 | With positive events, a team's total is non-negative, and zero if and only if the team has no event. |
| Truco.LastIndex | src/screens/TrucoScreen.tsx:99-102 | Gives -1 exactly when the team has no event, and otherwise the position of its latest event. |
| Truco.FindLastIndex | src/screens/TrucoScreen.tsx:99-102 | The backward loop with `break` returns `LastIndex`. |
| Truco.Undo | src/screens/TrucoScreen.tsx:103-110 | Without an event of the team nothing changes. The team's latest event loses one point if it had more than one, and is spliced out otherwise; all other events stay in place. |
| Truco.UndoTotals | src/screens/TrucoScreen.tsx:103-110 | An undo keeps every event positive, lowers the team's total by one (floored at zero) and leaves the other team's total alone. |
| Truco.UndoAfterScore | src/screens/TrucoScreen.tsx:94-110 | An undo right after scoring `v` takes one point back from that same event, or removes it when `v` is 1. |
| Truco.TeamTotalAppend | src/screens/TrucoScreen.tsx:97 | Appending an event adds its points to its own team's total only. |
| Truco.NextHistory | src/screens/TrucoScreen.tsx:94-113 | The history callback appends `(team, stake)` when adding, and is `Undo` otherwise. |
| Truco.ScoreStepTracks | src/screens/TrucoScreen.tsx:90-131 | One press keeps the invariant. Events stay positive, the other team's total is unchanged, and the new score is in [0, 12], at most the new total, and equal to it while no addition was clipped. |
| Truco.TrimmedNonEmpty | src/screens/TrucoScreen.tsx:300 | `trim()` leaves a non-empty string if and only if the name holds a character that is not white space. |
| Truco.Scoreboard.constructor | src/screens/TrucoScreen.tsx:21-29 | Both scores are 0, the stake 1, the mode Paulista, no trophies and no history; the default names are given; the invariant holds. |
| Truco.Scoreboard.ResetGame | src/screens/TrucoScreen.tsx:77-86 | Scores 0, history empty, stake back to the mode's base (so the hand is not raised). Trophies are zeroed only on a full reset. |
| Truco.Scoreboard.ResetHandStake | src/screens/TrucoScreen.tsx:88 | The stake goes back to the mode's base and the hand is no longer raised. |
| Truco.Scoreboard.HandleVictory | src/screens/TrucoScreen.tsx:135-137 | The winner's trophies go up by one, capped at five; the other team's are unchanged. |
| Truco.Scoreboard.ChangePoints | src/screens/TrucoScreen.tsx:90-133 | An addition appends `(team, stake)`, raises the score capped at 12, and reports a victory (with a capped trophy) exactly when 12 is reached; the stake returns to base. Otherwise the history is undone for that team and the score lowered by one, floored at 0, with no victory and the stake kept. The other team is untouched and the invariant is kept. |
| Truco.Scoreboard.ApplyPoints | src/screens/TrucoScreen.tsx:115-131 | The team's score becomes `min(12, score + stake)` when adding and `max(0, score - 1)` otherwise. Victory happens exactly when adding reaches 12, with a trophy; the other team is untouched. |
| Truco.Scoreboard.IncreaseStakes | src/screens/TrucoScreen.tsx:160-164 | The stake becomes `NextStake` of the mode and the old stake; the invariant is kept. |
| Truco.Scoreboard.SetGameMode | src/screens/TrucoScreen.tsx:71-75 | When the mode changes while both scores are 0, there is a full reset with the new mode's base stake. Otherwise scores, history, stake and trophies are kept. |
| Truco.Scoreboard.SaveName | src/screens/TrucoScreen.tsx:300 | A name is saved, untrimmed, if and only if it holds a character that is not white space. Only the edited team's name changes. |

## Left out

- Rendering, navigation, screen orientation, theming, animation and the round-column scrolling (`setTimeout`) are display concerns, not game logic.
- Persistence is left out: loading and saving through `src/utils/storage.ts` is asynchronous I/O. The model starts from the screens' initial state, and Truco's `isLoaded` flag is taken as already set.
- Translation: texts are represented by their keys. The Truco team names `truco.us` / `truco.them` are constructor parameters.
- Alert and confirmation dialogs are left out. Confirmed actions (reset, delete player, delete round) are the methods themselves. The "new match" choice after a victory is `ResetGame(false)`, called by the client.
- Ids come from `Date.now()`, a clock, so `AddPlayer` takes the fresh id as a parameter.
- Cacheta.Scoreboard.SetInitialPoints: takes the already-parsed number; `parseInt(t) || 10` (text parsing, and the fallback to 10 for empty or zero input) is not modelled.
- The 12-character limit of the name text inputs belongs to the input widget and is not modelled.
- React batching and stale closures: each handler is one atomic step that sees the current state. Two presses inside one render are not modelled.
- `undefined` holes in a Cacheta history are modelled as `null` (`NoAction`), as the modelled handlers and the points fold treat them. The round columns are drawn with `players[0].history.map`, which skips holes. Holes reach the first player when a late joiner's past round is edited and the earlier players are then deleted; those rounds then get no column. That rendering effect is not modelled.
- The Fodinha and Canastra screens are placeholders without game logic. The settings dialogs' max-score and Fodinha options are not connected to these screens.
- Truco.Scoreboard.Valid: the equality between a score and its team's event total formally holds only while no addition was cut off by the 12-point cap (ghost flags `exactUs` / `exactThem`). After a clipped addition only `score <= total` is guaranteed, because the code stores the full stake in the history but caps the score.
