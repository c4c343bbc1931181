# Imposter: round setup and role disclosure

A Dafny model of the game logic of "Imposter", a pass-the-phone party game.
One player after another opens their tile and sees their role. Most players
see the secret word. One or more imposters do not, and must blend in. The
model covers:

- **Setup screen** (`SetupStep`, class `SetupScreen`). The player counter
  stays within 3..20. The imposter counter stays within 1..playerCount-1. The
  roster of names grows with "Player n" placeholders or is cut down. Sport
  buttons toggle a sport in or out. The start button refuses to start in
  sports mode when no sport is selected.
- **Dealing a round** (`Round`). The setup screen and the "play again"
  button use the same code. Random seats are added to a set until it holds
  `imposterCount` of them (`PickImposters`). Those seats are marked as
  imposters in a fresh roster (`MarkImposters`). The first speaker is seat 0,
  or one more random seat when that setting is on. The random generator is a
  parameter: `draws` lists the seat indices it would produce, each in
  `[0, playerCount)`.
- **Game screen** (`GamePhase`, class `GameScreen`). Tapping a tile opens a
  player's role once. Closing it marks that player as having looked. The
  Reveal button appears once everybody has looked. The speaker card falls
  back to "Player 1".
- **Role overlay** (`RoleView`). A table of boolean rules decides what a
  player sees: the role label, category, hint, word length and the other
  imposters. Hard mode overrides the category and hint toggles for imposters.
- **Reveal screen** (`RevealPhase`). It lists the imposters in seat order and
  summarises the round. "Play again" keeps names and seats and deals anew.
- **Application shell** (`Session`, class `App`). The screen state machine
  runs menu → setup → game → reveal → game | menu, and returning to the menu
  drops the game.

The model follows the code, which is lenient or literal in these places:

- Tapping a tile a second time is silently ignored. It is not an error.
- The reveal step is guarded only by the Reveal button being hidden until
  everybody has looked. `Session.App.Valid` records that guard as an
  invariant of the reveal screen.
- The "other imposters" list drops every imposter whose name equals the
  viewer's name, not just the viewer's own seat. Two imposters who share a
  name therefore do not see each other (`RoleView.SameNameImposterHidden`).
  With the default names, which are pairwise distinct
  (`SetupStep.DefaultNamesDistinct`), the two rules agree.
- The gate for that list compares the configured `imposterCount` with 2. It
  does not count the imposters on the roster. In a dealt round the two
  numbers are equal.
- An empty sport selection is the only start-up error the code checks.
- A round stores the drawn entry's own category in the state, and "play
  again" asks the pool with the state's category. A classic game started on
  "All Categories" therefore draws every later round from the first word's
  category (the `Query` clauses of `Round.NewRound` and
  `RevealPhase.HandlePlayAgain`).

Each file is one module. Most follow one source file. App.tsx is split in
two: `Types` holds its records and initial state, and `Session` holds its
screen switching. `Round` holds the logic that SetupScreen.tsx and
RevealScreen.tsx share.

## Model

| member | source | states |
|---|---|---|
| `Types.DefaultSettings` | src/app/App.tsx:50-58 | category and hint shown to imposters, random first speaker on, all other toggles off |
| `Types.InitialState` | src/app/App.tsx:43-63 | 6 players and 1 imposter, so the configuration bounds hold from the start; category "All Categories" in classic and "" in sports; sports selection NFL, NBA, MLB only in sports mode; empty roster, word and hint; speaker 0 |
| `Round.PickImposters` | src/app/components/SetupScreen.tsx:91-95 | the chosen set is exactly the distinct seats among the draws consumed; it reaches `imposterCount` iff the draws hold that many distinct seats; the loop stops at the first draw that completes the set |
| `Round.MarkImposters` | src/app/components/SetupScreen.tsx:84-99 | every player keeps their name and position, nobody has checked, and the imposter seats are exactly the chosen set |
| `Round.DealRound` | src/app/components/SetupScreen.tsx:84-104 | succeeds iff the draws suffice; then names are kept in order, nobody has checked, exactly `imposterCount` distinct in-range seats are imposters, and they are the first distinct draws; the first speaker is 0 without the random setting, otherwise the next draw, in range |
| `Round.CoveringDrawsSuffice` | src/app/components/SetupScreen.tsx:92-104 | if the draws hit every seat and imposterCount <= playerCount-1, the deal succeeds, including the extra draw for a random first speaker |
| `Round.RoundCategory` | src/app/components/SetupScreen.tsx:111 | the entry's own category in classic mode, "Professional Athlete" in sports mode |
| `Round.Query` | src/app/components/SetupScreen.tsx:71-80 | the pool is asked by category exactly in classic mode, with the state's category, and otherwise with the selected sports |
| `Round.NewRound` | src/app/components/SetupScreen.tsx:66-113 | the new state is a dealt round within the configuration bounds; only roster, word, hint, category and speaker change, word, hint and category coming from the pool's answer to the state's query; the next round's query is by the drawn entry's category in classic mode and unchanged in sports mode; it is None exactly when the draws do not suffice |
| `SetupStep.ClampPlayerCount` | src/app/components/SetupScreen.tsx:34 | the result lies in [3,20] and equals the request when the request lies in range |
| `SetupStep.CapImposters` | src/app/components/SetupScreen.tsx:35 | the imposter count is at most newCount-1, unchanged if it already fits, and lowered to newCount-1 otherwise |
| `SetupStep.ClampImposterCount` | src/app/components/SetupScreen.tsx:47-50 | the result lies in [1, playerCount-1]; it equals the request when the request lies in range, is 1 for a request below 1, and playerCount-1 for a request above it |
| `SetupStep.WithPlayerCount` | src/app/components/SetupScreen.tsx:33-35 | keeps 1 <= imposterCount <= playerCount-1; the imposter count is kept if it still fits and lowered to newCount-1 otherwise; changes no other field |
| `SetupStep.WithImposterCount` | src/app/components/SetupScreen.tsx:47-51 | keeps the configuration bounds; the imposter count is the request when in range, 1 below it and playerCount-1 above it; changes no other field |
| `SetupStep.DefaultNamesDistinct` | src/app/components/SetupScreen.tsx:29 | the placeholder names "Player 1", "Player 2", ... are pairwise different |
| `SetupStep.ResizeNames` | src/app/components/SetupScreen.tsx:36-44 | the list has exactly newCount names, the prefix keeps the old names, and new slots are "Player i+1" |
| `SetupStep.Without` | src/app/components/SetupScreen.tsx:55 | the sport is gone, every other sport stays present or absent as before, and the list does not grow |
| `SetupStep.Toggle` | src/app/components/SetupScreen.tsx:53-56 | flips the membership of the pressed sport and no other |
| `SetupStep.ToggleAbsentTwice` | src/app/components/SetupScreen.tsx:53-56 | pressing an unselected sport twice restores the selection exactly |
| `SetupStep.TogglePresentTwice` | src/app/components/SetupScreen.tsx:53-56 | pressing a selected sport twice removes all its copies and puts it at the end |
| `SetupStep.CanStart` | src/app/components/SetupScreen.tsx:61-64 | classic mode can always start; sports mode can start iff some sport is selected |
| `SetupStep.InitialStateCanStart` | src/app/components/SetupScreen.tsx:61-64 | the state the menu creates passes the start guard in both modes |
| `SetupStep.SetupScreen.constructor` | src/app/components/SetupScreen.tsx:27-30 | the form starts from the given state with names "Player 1" .. "Player n" |
| `SetupStep.SetupScreen.UpdatePlayerCount` | src/app/components/SetupScreen.tsx:33-45 | the new state is `WithPlayerCount` of the old one, the names are resized to match, and the form invariant holds |
| `SetupStep.SetupScreen.UpdateImposterCount` | src/app/components/SetupScreen.tsx:47-51 | the new state is `WithImposterCount` of the old one; names unchanged |
| `SetupStep.SetupScreen.ToggleSport` | src/app/components/SetupScreen.tsx:53-58 | only the sport selection changes, by `Toggle` |
| `SetupStep.SetupScreen.RenamePlayer` | src/app/components/SetupScreen.tsx:217-221 | only the edited seat's name changes |
| `SetupStep.SetupScreen.HandleStartGame` | src/app/components/SetupScreen.tsx:60-114 | fails with NoSportSelected iff sports mode has no sport selected; otherwise fails with DrawsExhausted iff the draws do not suffice; on success the state is a dealt round over the current names, with the pool's entry for the form's query, and the next query asks for that entry's category in classic mode |
| `GamePhase.Acknowledge` | src/app/components/GameScreen.tsx:37-39 | the closed player is checked, keeps name and role, and every other player is unchanged |
| `GamePhase.AllPlayersChecked` | src/app/components/GameScreen.tsx:73 | the Reveal button is offered iff closing any player's overlay would change nothing, i.e. every player has looked |
| `GamePhase.AllCheckedIffCount` | src/app/components/GameScreen.tsx:73 | all players have checked iff the checked count equals the roster size |
| `GamePhase.AcknowledgeCount` | src/app/components/GameScreen.tsx:37-39 | closing raises the checked count by one for a player who had not looked, by zero otherwise |
| `GamePhase.AcknowledgeMonotone` | src/app/components/GameScreen.tsx:37-39 | no hasChecked goes from true to false, and the imposter seats do not change |
| `GamePhase.AcknowledgeKeepsRound` | src/app/components/GameScreen.tsx:37-39 | a dealt round stays a dealt round after a close |
| `GamePhase.EveryoneLookedThenReveal` | src/app/components/GameScreen.tsx:117-124 | once every unchecked player has closed their overlay, in any order, the Reveal button is offered |
| `GamePhase.SpeakerName` | src/app/components/GameScreen.tsx:88 | never empty; the current speaker's name when the index is on the roster and the name is non-empty, otherwise "Player 1" |
| `GamePhase.InfoCategory` | src/app/components/GameScreen.tsx:141 | the category in classic mode, "Sports" in sports mode |
| `GamePhase.GameScreen.constructor` | src/app/components/GameScreen.tsx:13 | no overlay is open at first |
| `GamePhase.GameScreen.HandlePlayerClick` | src/app/components/GameScreen.tsx:23-26 | a tap on a checked player leaves the selection unchanged; otherwise it selects that player; the game is untouched |
| `GamePhase.GameScreen.HandleCloseOverlay` | src/app/components/GameScreen.tsx:28-41 | with no selection nothing changes; otherwise only the selected player becomes checked; the selection is cleared; the checked count rises by at most one |
| `RevealPhase.Imposters` | src/app/components/RevealScreen.tsx:30 | the list holds only roster imposters, and every imposter on the roster appears in it |
| `RevealPhase.ImpostersAppend` | src/app/components/RevealScreen.tsx:30 | the filter works seat by seat: the list for a roster split in two is the list for the first part followed by that for the second |
| `RevealPhase.ImpostersOne` | src/app/components/RevealScreen.tsx:30 | one seat gives itself if it is an imposter and nothing otherwise; with the append law, one entry per imposter seat in seat order |
| `RevealPhase.ImposterIndicesDropLast` | src/app/components/RevealScreen.tsx:30 | the imposter seats of a roster are those of all but its last seat, plus the last seat if it holds an imposter |
| `RevealPhase.ImpostersCount` | src/app/components/RevealScreen.tsx:30 | the list has one entry per imposter seat |
| `RevealPhase.Summarize` | src/app/components/RevealScreen.tsx:108-159 | shows the word; shows the hint only when non-empty; lists the names of `Imposters` of the roster, one per imposter seat in seat order, so a name is listed iff some imposter has it; shows the category in classic mode and "Professional Athletes" in sports mode; shows the counts and the hard-mode flag; the heading is "IMPOSTERS" when more than one name is listed and "IMPOSTER" otherwise |
| `RevealPhase.SummaryImposterCount` | src/app/components/RevealScreen.tsx:124-136 | in a dealt round the summary lists exactly imposterCount names, under the plural heading iff imposterCount >= 2 |
| `RevealPhase.HandlePlayAgain` | src/app/components/RevealScreen.tsx:32-81 | names and seats kept, every hasChecked reset, exactly imposterCount imposters, mode/counts/settings/sports unchanged, category "Professional Athlete" in sports mode, speaker 0 unless random; word, hint and category come from the pool's answer to the round's own query, so after a classic round the pool is asked for the drawn entry's category; None exactly when the draws do not suffice |
| `RoleView.ToUpper` | src/app/components/RoleOverlay.tsx:36 | same length as the word, each letter upper-cased |
| `RoleView.ShowsCategory` | src/app/components/RoleOverlay.tsx:53 | always shown to non-imposters; never to imposters in hard mode; otherwise to imposters iff the category toggle is on |
| `RoleView.ShowsHint` | src/app/components/RoleOverlay.tsx:63 | never shown when the hint is empty; otherwise always to non-imposters, never to imposters in hard mode, and to other imposters iff the hint toggle is on |
| `RoleView.ShowsWordLength` | src/app/components/RoleOverlay.tsx:71 | shown only to imposters, and to them iff the word-length toggle is on |
| `RoleView.OverlayCategory` | src/app/components/RoleOverlay.tsx:57 | the game's category in classic mode, "Professional Athlete" in sports mode |
| `RoleView.ImposterNamesExcept` | src/app/components/RoleOverlay.tsx:15-17 | a name is listed iff some imposter has it and it differs from the viewer's name |
| `RoleView.ImposterNamesExceptAppend` | src/app/components/RoleOverlay.tsx:15-17 | the filter works seat by seat: the list for a roster split in two is the list for the first part followed by that for the second |
| `RoleView.ImposterNamesExceptOne` | src/app/components/RoleOverlay.tsx:16-17 | one seat gives its name iff it is an imposter not named like the viewer; with the append law, one entry per such seat in seat order, duplicates kept |
| `RoleView.ImposterNamesExceptNoneDropped` | src/app/components/RoleOverlay.tsx:15-17 | when no imposter bears the viewer's name, the list has one entry per imposter |
| `RoleView.ImposterNamesExceptOneDropped` | src/app/components/RoleOverlay.tsx:15-17 | when exactly one imposter seat bears the viewer's name, the list has one entry fewer than there are imposters |
| `RoleView.OtherImposters` | src/app/components/RoleOverlay.tsx:13-20 | empty unless the viewer is an imposter, imposters know each other and imposterCount >= 2; never contains the viewer's name; with the gate open it is exactly `ImposterNamesExcept` of the roster and the viewer's name |
| `RoleView.Disclose` | src/app/components/RoleOverlay.tsx:33-90 | label "IMPOSTER" or the upper-cased word; category shown iff not an imposter or (toggle and not hard mode); hint likewise with its toggle and a non-empty hint; word length iff imposter and toggle; the other-imposters list is `OtherImposters` |
| `RoleView.OtherImpostersHeading` | src/app/components/RoleOverlay.tsx:82 | exactly "OTHER IMPOSTER" for at most one listed name, and that text with a final "S" iff more than one name is listed |
| `RoleView.OtherImpostersCount` | src/app/components/RoleOverlay.tsx:13-20 | in a dealt round with pairwise distinct names, an imposter who is told about the others sees imposterCount-1 names, so the heading is plural iff at least three imposters were dealt |
| `RoleView.HardModeDominance` | src/app/components/RoleOverlay.tsx:53-63 | an imposter in hard mode sees neither category nor hint, whatever the toggles say |
| `RoleView.WordLengthIgnoresHardMode` | src/app/components/RoleOverlay.tsx:71 | the word-length line is the same with hard mode on or off |
| `RoleView.ImposterViewHidesWord` | src/app/components/RoleOverlay.tsx:34-76 | an imposter's overlay does not depend on the secret word, except for its length when that toggle is on |
| `RoleView.CrewSeesEverything` | src/app/components/RoleOverlay.tsx:36-68 | a non-imposter sees the word, the category, the hint if any, no length and no imposters |
| `RoleView.TwoImpostersSeeEachOther` | src/app/components/RoleOverlay.tsx:13-20 | with two differently named imposters who know each other, each sees exactly the other's name |
| `RoleView.SameNameImposterHidden` | src/app/components/RoleOverlay.tsx:16 | an imposter who shares the viewer's name is never listed to that viewer |
| `RoleView.OtherImpostersInSummary` | src/app/components/RoleOverlay.tsx:15-17 | every name an imposter is told about appears in the reveal screen's imposter list |
| `Session.App.constructor` | src/app/App.tsx:40-41 | the app starts on the menu with no game |
| `Session.App.HandleModeSelect` | src/app/App.tsx:43-65 | goes to setup with the initial state for the chosen mode |
| `Session.App.HandleStartGame` | src/app/App.tsx:67-70 | goes to the game screen with the dealt round |
| `Session.App.SetGameState` | src/app/App.tsx:93 | the game screen's write-back keeps the game screen and stores the new round |
| `Session.App.HandleReveal` | src/app/App.tsx:72-74 | goes to reveal, game unchanged, allowed only once all players have checked |
| `Session.App.HandleReturnToMenu` | src/app/App.tsx:76-79 | goes to the menu and drops the game |
| `Session.App.HandlePlayAgain` | src/app/App.tsx:81-84 | goes from reveal back to the game screen with the new round |

## Left out

- Randomness. `Math.random` is replaced by the `draws` parameter. The uniform choice of imposters, and the fact that the JavaScript loop ends with probability one, are probabilistic claims. They are not modelled. A finite draw list can run out. The model then reports it (`None`, `DrawsExhausted`), while the JavaScript keeps drawing.
- The word and athlete pools (`getRandomWord`, `getRandomAthlete` in `src/app/data`). They are not part of this model. They are the `pool` parameter, a function from the query (`Round.Query`) to an `Entry`; what entries a pool holds, and that its answers are random, is not modelled.
- Sound effects (`playSound`, Web Audio), the confetti, the pulse timer, the `alert` text, and all rendering and styling. MenuScreen.tsx is presentation only.
- The setup screen's category drop-down and the seven settings checkboxes. Each replaces one field of the state and holds no logic.
- RoleView.ToUpper: upper-cases ASCII letters only. JavaScript's `toUpperCase` also maps other scripts.
- RoleView.Disclose: the word length counts Dafny characters. JavaScript counts UTF-16 code units.
- GamePhase.GameScreen.HandleCloseOverlay: modelled on values. The source copies the array shallowly and writes `hasChecked` into the shared player object. The model does not capture that aliasing.
- GamePhase.GameScreen.HandlePlayerClick: takes only indices on the roster, as the tile grid does. The `?.` tolerance for other indices is not modelled.
- The game screen and the app are separate objects here. The game screen's write-back is `Session.App.SetGameState`, and the two are not linked by a shared reference.
- React state, props and re-rendering. Each component's state is a plain field of its class.
