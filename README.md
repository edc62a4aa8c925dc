# Valentine mini-games, modelled in Dafny

The valentine app is a short journey through six screens. Some of those screens
hold small games or widgets with real logic. This project models that logic and
proves what the components promise:

- **Maze** (`maze.dfy`, class `Maze.MazeGame`). The mounted game stands on a
  fixed 13 × 16 layout. `FindFirst` finds the start `S` and the goal `G` by
  nested row-major loops with an early return. `BuildPatrol` builds the
  patrolling "titan" path by nested loops that push candidates. The player
  moves with the arrow or WASD keys. A move is refused after a win, off the
  grid or into a wall. Stepping onto the titan sends the player back to the
  start. The titan advances one path cell per patrol tick.
- **Heart catcher** (`catcher.dfy`, class `Catcher.CatcherGame`). Hearts and
  bombs are spawned in pairs and fall by their own speed. Each tick classifies
  every item as caught, missed or remaining (`Classify`). Caught items are then
  deduplicated against the set of processed ids (`RecordCaught`). Finally the
  score, the lives and the status are updated. `Tick` is proved equal to the
  pure `TickSpec`, and the lemmas about it carry the game's invariants.
- **Memory** (`memory.dfy`, class `Memory.MemoryGame`). Sixteen cards, two per
  icon, sit in an array that is updated in place. A click is guarded, turns a
  card face up and locks the board at two cards. The delayed resolution either
  marks the pair matched or turns both cards face down. The methods are proved
  equal to the pure `AfterClick` and `AfterTimeout`, and the lemmas about those
  two carry the invariant.
- **Countdown** (`countdown.dfy`). The millisecond distance to the target date
  is split into days, hours, minutes and seconds, and each field is shown padded
  to two digits.
- **Stage sequence** (`stages.dfy`). `nextStage` follows the order landing →
  proposal → game → gallery → notes → dashboard.
- **Dashboard toggles** (`dashboard.dfy`), **love notes** (`love_notes.dfy`),
  **sparkle trail** (`sparkle_trail.dfy`) and the **tap-the-hearts game**
  (`heart_game.dfy`). These are small list updates.

`lists.dfy` holds the array helpers the components rely on: `filter`,
removal of an id, `slice(-n)` and `indexOf`.

Parameters stand in for randomness and clocks. All random draws of one spawn
form `Catcher.Draws`, with each draw in [0, 1). The shuffle of the memory deck
is a permutation of the sixteen positions. `Date.now()` is a `now` argument.
Timers become explicit methods that the caller invokes in sequence:
`PatrolTick`, `Tick`, `Spawn` and `Timeout`. Pointer and key events become
`PointerMove` and `KeyDown`.

Two behaviours of the code shape the model:

- A catcher tick whose catches both reach the target score and use up the last
  life ends **lost**, even though the score is at the target. The score update
  runs first and the lives update second, and the later `setGameStatus('lost')`
  wins (`HeartCatcherGame.tsx:125-141`).
- The catcher's win callback `onWin` is fired only by the button of the "won"
  overlay (`HeartCatcherGame.tsx:269`). No game logic calls it.

## Model

| member | source | states |
|---|---|---|
| Maze.FindFirst | valentine-main/valentine-main/app/components/MazeGame.tsx:27-43 | when the character occurs, the result is its first cell in row-major order; otherwise it is the fallback cell |
| Maze.FirstUnique | valentine-main/valentine-main/app/components/MazeGame.tsx:27-43 | only one cell can be the first occurrence, so the search result is determined |
| Maze.LayoutRectangular | valentine-main/valentine-main/app/components/MazeGame.tsx:4-25 | the layout has 13 rows of 16 columns |
| Maze.LayoutStartGoal | valentine-main/valentine-main/app/components/MazeGame.tsx:4-43 | in the layout the first `S` is at (1,1) and the first `G` is at (13,11), so neither fallback is taken |
| Maze.LayoutMarks | valentine-main/valentine-main/app/components/MazeGame.tsx:4-18 | the layout marks exactly one start cell and exactly one goal cell |
| Maze.LayoutOccurs | valentine-main/valentine-main/app/components/MazeGame.tsx:27-43 | both searches find their character in the layout |
| Maze.LayoutSearches | valentine-main/valentine-main/app/components/MazeGame.tsx:27-43 | any result the searches may return on the layout is (1,1) for the start and (13,11) for the goal; the start is open and differs from the goal |
| Maze.BuildPatrol | valentine-main/valentine-main/app/components/MazeGame.tsx:45-60 | the nested candidate loops compute exactly `PatrolPath`: the qualifying cells row by row, or the single fallback cell |
| Maze.RowScanSound | valentine-main/valentine-main/app/components/MazeGame.tsx:48-57 | every cell a row scan yields is in that row, is before the scanned column and passes all five filters |
| Maze.RowScanComplete | valentine-main/valentine-main/app/components/MazeGame.tsx:48-57 | every qualifying cell of the scanned part of a row is yielded |
| Maze.RowScanOrdered | valentine-main/valentine-main/app/components/MazeGame.tsx:48-57 | a row scan yields cells left to right |
| Maze.ScanSound | valentine-main/valentine-main/app/components/MazeGame.tsx:47-58 | every scanned cell is in bounds, in the scanned rows, and qualifies |
| Maze.ScanComplete | valentine-main/valentine-main/app/components/MazeGame.tsx:47-58 | every qualifying cell of the scanned rows is a candidate |
| Maze.ScanOrdered | valentine-main/valentine-main/app/components/MazeGame.tsx:47-58 | the candidates come in row-major order |
| Maze.PatrolPathSpec | valentine-main/valentine-main/app/components/MazeGame.tsx:45-60 | the patrol path is never empty; it is row-major; it contains every qualifying cell; it holds only qualifying cells unless none qualifies, in which case it is exactly `[(max(goal.x-2,1), goal.y)]` |
| Maze.PatrolAvoidsStartAndGoal | valentine-main/valentine-main/app/components/MazeGame.tsx:49-55 | a candidate is open, is neither the start nor the goal, is 2 to 4 steps from the goal and at least 6 from the start |
| Maze.LayoutPatrolIsScan | valentine-main/valentine-main/app/components/MazeGame.tsx:45-60 | on the layout some cell qualifies, for example (14,10), so the fallback is not used |
| Maze.Neighbour | valentine-main/valentine-main/app/components/MazeGame.tsx:89-90 | a move targets the cell at Manhattan distance exactly 1 |
| Maze.KeyDirectionSpec | valentine-main/valentine-main/app/components/MazeGame.tsx:118-125 | a key moves in a direction exactly when its lower-cased name is one of that direction's two names; every other key moves nowhere |
| Maze.CellTypeAgrees | valentine-main/valentine-main/app/components/MazeGame.tsx:132-137 | a cell is drawn as a wall exactly when moves treat it as a wall; on the layout only (1,1) is drawn as the start and only (13,11) as the goal |
| Maze.MazeGame.constructor | valentine-main/valentine-main/app/components/MazeGame.tsx:23-65 | the mounted state: the layout, the first `S` and `G`, the patrol path, the player on the start, both flags off, the patrol at index 0 |
| Maze.MazeGame.TryMove | valentine-main/valentine-main/app/components/MazeGame.tsx:86-103 | after a win, off the grid or into a wall nothing changes; onto the titan's cell the player returns to the start with `hitTitan` set and the win cleared; otherwise the player steps there and `hitTitan` clears; the patrol index is never touched |
| Maze.MazeGame.WinEffect | valentine-main/valentine-main/app/components/MazeGame.tsx:105-109 | standing on the goal sets the win flag, which is never cleared here |
| Maze.MazeGame.Move | valentine-main/valentine-main/app/components/MazeGame.tsx:86-109 | a move followed by the win effect: a step onto the goal wins, any other outcome is as for `TryMove` |
| Maze.MazeGame.KeyDown | valentine-main/valentine-main/app/components/MazeGame.tsx:118-125 | an unmapped key changes nothing; a mapped key makes exactly the move of its direction: refused after a win or into a wall or off the grid, back to the start onto the titan, otherwise one step, winning exactly on the goal; the player stays on an open cell and the patrol index is untouched |
| Maze.MazeGame.PatrolTick | valentine-main/valentine-main/app/components/MazeGame.tsx:111-116 | the patrol index moves one step and wraps round the path; the player and the flags are untouched |
| Maze.MazeGame.Reset | valentine-main/valentine-main/app/components/MazeGame.tsx:79-84 | the player is back on the start, both flags are off and the patrol is at index 0 |
| Maze.MazeGame.Dismiss | valentine-main/valentine-main/app/components/MazeGame.tsx:236 | "Maybe later" clears the win flag and nothing else |
| Catcher.AdvanceFalls | valentine-main/valentine-main/app/components/HeartCatcherGame.tsx:97 | each item falls by exactly its own speed and nothing else about it changes |
| Catcher.ExactlyOneBranch | valentine-main/valentine-main/app/components/HeartCatcherGame.tsx:106-114 | each item takes exactly one of the caught, missed and remaining branches |
| Catcher.Partition | valentine-main/valentine-main/app/components/HeartCatcherGame.tsx:102-114 | caught, missed and remaining together hold every advanced item exactly as often as it occurs |
| Catcher.Classify | valentine-main/valentine-main/app/components/HeartCatcherGame.tsx:102-114 | the `forEach` loop builds each of the three lists as the in-order filter of the advanced items by its branch test |
| Catcher.IdsMember | valentine-main/valentine-main/app/components/HeartCatcherGame.tsx:117-121 | an id is recorded exactly when some caught item carries it |
| Catcher.UniqueSpec | valentine-main/valentine-main/app/components/HeartCatcherGame.tsx:117-121 | the dedup keeps caught items only; it never keeps an already processed id or the same id twice; the ids it keeps are exactly the caught ids not processed before |
| Catcher.CatcherGame.RecordCaught | valentine-main/valentine-main/app/components/HeartCatcherGame.tsx:117-121 | the dedup loop returns `Unique` of the caught items and adds every caught id to the processed set |
| Catcher.ScoreUpdate | valentine-main/valentine-main/app/components/HeartCatcherGame.tsx:125-133 | the score never falls and never passes 10; it is `min(10, score + hearts)`; it reaches 10 exactly when the sum does |
| Catcher.LivesUpdate | valentine-main/valentine-main/app/components/HeartCatcherGame.tsx:135-141 | lives never rise and never drop below 0; they are `max(0, lives - bombs)`; they reach 0 exactly when the difference does |
| Catcher.TickKeepsConsistent | valentine-main/valentine-main/app/components/HeartCatcherGame.tsx:93-146 | a tick keeps the counters in range and the status in agreement with them; the score only rises and the lives only fall; a target score ends the game, and 0 lives ends it lost; a finished game does not tick |
| Catcher.TickBookkeeping | valentine-main/valentine-main/app/components/HeartCatcherGame.tsx:95-145 | only the remaining items survive; every caught id is recorded; the counted ids are exactly the caught ids not processed before; caught, missed and surviving items partition the advanced items |
| Catcher.SpawnPairSpec | valentine-main/valentine-main/app/components/HeartCatcherGame.tsx:57-83 | a spawn yields a heart then a bomb, both at y = -10; both x lie in [7,93] with the heart no further right; they share a speed in [0.75,1.30) and a size in [20,34) |
| Catcher.ClampCatcherSpec | valentine-main/valentine-main/app/components/HeartCatcherGame.tsx:41-42 | on a field at least 80 px wide the target stays 40 px inside both edges and is the pointer position when that is inside; on a narrower field it is 40 |
| Catcher.CatcherGame.constructor | valentine-main/valentine-main/app/components/HeartCatcherGame.tsx:22-30 | a fresh game has score 0, 3 lives, no items, status playing, no processed ids and the catcher at half the window width |
| Catcher.CatcherGame.PointerMove | valentine-main/valentine-main/app/components/HeartCatcherGame.tsx:33-44 | without a field or outside play the target is unchanged; otherwise it is the clamped pointer position |
| Catcher.CatcherGame.Spawn | valentine-main/valentine-main/app/components/HeartCatcherGame.tsx:55-84 | while playing the spawned pair is appended; otherwise nothing changes |
| Catcher.CatcherGame.ApplyCatches | valentine-main/valentine-main/app/components/HeartCatcherGame.tsx:125-141 | the score becomes `ScoreAfter`, the lives `LivesAfter` and the status `StatusAfter` of the counted hearts and bombs, the lives update having the last word on the status |
| Catcher.CatcherGame.Tick | valentine-main/valentine-main/app/components/HeartCatcherGame.tsx:92-149 | the new state is `TickSpec` of the old state and the invariant is kept |
| Catcher.CatcherGame.Restart | valentine-main/valentine-main/app/components/HeartCatcherGame.tsx:157-163 | score 0, 3 lives, no items, status playing and an empty dedup record |
| Memory.DeckShape | valentine-main/valentine-main/app/components/MemoryGame.tsx:25-38 | the dealt deck has 16 cards; card k has id k and an icon index in 0..7; no card is face up or matched; the fresh deck is not won |
| Memory.DeckPairs | valentine-main/valentine-main/app/components/MemoryGame.tsx:26-36 | for every shuffle, each icon index occurs on exactly two cards |
| Memory.InitialInv | valentine-main/valentine-main/app/components/MemoryGame.tsx:21-38 | the empty board and the dealt board satisfy the invariant |
| Memory.ClickIgnored | valentine-main/valentine-main/app/components/MemoryGame.tsx:41 | a click while locked, or on a face-up or matched card, changes nothing |
| Memory.ClickFlips | valentine-main/valentine-main/app/components/MemoryGame.tsx:43-52 | an accepted click turns exactly that card face up, appends its index and locks the board exactly when it is the second card |
| Memory.ClickKeepsInv | valentine-main/valentine-main/app/components/MemoryGame.tsx:40-81 | a click keeps the invariant: at most two distinct in-range indices, which are exactly the face-up unmatched cards; locked exactly at two; a resolution scheduled exactly when locked, matching the pair's icons |
| Memory.TimeoutMatch | valentine-main/valentine-main/app/components/MemoryGame.tsx:55-66 | resolving an equal-icon pair marks both cards matched, leaves every other card alone, empties the list and unlocks |
| Memory.TimeoutMismatch | valentine-main/valentine-main/app/components/MemoryGame.tsx:67-79 | resolving a mismatched pair turns both cards face down, leaves every other card alone, empties the list and unlocks |
| Memory.TimeoutKeepsInv | valentine-main/valentine-main/app/components/MemoryGame.tsx:55-79 | the resolution keeps the invariant |
| Memory.MatchedStays | valentine-main/valentine-main/app/components/MemoryGame.tsx:40-83 | clicks and resolutions keep the deck size and the icons, and a matched card stays matched |
| Memory.WonIsFinal | valentine-main/valentine-main/app/components/MemoryGame.tsx:83 | a won board that keeps the invariant has no face-up unmatched card, is unlocked with nothing scheduled, and ignores every click |
| Memory.MismatchRestores | valentine-main/valentine-main/app/components/MemoryGame.tsx:40-79 | from a settled board, clicking two cards with different icons and resolving gives back the same board |
| Memory.MemoryGame.constructor | valentine-main/valentine-main/app/components/MemoryGame.tsx:21-23 | the first render has no cards, no face-up indices, no lock and nothing scheduled |
| Memory.MemoryGame.Deal | valentine-main/valentine-main/app/components/MemoryGame.tsx:25-38 | the mount effect installs a fresh array holding the dealt deck |
| Memory.MemoryGame.CardClick | valentine-main/valentine-main/app/components/MemoryGame.tsx:40-81 | the in-place update yields `AfterClick` of the old board and keeps the invariant |
| Memory.MemoryGame.Timeout | valentine-main/valentine-main/app/components/MemoryGame.tsx:57-78 | the in-place update yields `AfterTimeout` of the old board and keeps the invariant |
| Memory.MemoryGame.IsGameWon | valentine-main/valentine-main/app/components/MemoryGame.tsx:83 | won exactly when the deck is non-empty and every card is matched; a won game that keeps the invariant has no face-up unmatched card, is unlocked with nothing scheduled, and every further click leaves its state unchanged |
| Countdown.Split | valentine-main/valentine-main/app/components/Countdown.tsx:13-24 | no reading exactly when the distance is negative |
| Countdown.OnTick | valentine-main/valentine-main/app/components/Countdown.tsx:13-24 | the interval keeps running exactly when it records a reading |
| Countdown.NegativeStops | valentine-main/valentine-main/app/components/Countdown.tsx:13-17 | a negative distance shows nothing and stops the interval |
| Countdown.SplitExact | valentine-main/valentine-main/app/components/Countdown.tsx:19-24 | for a distance of at least 0, hours < 24, minutes < 60 and seconds < 60, and days·86400000 + hours·3600000 + minutes·60000 + seconds·1000 lies within 1000 ms below the distance |
| Countdown.SplitUnique | valentine-main/valentine-main/app/components/Countdown.tsx:19-24 | the split is the only in-range reading that accounts for the distance, so it inverts `Total` |
| Countdown.SplitZero | valentine-main/valentine-main/app/components/Countdown.tsx:13-24 | a distance of 0 reads all zeros and is not the arrived case |
| Countdown.DecimalValue | valentine-main/valentine-main/app/components/Countdown.tsx:35 | `String(n)` is all digits with no leading zero except for 0 itself; it has one digit below 10, two from 10 to 99 and at least two from 10 up; it reads back as n |
| Countdown.LeadingZero | valentine-main/valentine-main/app/components/Countdown.tsx:35 | a padding zero does not change the value shown |
| Countdown.DisplayShape | valentine-main/valentine-main/app/components/Countdown.tsx:35-48 | each field shows at least two characters: the decimal digits preceded only by '0' padding, `0d` below 10, the plain digits from 10 up with no leading zero, exactly two characters below 100; it reads back as the value |
| Countdown.FieldsShape | valentine-main/valentine-main/app/components/Countdown.tsx:33-49 | the four fields read back as days, hours, minutes and seconds; each is all digits; hours, minutes and seconds show exactly two characters and the days at least two |
| Stages.OrderIsComplete | valentine-main/valentine-main/app/App.tsx:24 | every stage occurs exactly once in the sequence |
| Stages.IndexOfOrder | valentine-main/valentine-main/app/App.tsx:25 | `indexOf` finds each stage at its own position |
| Stages.NextIsSuccessor | valentine-main/valentine-main/app/App.tsx:23-28 | each stage before the dashboard moves to its successor in landing → proposal → game → gallery → notes → dashboard |
| Stages.DashboardIsFixedPoint | valentine-main/valentine-main/app/App.tsx:26-28 | the step leaves a stage in place exactly when it is the dashboard |
| Stages.Position | valentine-main/valentine-main/app/App.tsx:24-25 | the position of a stage is a valid index holding that stage |
| Stages.StepAdvances | valentine-main/valentine-main/app/App.tsx:23-28 | a step moves forward by exactly one position, except at the dashboard, where it stays |
| Stages.StepsFromLanding | valentine-main/valentine-main/app/App.tsx:23-28 | from the landing screen, n ≤ 5 steps reach position n, and the dashboard is reached after exactly five steps |
| Dashboard.ToggleAbsent | valentine-main/valentine-main/app/components/Dashboard.tsx:24 | an absent id is appended at the end |
| Dashboard.TogglePresent | valentine-main/valentine-main/app/components/Dashboard.tsx:24 | a present id is removed everywhere and the rest keeps its order |
| Dashboard.ToggleFlipsMembership | valentine-main/valentine-main/app/components/Dashboard.tsx:23-29 | a toggle flips the membership of the toggled id and of no other id |
| Dashboard.ToggleTwice | valentine-main/valentine-main/app/components/Dashboard.tsx:23-29 | toggling an absent id twice gives the list back |
| Dashboard.ToggleKeepsDistinct | valentine-main/valentine-main/app/components/Dashboard.tsx:23-29 | a duplicate-free list stays duplicate-free |
| Dashboard.ToggleGift | valentine-main/valentine-main/app/components/Dashboard.tsx:23-25 | only the gift list changes, and the gift's membership flips |
| Dashboard.ToggleMemoryFlip | valentine-main/valentine-main/app/components/Dashboard.tsx:27-29 | only the memory list changes, and the memory's membership flips |
| Dashboard.TogglesIndependent | valentine-main/valentine-main/app/components/Dashboard.tsx:23-29 | the two toggles commute |
| LoveNotes.RevealCases | valentine-main/valentine-main/app/components/LoveNotes.tsx:15-20 | an unrevealed id is appended; a revealed one changes nothing |
| LoveNotes.RevealIdempotent | valentine-main/valentine-main/app/components/LoveNotes.tsx:15-20 | revealing twice is revealing once |
| LoveNotes.RevealGrows | valentine-main/valentine-main/app/components/LoveNotes.tsx:15-20 | nothing is ever un-revealed; the id is revealed afterwards; the list stays duplicate-free |
| LoveNotes.RevealReachable | valentine-main/valentine-main/app/components/LoveNotes.tsx:15-20 | clicking a note keeps the list duplicate-free and made of note ids |
| LoveNotes.DistinctCard | valentine-main/valentine-main/app/components/LoveNotes.tsx:22 | a duplicate-free list is as long as its set of ids |
| LoveNotes.LeftAndAllRevealed | valentine-main/valentine-main/app/components/LoveNotes.tsx:22 | for a reachable list the "left to read" count is never negative, and the way on unlocks exactly when all four notes are revealed |
| SparkleTrail.AddSparkleShape | valentine-main/valentine-main/app/components/SparkleTrail.tsx:20 | after a move the trail has at most 16 sparkles: the last min(15, n) earlier ones in their order, then the new one |
| SparkleTrail.AddSparkleShort | valentine-main/valentine-main/app/components/SparkleTrail.tsx:20 | a trail shorter than 15 is kept whole |
| SparkleTrail.PruneKeepsYoung | valentine-main/valentine-main/app/components/SparkleTrail.tsx:29 | the prune keeps exactly the sparkles younger than 500 ms |
| SparkleTrail.PruneInOrder | valentine-main/valentine-main/app/components/SparkleTrail.tsx:29 | the kept sparkles stay in order |
| SparkleTrail.PruneIdempotent | valentine-main/valentine-main/app/components/SparkleTrail.tsx:29 | for a fixed clock, pruning twice is pruning once, and the trail never grows |
| SparkleTrail.PruneFresh | valentine-main/valentine-main/app/components/SparkleTrail.tsx:29 | a trail of fresh sparkles loses nothing |
| HeartGame.RemoveHeartMembers | valentine-main/valentine-main/app/components/HeartGame.tsx:46 | removal drops every heart with that id and keeps every other heart |
| HeartGame.RemoveHeartInOrder | valentine-main/valentine-main/app/components/HeartGame.tsx:46 | removal keeps the order of the remaining hearts |
| HeartGame.CollectEffect | valentine-main/valentine-main/app/components/HeartGame.tsx:44-48 | a tap adds exactly one point, with no cap, and removes the heart |
| HeartGame.AnimationCompleteEffect | valentine-main/valentine-main/app/components/HeartGame.tsx:71-73 | the end of the fall removes the heart as a tap would and leaves the score alone |
| HeartGame.SpawnEffect | valentine-main/valentine-main/app/components/HeartGame.tsx:22-30 | a spawn appends exactly the new heart at the end and leaves the score alone |
| HeartGame.CollectAllScore | valentine-main/valentine-main/app/components/HeartGame.tsx:44-45 | a run of taps adds one point per tap |
| HeartGame.WinAfterTenTaps | valentine-main/valentine-main/app/components/HeartGame.tsx:37-45 | from score 0, the win fires after a run of taps exactly when the run has ten taps, so not before the tenth and not again after an eleventh |

## Left out

- Rendering is not modelled: JSX, framer-motion animations and the catcher's spring smoothing. The catcher's position enters `Tick` as the spring's current value.
- Audio (`playPop`, `playSuccess` and the sound-effects module) is not modelled; it is output only.
- Randomness and clocks are parameters. `Math.random` draws are `Catcher.Draws` values, the memory shuffle is a permutation, and `Date.now()` is a `now` argument. The shuffle is not drawn from any distribution.
- Timers (`setInterval`, `setTimeout`) and their periods (650 ms, 700 ms, 16 ms, 500 ms and 1000 ms) are not modelled. Each timer body is a method the caller invokes. React batching and StrictMode double updates are not modelled.
- The catcher's win callback is left out. The app binds it to `nextStage` (`App.tsx:99`), which `Stages` models.
- The memory game's delayed `onWin` and the tap game's delayed `onWin` are left out. The app never mounts `MemoryGame` or `HeartGame` (`App.tsx:5-14`, and `Dashboard.tsx:15` imports only `MazeGame`), so in this repository their `onWin` is bound to nothing.
- `getBoundingClientRect` and the DOM are parameters. `PointerMove` receives whether the field exists, its left edge and its width. `Tick` receives the width, which the component reads as 0 when the field is missing.
- Maze.MazeGame.constructor: the class is built for the fixed layout only; the search and patrol methods are proved for any rectangular grid.
- Maze.LowerChar: `toLowerCase` is modelled for ASCII letters only; other characters are unchanged.
- Maze.MazeGame.Move: the win effect is modelled as running when the position value changes. The component runs it when React sees a new position object. The two agree here: a titan hit never happens next to the start, and the start is not the goal.
- Memory.MemoryGame.CardClick: the shared card objects between the old and the new card arrays are modelled as one array updated in place. A card value is a datatype, so object aliasing beyond that is not modelled.
- Memory.IsShuffle: the random-comparator sort is modelled only as some permutation of the doubled icon list.
- Catcher.CatcherGame.Tick: item positions are exact reals; JavaScript's floating-point rounding is not modelled.
- Catcher.SpawnPair: both ids are built from one `now` and are exact reals. The component calls `Date.now()` for each item and adds `Math.random()` as a float, so its two ids could round to the same value. The model does not capture that rounding.
- SparkleTrail.Prune: the prune reads one `now` for the whole filter. The component calls `Date.now()` for each sparkle (`SparkleTrail.tsx:29`), so the clock may advance while it filters; the model does not capture that.
- A scenario lemma on the concrete maze layout is not part of this model, for example three steps right from the start. Unfolding the patrol search of the 13 × 16 layout in such a proof is too costly, so the layout facts are stated only by `LayoutSearches`, `LayoutMarks` and `LayoutPatrolIsScan`.
- Static content (`constants.ts`, `types.ts`) and the presentation-only screens are not modelled. The model uses the four note ids and the six stages as constants.
