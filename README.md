# Snake Q-learning game, modelled in Dafny

This project models the game core of a tabular Q-learning snake agent (`two.py`). It covers:

- a 10 × 10 board with a snake that starts as three cells in the middle, facing up;
- the relative actions straight, right and left;
- food that respawns on a free cell;
- a step budget of 200 moves without eating;
- episode rewards of −10 for death or timeout, +10 for food and −0.01 otherwise;
- an 8-field state key: three danger bits, four food-direction bits and the heading;
- a Q-table that creates a `[0, 0, 0]` entry when a state is first seen, and a greedy first-maximum action choice;
- the bookkeeping of the training loop: the score history, the epsilon schedule, and the plateau counter that stops training early.

The files follow the program's structure:

- `grid.dfy`:
  - module `Wrappers`, with `Option`;
  - module `Grid`: cells, headings, the move table, turning, free cells, and a proof that a body of `n` distinct board cells leaves exactly `100 − n` cells free.
- `encoder.dfy`: module `Encoder`, covering `is_danger` and `get_state`, plus lemmas on what the bits mean.
- `rules.dfy`: module `Rules`, the game as values.
  - `World` is the board part of the game object.
  - `Step` gives the result of one `step` for a given food cell `spawn_food` returns.
  - `WellFormed` is the board invariant.
  - The lemmas cover each exit of `step` and the invariant it keeps.
- `qtable.dfy`: module `QTable`, covering the lazy table operations and `index(max(...))`.
- `game.dfy`: module `Game`, class `SnakeGame`.
  - Its fields are those of the Python object.
  - Every method updates them in place and is proved to do what `Rules` and `QTable` say.
- `training.dfy`: module `Training`.
  - `Run` is the loop state after each episode.
  - `Train` is the loop itself, proved equal to `Run`.
  - Lemmas cover the plateau counter, `best_avg` and epsilon.

## Behaviour worth knowing

- **Moving onto the tail cell is fatal.** `step` tests the new head against the whole body, tail included (`two.py:97-99`). `is_danger`, however, leaves the tail out (`two.py:60`). So moving onto the cell the tail is about to vacate kills the snake even though its danger bit is 0. `Rules.TailCellIsFatalButNotDanger` exhibits such a board, and `Rules.DeathIsDangerOrTail` proves that a danger bit or the tail cell account for every death.
- **The timeout fires when the counter reaches `max_steps`.** The counter is incremented before the test, and the test is `steps >= max_steps` (`two.py:103, 115`), so the 200th move without food ends the episode.
- **`step` never returns when the snake fills the board.** If the snake eats while its body holds 99 cells, `spawn_food` keeps drawing occupied cells forever (`two.py:47-50`). `Rules.Step` returns `Diverged` there and `Game.SnakeGame.Step` returns `None`. `Rules.DivergesExactlyWhenBoardFills` proves that this is the only such case.

## Model

| member | source | states |
|---|---|---|
| Grid.Neighbour | two.py:92-94 | the `moves` table: the new head is one orthogonal step away, up and down change the row, right and left the column |
| Grid.Turn | two.py:86-89 | action 1 turns one quarter clockwise, action 2 one quarter counter-clockwise, any other action keeps the heading |
| Grid.TurnsCancel | two.py:86-89 | a right turn followed by a left turn (or the reverse) restores the heading |
| Grid.FreeCells | two.py:46-50 | the cells `spawn_food` may return are exactly the board cells not on the snake |
| Grid.FreeCellCount | two.py:46-50 | a snake of distinct board cells leaves exactly 100 − length free cells, so none are free exactly when it covers the board |
| Encoder.IsDanger | two.py:52-62 | 1 exactly when the neighbour of the head in that heading is off the board or equals a body cell other than the last; otherwise 0 |
| Encoder.GetState | two.py:64-82 | seven 0/1 fields and the heading itself; food-up and food-down are never both set, nor are food-left and food-right |
| Encoder.DangerBitMatchesTurn | two.py:66-75 | the straight, right and left danger bits are taken in the very heading the same action makes `step` turn to |
| Encoder.FoodBitMeansCloser | two.py:76-79 | a food bit is set exactly when one step in that heading brings the head closer to the food (Manhattan distance) |
| Encoder.FoodBitsClearOnlyAtHead | two.py:76-79 | all four food bits are 0 exactly when the food is on the head cell |
| Rules.StartSnake | two.py:37-38 | the three-cell start body with its head at the centre (5,5), on the board, distinct and connected |
| Rules.Reset | two.py:36-44 | the board after `reset`: three cells, heading up, score and step counter 0, the given food; it satisfies the board invariant exactly when that food is on a free cell |
| Rules.Reward | two.py:96-118 | the reward of each exit of `step`: +10 exactly when eating, −10 on death and on timeout, −0.01 on a plain move |
| Rules.Done | two.py:96-118 | the terminal flag is set exactly on the exits that pay −10 (death and timeout) |
| Rules.NextHead | two.py:86-94 | the cell the head moves to: one orthogonal step from the head, in the heading the action turns to, and straight ahead for action 0 |
| Rules.Reply | two.py:100-118 | the tuple `step` returns: a well-formed state key with the current heading, +10 exactly on eating, the terminal flag exactly when the reward is −10, and the current score |
| Rules.Step | two.py:84-118 | one `step` for the food cell `spawn_food` returns: the heading always turns, the result is `Died` exactly when the next head is off the board or on the body, otherwise the new head leads the body, the body never shrinks, and eating places the respawned food |
| Rules.ResetIsWellFormed | two.py:36-44 | after `reset` the snake is (5,5),(5,4),(5,3), and with food on a free cell the world satisfies the board invariant |
| Rules.StepDeath | two.py:96-100 | leaving the board or hitting any body cell returns a terminal −10 with only the heading changed, and only such moves return `Died` |
| Rules.StepPlainMove | two.py:102-118 | a move onto a free non-food cell prepends the head and drops the last cell (same length), keeps food and score, adds one to the step counter, and times out with −10 exactly when the counter reaches 200 (else −0.01, not terminal) |
| Rules.StepEating | two.py:102-110 | eating grows the snake by the food cell, adds one to the score, resets the counter, places the respawned food and returns +10, not terminal |
| Rules.StepEatingLastCell | two.py:106-110 | eating when no free cell remains leaves `step` looping inside `spawn_food` |
| Rules.GrowKeepsBody | two.py:102 | putting a free neighbouring board cell in front keeps the body distinct, on the board and connected |
| Rules.DropTailKeepsBody | two.py:112 | popping the last cell keeps the body distinct, on the board and connected, and frees that cell |
| Rules.StepPreservesWellFormed | two.py:84-118 | every returned step keeps the invariant: at least 3 distinct, connected board cells, food on a free board cell, score = length − 3 |
| Rules.GrowsExactlyWhenRewardIsTen | two.py:102-118 | the snake never shrinks, and grows by exactly one cell exactly when the reward is +10 |
| Rules.DivergesExactlyWhenBoardFills | two.py:106-108 | `step` fails to return exactly when the head takes the food while the body holds 99 cells |
| Rules.WellFormedLeavesRoom | two.py:46-50 | a well-formed snake is shorter than the board area (the food occupies a free cell) |
| Rules.DeathIsDangerOrTail | two.py:52-100 | an action kills exactly when its danger bit in the current key is 1 or it moves the head onto the current tail cell |
| Rules.TailCellIsFatalButNotDanger | two.py:97-99 | a concrete well-formed board where turning right onto the tail has danger bit 0 yet kills |
| Rules.EatAheadFromStart | two.py:106-110 | from the reset board with the food right ahead, going straight eats: +10, not terminal, score 1, length 4 |
| QTable.Zeros | two.py:121-122 | the entry a state gets when first seen: one value per action, all 0 |
| QTable.Touch | two.py:121-122 | an absent state gets `[0, 0, 0]`; a present state and every other entry stay as they were |
| QTable.Read | two.py:120-123 | `get_q_value` returns 0 for an unseen state and the stored value otherwise |
| QTable.Write | two.py:125-128 | `set_q_value` sets one slot and leaves every other state and every other action of that state as reading gave it |
| QTable.TouchIdempotent | two.py:120-123 | a second lazy insertion changes nothing |
| QTable.TouchKeepsShape | two.py:120-123 | lazy insertion keeps every entry of length 3 and changes no value that could already be read |
| QTable.ReadAfterWrite | two.py:125-128 | after a write, reading gives the written value at its slot and the old value everywhere else |
| QTable.Max | two.py:132 | `max` is an element of the list and bounds every element |
| QTable.IndexOf | two.py:132 | `index` gives the first position holding the value |
| QTable.BestAction | two.py:130-132 | the chosen index holds a maximum and every earlier index holds strictly less |
| QTable.BestActionIsFirstMaximum | two.py:130-132 | an index is the chosen one if and only if it is maximal with nothing maximal before it |
| QTable.FreshEntryGoesStraight | two.py:130-132 | on a never-written entry the choice is action 0, straight |
| Game.SnakeGame.constructor | two.py:32-34 | a new game has an empty table and a reset, well-formed board |
| Game.SnakeGame.SpawnFood | two.py:46-50 | returns a board cell off the snake, and returns nothing exactly when no such cell exists |
| Game.SnakeGame.Reset | two.py:36-44 | leaves the fields as `Rules.Reset` with food on a free cell, keeps the invariant and returns that board's key |
| Game.SnakeGame.Step | two.py:84-100 | the new fields are `Rules.Step` of the old ones with the food `spawn_food` chose; when it returns, the invariant holds and the reply is the key, reward, flag and score of that exit |
| Game.SnakeGame.Advance | two.py:102-118 | the part of `step` after the death check, with the same guarantee for an already turned board whose next head is safe |
| Game.SnakeGame.GetQValue | two.py:120-123 | the table becomes `Touch` of the old one and the value returned is `Read` of the old one |
| Game.SnakeGame.SetQValue | two.py:125-128 | the table becomes `Write` of the old one |
| Game.SnakeGame.GetBestAction | two.py:130-132 | the table is touched once, and the action is the first index holding the maximum of the three values |
| Training.Start | two.py:164-166 | the loop variables before the first episode: an empty history, `best_avg` 0, counter 0, not stopped (`Run` of no episodes) |
| Training.EpsilonAfter | two.py:163-192 | epsilon after n episodes: EPSILON_START decayed once per finished episode (its properties are in Training.EpsilonStaysInRange) |
| Training.Decay | two.py:192 | the new epsilon equals the floor or the decayed value, never drops below the floor nor rises, and strictly falls while above the floor |
| Training.WindowStart | two.py:218 | `scores[-100:]` covers the last 100 scores, or all of them when fewer |
| Training.RecentSum | two.py:218 | `sum(scores[-100:])`, the total of the last 100 scores (or of all when fewer) |
| Training.RecentAverage | two.py:218 | `recent_avg`: that total divided by 100, in exact arithmetic |
| Training.IsCheckpoint | two.py:217 | a plateau check follows episode `e` exactly when `(e + 1) % 500 == 0` and `e > 0` |
| Training.EndEpisode | two.py:216-226 | appends the score; at a check, a gain under 0.1 keeps `best_avg` and bumps the counter, stopping at 5, and otherwise the average becomes `best_avg` and the counter resets; there is no change between checks |
| Training.Run | two.py:168-226 | the loop variables after episodes 0 .. n−1, frozen once the loop has broken (its properties are in the Training.Run… lemmas below) |
| Training.Train | two.py:163-226 | the loop's final history, `best_avg`, counter and break flag are those of `Run` over 10000 episodes, and epsilon has decayed once per episode run |
| Training.RunStaysStopped | two.py:221-223 | after the `break` nothing changes any more |
| Training.RunScoresArePrefix | two.py:191 | the history is the scores of the episodes run, in order, one per episode until the break |
| Training.RunPlateauBound | two.py:219-223 | the counter stays within 0..5, and training stopped exactly when it reached 5 |
| Training.BestAverageNeverDecreases | two.py:165-226 | `best_avg` starts at 0 and never decreases |
| Training.EpsilonStaysInRange | two.py:163-192 | epsilon stays within 0.01..1, never rises, and strictly falls while above 0.01 |
| Training.PlateauNeedsChecks | two.py:216-223 | the counter is at most the number of checks passed, so training can only stop at a check and not before episode 2500 |
| Training.BestAverageIsHundredths | two.py:217-225 | `best_avg` is always a whole number of hundredths |
| Training.PlateauTestInIntegers | two.py:218-219 | with `best_avg` = k/100, the plateau test holds exactly when the window sum is below k + 10 |
| Training.ZeroScoresStopAtFirstChance | two.py:216-223 | an agent that never scores gets one plateau per check and stops after exactly 2500 episodes |

## Left out

- Drawing, the demo and the entry point (`render`, `demo_agent`, `main`, `two.py:134-158, 239-328`): pygame, console input and output, and frame pacing.
- Saving and loading the Q-table with pickle (`two.py:211-212, 229-230`): file I/O through a foreign library.
- The body of an episode (`two.py:169-189`): the epsilon-greedy choice of `random.random()`, and the Q-update formula at line 186, which is float arithmetic. `Training.Train` takes the score each episode ends with as an input instead.
- Progress printing every 100 episodes and the demo prompt (`two.py:195-214`): reporting and console input only.
- Game.SnakeGame.SpawnFood: the retry loop over random cells (`two.py:47-50`) is replaced by a choice among the free cells; the loop only ends with probability 1, and which cell it finds is random.
- Game.SnakeGame.GetQValue, Game.SnakeGame.SetQValue: these require an action in 0..2. Python would also accept −3..−1 through negative indexing and raise an error for other values; the agent only passes 0..2.
- Training.Decay, Training.EndEpisode: epsilon and the averages are exact reals, not IEEE doubles, so rounding is not modelled. The one visible effect is at the plateau boundary: when the gain is exactly 0.1 (window sum − 100 · best_avg = 10), doubles can make the difference fall just below 0.1 (`0.3 - 0.2 < 0.1` holds in IEEE arithmetic). The program then counts a plateau where the model resets the counter; Training.PlateauTestInIntegers states the exact-arithmetic test.
- `self.max_steps` (`two.py:43`) is reassigned in `reset` but always to the same value; it is the constant `Grid.MaxSteps`.
