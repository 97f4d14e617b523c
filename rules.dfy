/**
 * The game rules as values: the world after `reset` and the world after one `step`.
 * The class in module Game is proved to follow these definitions.
 */
module Rules {
  import opened Grid
  import opened Encoder

  /** What `reset` and `step` leave in the fields of the game object (the Q-table aside). */
  datatype World = World(snake: seq<Cell>, food: Cell, direction: Direction, score: int, steps: int)

  /** Which exit of `step` was taken. */
  datatype Outcome = Died | Ate | Moved | TimedOut

  /** The tuple `step` returns: next state key, reward, terminal flag, score. */
  datatype StepResult = StepResult(state: StateKey, reward: real, done: bool, score: int)

  /**
   * One call of `step`: either it returns, leaving `world`, or it never returns because
   * no cell is left for `spawn_food` to find; `world` is then the state it loops in.
   */
  datatype Transition = Returned(world: World, outcome: Outcome) | Diverged(world: World)

  /** The three-cell snake `reset` places at the centre, head first, facing up. */
  function StartSnake(): (s: seq<Cell>)
    ensures |s| == 3 && s[0] == Cell(GridSize / 2, GridSize / 2)
    ensures AllInBounds(s) && Distinct(s) && Connected(s)
  {
    var center := GridSize / 2;
    [Cell(center, center), Cell(center, center - 1), Cell(center, center - 2)]
  }

  /** The world `reset` produces once `spawn_food` has returned `food`. */
  function Reset(food: Cell): (w: World)
    ensures |w.snake| == 3 && w.food == food && w.direction == 0 && w.score == 0 && w.steps == 0
    ensures WellFormed(w) <==> food in FreeCells(StartSnake())
  {
    World(StartSnake(), food, 0, 0, 0)
  }

  /** The invariant every returned `reset` and `step` keeps. */
  predicate WellFormed(w: World) {
    && |w.snake| >= 3
    && AllInBounds(w.snake)
    && Distinct(w.snake)
    && Connected(w.snake)
    && InBounds(w.food)
    && w.food !in w.snake
    && w.score == |w.snake| - 3
    && w.steps >= 0
  }

  /** The reward `step` pays on each exit. */
  function Reward(o: Outcome): (r: real)
    ensures r == 10.0 <==> o == Ate
    ensures o != Ate ==> r < 0.0
    ensures o == Died ==> r == -10.0
    ensures o == TimedOut ==> r == -10.0
    ensures o == Moved ==> r == -0.01
  {
    match o
    case Died => -10.0
    case Ate => 10.0
    case Moved => -0.01
    case TimedOut => -10.0
  }

  /** The episode ends exactly on the two exits that pay -10. */
  function Done(o: Outcome): (d: bool)
    ensures d <==> Reward(o) == -10.0
  {
    o == Died || o == TimedOut
  }

  /** What `step` returns once it has left the world `w` by exit `o`. */
  function Reply(w: World, o: Outcome): (r: StepResult)
    requires |w.snake| > 0
    ensures WellFormedKey(r.state) && r.state.direction == w.direction
    ensures r.reward == 10.0 <==> o == Ate
    ensures r.done <==> r.reward == -10.0
    ensures r.score == w.score
  {
    StepResult(GetState(w.snake, w.food, w.direction), Reward(o), Done(o), w.score)
  }

  /** The cell the head moves to under `action`. */
  function NextHead(w: World, action: int): (h: Cell)
    requires |w.snake| > 0
    ensures Distance(w.snake[0], h) == 1
    ensures action == 0 ==> h == Neighbour(w.snake[0], w.direction)
  {
    Neighbour(w.snake[0], Turn(w.direction, action))
  }

  /** `step(action)`; `respawn` stands for the cell `spawn_food` returns if the snake eats. */
  function Step(w: World, action: int, respawn: Cell): (t: Transition)
    requires |w.snake| > 0
    ensures t.world.direction == Turn(w.direction, action)
    ensures (t.Returned? && t.outcome == Died) <==> !InBounds(NextHead(w, action)) || NextHead(w, action) in w.snake
    ensures |t.world.snake| >= |w.snake|
    ensures !(t.Returned? && t.outcome == Died) ==> t.world.snake[0] == NextHead(w, action)
    ensures t.Returned? && t.outcome == Ate ==> t.world.food == respawn
  {
    var d := Turn(w.direction, action);
    var h := Neighbour(w.snake[0], d);
    if !InBounds(h) || h in w.snake then
      Returned(w.(direction := d), Died)
    else
      var grown := [h] + w.snake;
      if h == w.food then
        if FreeCells(grown) == {} then
          Diverged(World(grown, w.food, d, w.score + 1, w.steps + 1))
        else
          Returned(World(grown, respawn, d, w.score + 1, 0), Ate)
      else
        var moved := grown[..|grown| - 1];
        var steps := w.steps + 1;
        Returned(World(moved, w.food, d, w.score, steps), if steps >= MaxSteps then TimedOut else Moved)
  }

  /** `respawn` is a cell `spawn_food` could return after the step grows the snake. */
  predicate FairRespawn(w: World, action: int, respawn: Cell)
    requires |w.snake| > 0
  {
    respawn in FreeCells([NextHead(w, action)] + w.snake)
  }

  // ---------------------------------------------------------------- reset

  /** `reset` leaves a well-formed world whenever the food is on a free cell. */
  lemma ResetIsWellFormed(food: Cell)
    requires food in FreeCells(StartSnake())
    ensures WellFormed(Reset(food))
    ensures Reset(food).snake == [Cell(5, 5), Cell(5, 4), Cell(5, 3)]
  {
  }

  // ---------------------------------------------------------------- the four exits

  /**
   * Death: leaving the board or hitting any body cell, the tail included, ends the episode
   * with reward -10; only the heading has changed.
   */
  lemma StepDeath(w: World, action: int, respawn: Cell)
    requires |w.snake| > 0
    ensures var h := NextHead(w, action);
            !InBounds(h) || h in w.snake ==>
              Step(w, action, respawn) == Returned(w.(direction := Turn(w.direction, action)), Died)
    ensures var t := Step(w, action, respawn);
            t.Returned? && t.outcome == Died ==> !InBounds(NextHead(w, action)) || NextHead(w, action) in w.snake
  {
  }

  /**
   * Plain move: the new head is put in front and the last cell dropped, so the length
   * stays; food and score stay and the step counter goes up by one. The episode then
   * times out (reward -10) exactly when the counter has reached MaxSteps, and otherwise
   * goes on with reward -0.01.
   */
  lemma StepPlainMove(w: World, action: int, respawn: Cell)
    requires |w.snake| > 0
    requires var h := NextHead(w, action); InBounds(h) && h !in w.snake && h != w.food
    ensures var grown := [NextHead(w, action)] + w.snake;
            var o := if w.steps + 1 >= MaxSteps then TimedOut else Moved;
            Step(w, action, respawn) ==
              Returned(World(grown[..|grown| - 1], w.food, Turn(w.direction, action), w.score, w.steps + 1), o)
    ensures var grown := [NextHead(w, action)] + w.snake;
            && grown[..|grown| - 1] == [NextHead(w, action)] + w.snake[..|w.snake| - 1]
            && |grown[..|grown| - 1]| == |w.snake|
  {
  }

  /**
   * Eating: the snake grows by one cell at the head, the score goes up by one, the step
   * counter restarts, the reward is +10 and the episode goes on with the new food.
   */
  lemma StepEating(w: World, action: int, respawn: Cell)
    requires WellFormed(w)
    requires NextHead(w, action) == w.food && FairRespawn(w, action, respawn)
    ensures Step(w, action, respawn) ==
            Returned(World([w.food] + w.snake, respawn, Turn(w.direction, action), w.score + 1, 0), Ate)
  {
  }

  /** Eating the last free cell: `spawn_food` finds no cell and `step` never returns. */
  lemma StepEatingLastCell(w: World, action: int, respawn: Cell)
    requires WellFormed(w)
    requires NextHead(w, action) == w.food && FreeCells([w.food] + w.snake) == {}
    ensures Step(w, action, respawn) ==
            Diverged(World([w.food] + w.snake, w.food, Turn(w.direction, action), w.score + 1, w.steps + 1))
  {
  }

  // ---------------------------------------------------------------- invariants

  /** Putting a free neighbouring board cell in front of a body keeps it a body. */
  lemma GrowKeepsBody(s: seq<Cell>, h: Cell)
    requires |s| > 0 && AllInBounds(s) && Distinct(s) && Connected(s)
    requires InBounds(h) && h !in s && Distance(h, s[0]) == 1
    ensures AllInBounds([h] + s) && Distinct([h] + s) && Connected([h] + s)
  {
    var grown := [h] + s;
    assert Distinct(grown) by {
      forall i, j | 0 <= i < j < |grown| ensures grown[i] != grown[j] {
        if i == 0 {
          assert grown[j] == s[j - 1];
        } else {
          assert grown[i] == s[i - 1] && grown[j] == s[j - 1];
        }
      }
    }
    assert Connected(grown) by {
      forall i | 0 <= i < |grown| - 1 ensures Distance(grown[i], grown[i + 1]) == 1 {
        if i > 0 {
          assert grown[i] == s[i - 1] && grown[i + 1] == s[i];
        }
      }
    }
    assert AllInBounds(grown) by {
      forall i | 0 <= i < |grown| ensures InBounds(grown[i]) {
        if i > 0 {
          assert grown[i] == s[i - 1];
        }
      }
    }
  }

  /** Dropping the last cell keeps a body a body and frees that cell. */
  lemma DropTailKeepsBody(s: seq<Cell>)
    requires |s| > 0 && AllInBounds(s) && Distinct(s) && Connected(s)
    ensures var moved := s[..|s| - 1];
            AllInBounds(moved) && Distinct(moved) && Connected(moved) && s[|s| - 1] !in moved
    ensures forall c :: c in s[..|s| - 1] ==> c in s
  {
    var moved := s[..|s| - 1];
    assert s[|s| - 1] !in moved by {
      forall i | 0 <= i < |moved| ensures moved[i] != s[|s| - 1] {
        assert moved[i] == s[i];
      }
    }
  }

  /** Every returned step keeps the world well-formed, given a fair respawn when the snake eats. */
  lemma StepPreservesWellFormed(w: World, action: int, respawn: Cell)
    requires WellFormed(w)
    requires NextHead(w, action) == w.food ==> FairRespawn(w, action, respawn)
    ensures var t := Step(w, action, respawn);
            t.Returned? ==> WellFormed(t.world)
  {
    var h := NextHead(w, action);
    if InBounds(h) && h !in w.snake {
      GrowKeepsBody(w.snake, h);
      if h != w.food {
        DropTailKeepsBody([h] + w.snake);
      }
    }
  }

  /** The snake never shrinks, and it grows by exactly one cell exactly when the reward is +10. */
  lemma GrowsExactlyWhenRewardIsTen(w: World, action: int, respawn: Cell)
    requires WellFormed(w)
    ensures var t := Step(w, action, respawn);
            t.Returned? ==>
              && (Reward(t.outcome) == 10.0 <==> t.outcome == Ate)
              && |t.world.snake| == |w.snake| + (if Reward(t.outcome) == 10.0 then 1 else 0)
  {
  }

  /**
   * `step` never returns exactly when the snake eats its way to covering the whole board:
   * the food is taken while the body holds GridArea - 1 cells.
   */
  lemma DivergesExactlyWhenBoardFills(w: World, action: int, respawn: Cell)
    requires WellFormed(w)
    ensures Step(w, action, respawn).Diverged? <==>
            NextHead(w, action) == w.food && |w.snake| == GridArea - 1
  {
    var h := NextHead(w, action);
    if h == w.food {
      var grown := [h] + w.snake;
      assert Distinct(grown) by {
        forall i, j | 0 <= i < j < |grown| ensures grown[i] != grown[j] {
          if i == 0 {
            assert grown[j] == w.snake[j - 1];
          } else {
            assert grown[i] == w.snake[i - 1] && grown[j] == w.snake[j - 1];
          }
        }
      }
      assert AllInBounds(grown) by {
        forall i | 0 <= i < |grown| ensures InBounds(grown[i]) {
          if i > 0 {
            assert grown[i] == w.snake[i - 1];
          }
        }
      }
      FreeCellCount(grown);
    }
  }

  /** A well-formed snake always leaves at least one cell free (the food's). */
  lemma WellFormedLeavesRoom(w: World)
    requires WellFormed(w)
    ensures |w.snake| < GridArea
  {
    FreeCellCount(w.snake);
    assert w.food in FreeCells(w.snake);
  }

  // ---------------------------------------------------------------- encoder and rules together

  /**
   * The danger bit of an action predicts death except for one cell: moving onto the current
   * tail is fatal in `step` (it checks the whole body) but is not flagged as danger (which
   * leaves the tail out).
   */
  lemma DeathIsDangerOrTail(w: World, action: int, respawn: Cell)
    requires WellFormed(w)
    ensures var t := Step(w, action, respawn);
            var k := GetState(w.snake, w.food, w.direction);
            (t.Returned? && t.outcome == Died) <==>
              (DangerBit(k, action) == 1 || NextHead(w, action) == w.snake[|w.snake| - 1])
  {
    var n := |w.snake|;
    var h := NextHead(w, action);
    DangerBitMatchesTurn(w.snake, w.food, w.direction, action);
    if h in w.snake && h != w.snake[n - 1] {
      var i :| 0 <= i < n && w.snake[i] == h;
      assert i < n - 1;
    }
  }

  /** A concrete world in which turning right onto the tail kills although its danger bit is 0. */
  lemma TailCellIsFatalButNotDanger()
    ensures var w := World([Cell(5, 5), Cell(5, 4), Cell(6, 4), Cell(6, 5)], Cell(0, 0), 1, 1, 0);
            && WellFormed(w)
            && DangerBit(GetState(w.snake, w.food, w.direction), 1) == 0
            && Step(w, 1, Cell(0, 1)) == Returned(w.(direction := 2), Died)
  {
    var w := World([Cell(5, 5), Cell(5, 4), Cell(6, 4), Cell(6, 5)], Cell(0, 0), 1, 1, 0);
    assert Neighbour(Cell(5, 5), 2) == Cell(6, 5);
    assert Cell(6, 5) !in w.snake[..3];
  }

  /** From the start, with the food one cell ahead, going straight eats it. */
  lemma EatAheadFromStart(respawn: Cell)
    requires respawn in FreeCells([Cell(4, 5)] + StartSnake())
    ensures var t := Step(Reset(Cell(4, 5)), 0, respawn);
            && t.Returned? && t.outcome == Ate
            && Reward(t.outcome) == 10.0 && !Done(t.outcome)
            && t.world.score == 1 && |t.world.snake| == 4
  {
  }
}
