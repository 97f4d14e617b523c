/**
 * The game object: the board state and the value table as fields, updated in place by
 * `Reset`, `Step` and the table operations, each proved to follow modules Rules and QTable.
 */
module Game {
  import opened Wrappers
  import opened Grid
  import opened Encoder
  import opened Rules
  import opened QTable

  class SnakeGame {
    var snake: seq<Cell>
    var food: Cell
    var direction: Direction
    var score: int
    var steps: int
    var qTable: Table

    /** The board part of the object as a value. */
    function Snapshot(): World
      reads this
    {
      World(snake, food, direction, score, steps)
    }

    ghost predicate Valid()
      reads this
    {
      WellFormed(Snapshot()) && WellShaped(qTable)
    }

    /** A new game: an empty table and a freshly reset board. */
    constructor ()
      ensures Valid()
      ensures qTable == map[]
      ensures Snapshot() == Rules.Reset(food) && food in FreeCells(StartSnake())
    {
      qTable := map[];
      snake := StartSnake();
      food := Cell(0, 0);
      direction := 0;
      score := 0;
      steps := 0;
      new;
      var _ := Reset();
    }

    /**
     * `spawn_food`: some board cell the snake does not occupy, or None when the snake
     * covers the board (`spawn_food` then keeps drawing forever).
     */
    method SpawnFood() returns (f: Option<Cell>)
      ensures f.Some? <==> FreeCells(snake) != {}
      ensures f.Some? ==> InBounds(f.value) && f.value !in snake
    {
      var free := FreeCells(snake);
      if free == {} {
        f := None;
      } else {
        var c :| c in free;
        f := Some(c);
      }
    }

    /** `reset`: the start snake facing up, food on a free cell, counters at zero. */
    method Reset() returns (state: StateKey)
      modifies this`snake, this`food, this`direction, this`score, this`steps
      ensures Snapshot() == Rules.Reset(food) && food in FreeCells(StartSnake())
      ensures WellFormed(Snapshot())
      ensures state == GetState(snake, food, direction)
    {
      snake := StartSnake();
      direction := 0;
      assert Cell(0, 0) in FreeCells(snake);
      var f := SpawnFood();
      food := f.value;
      score := 0;
      steps := 0;
      ResetIsWellFormed(food);
      state := GetState(snake, food, direction);
    }

    /**
     * `step(action)`: the new fields are those Rules.Step gives, with the food it respawned;
     * the reply is the (state, reward, done, score) tuple, or None when `spawn_food` never returns.
     */
    method Step(action: int) returns (r: Option<StepResult>)
      requires Valid()
      modifies this`snake, this`food, this`direction, this`score, this`steps
      ensures var t := Rules.Step(old(Snapshot()), action, food);
              && Snapshot() == t.world
              && (t.Returned? ==> Valid() && r == Some(Reply(t.world, t.outcome)))
              && (t.Diverged? ==> r == None)
    {
      ghost var w := Snapshot();
      if action == 1 {
        direction := (direction + 1) % 4;
      } else if action == 2 {
        direction := (direction + 3) % 4;
      }
      var head := snake[0];
      var newHead := Neighbour(head, direction);
      assert newHead == NextHead(w, action);
      if !InBounds(newHead) || newHead in snake {
        assert Snapshot() == w.(direction := Turn(w.direction, action));
        StepDeath(w, action, food);
        r := Some(Reply(Snapshot(), Died));
        return;
      }
      r := Advance(w, action, newHead);
    }

    /**
     * The part of `step` after the death check: grow into `newHead`, then either eat and
     * respawn the food or drop the tail and check the timeout.
     */
    method Advance(ghost w: World, ghost action: int, newHead: Cell) returns (r: Option<StepResult>)
      requires Valid() && WellFormed(w) && w.snake == snake && w.food == food
      requires w.score == score && w.steps == steps && direction == Turn(w.direction, action)
      requires newHead == NextHead(w, action) && InBounds(newHead) && newHead !in snake
      modifies this`snake, this`food, this`score, this`steps
      ensures var t := Rules.Step(w, action, food);
              && Snapshot() == t.world
              && (t.Returned? ==> Valid() && r == Some(Reply(t.world, t.outcome)))
              && (t.Diverged? ==> r == None)
    {
      snake := [newHead] + snake;
      steps := steps + 1;
      if newHead == food {
        score := score + 1;
        var f := SpawnFood();
        if f == None {
          assert Snapshot() == World([w.food] + w.snake, w.food, Turn(w.direction, action), w.score + 1, w.steps + 1);
          StepEatingLastCell(w, action, food);
          r := None;
          return;
        }
        food := f.value;
        steps := 0;
        assert Snapshot() == World([w.food] + w.snake, food, Turn(w.direction, action), w.score + 1, 0);
        StepEating(w, action, food);
        StepPreservesWellFormed(w, action, food);
        r := Some(Reply(Snapshot(), Ate));
        return;
      }
      snake := snake[..|snake| - 1];
      ghost var grown := [newHead] + w.snake;
      assert Snapshot() == World(grown[..|grown| - 1], w.food, Turn(w.direction, action), w.score, w.steps + 1);
      StepPlainMove(w, action, food);
      StepPreservesWellFormed(w, action, food);
      if steps >= MaxSteps {
        r := Some(Reply(Snapshot(), TimedOut));
      } else {
        r := Some(Reply(Snapshot(), Moved));
      }
    }

    /** `get_q_value`: creates a zero entry for an unseen state, then reads one value. */
    method GetQValue(state: StateKey, action: int) returns (v: real)
      requires WellShaped(qTable) && 0 <= action < ActionCount
      modifies this`qTable
      ensures WellShaped(qTable)
      ensures qTable == Touch(old(qTable), state)
      ensures v == Read(old(qTable), state, action) && v == qTable[state][action]
    {
      if state !in qTable {
        qTable := qTable[state := Zeros()];
      }
      v := qTable[state][action];
    }

    /** `set_q_value`: overwrites one value, creating the entry first if needed. */
    method SetQValue(state: StateKey, action: int, value: real)
      requires WellShaped(qTable) && 0 <= action < ActionCount
      modifies this`qTable
      ensures WellShaped(qTable)
      ensures qTable == Write(old(qTable), state, action, value)
    {
      if state !in qTable {
        qTable := qTable[state := Zeros()];
      }
      qTable := qTable[state := qTable[state][action := value]];
    }

    /** `get_best_action`: reads all three values (creating the entry) and takes the first maximum. */
    method GetBestAction(state: StateKey) returns (a: int)
      requires WellShaped(qTable)
      modifies this`qTable
      ensures WellShaped(qTable)
      ensures qTable == Touch(old(qTable), state)
      ensures a == BestAction(qTable[state])
      ensures 0 <= a < ActionCount
      ensures forall b :: 0 <= b < ActionCount ==> qTable[state][b] <= qTable[state][a]
      ensures forall b :: 0 <= b < a ==> qTable[state][b] < qTable[state][a]
    {
      var q0 := GetQValue(state, 0);
      var q1 := GetQValue(state, 1);
      var q2 := GetQValue(state, 2);
      assert [q0, q1, q2] == qTable[state];
      a := BestAction([q0, q1, q2]);
    }
  }
}
