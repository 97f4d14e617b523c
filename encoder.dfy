/** The state encoder: collapses a board configuration into the 8-field key of the value table. */
module Encoder {
  import opened Grid

  /**
   * The state key (`get_state`): three danger bits relative to the heading,
   * four food bits on the absolute axes, and the absolute heading itself.
   */
  datatype StateKey = StateKey(
    dangerStraight: int, dangerRight: int, dangerLeft: int,
    foodUp: int, foodDown: int, foodLeft: int, foodRight: int,
    direction: int)

  function Bit(b: bool): (r: int)
    ensures r == 1 <==> b
    ensures r == 0 <==> !b
  {
    if b then 1 else 0
  }

  /**
   * `is_danger`: 1 when the cell one step from the head in heading `d` is off the board
   * or is a body cell other than the last one (the tail is not counted).
   */
  function IsDanger(snake: seq<Cell>, d: Direction): (r: int)
    requires |snake| > 0
    ensures r == 0 || r == 1
    ensures r == 1 <==>
      var n := Neighbour(snake[0], d);
      !InBounds(n) || exists i :: 0 <= i < |snake| - 1 && snake[i] == n
  {
    var n := Neighbour(snake[0], d);
    if !InBounds(n) then 1
    else if n in snake[..|snake| - 1] then 1
    else 0
  }

  /** Every field is a bit except the last, which is a heading. */
  predicate WellFormedKey(k: StateKey) {
    && k.dangerStraight in {0, 1} && k.dangerRight in {0, 1} && k.dangerLeft in {0, 1}
    && k.foodUp in {0, 1} && k.foodDown in {0, 1} && k.foodLeft in {0, 1} && k.foodRight in {0, 1}
    && 0 <= k.direction < 4
  }

  /** `get_state` for a snake (head first), a food cell and a heading. */
  function GetState(snake: seq<Cell>, food: Cell, direction: Direction): (k: StateKey)
    requires |snake| > 0
    ensures WellFormedKey(k)
    ensures k.direction == direction
    ensures k.foodUp + k.foodDown <= 1 && k.foodLeft + k.foodRight <= 1
  {
    var head := snake[0];
    StateKey(
      IsDanger(snake, direction),
      IsDanger(snake, (direction + 1) % 4),
      IsDanger(snake, (direction + 3) % 4),
      Bit(head.row > food.row),
      Bit(head.row < food.row),
      Bit(head.col > food.col),
      Bit(head.col < food.col),
      direction)
  }

  /** The danger bit that belongs to a relative action: 1 right, 2 left, anything else straight. */
  function DangerBit(k: StateKey, action: int): int {
    if action == 1 then k.dangerRight
    else if action == 2 then k.dangerLeft
    else k.dangerStraight
  }

  /** The food bit that belongs to an absolute heading. */
  function FoodBit(k: StateKey, d: Direction): int {
    match d
    case 0 => k.foodUp
    case 1 => k.foodRight
    case 2 => k.foodDown
    case 3 => k.foodLeft
  }

  /** The danger bits are taken in the very heading that the same action makes a step turn to. */
  lemma DangerBitMatchesTurn(snake: seq<Cell>, food: Cell, direction: Direction, action: int)
    requires |snake| > 0
    ensures DangerBit(GetState(snake, food, direction), action) == IsDanger(snake, Turn(direction, action))
  {
  }

  /** A food bit is set exactly when one step in that heading brings the head closer to the food. */
  lemma FoodBitMeansCloser(snake: seq<Cell>, food: Cell, direction: Direction, d: Direction)
    requires |snake| > 0
    ensures FoodBit(GetState(snake, food, direction), d) == 1 <==>
            Distance(Neighbour(snake[0], d), food) < Distance(snake[0], food)
  {
  }

  /** All four food bits are clear exactly when the food is under the head. */
  lemma FoodBitsClearOnlyAtHead(snake: seq<Cell>, food: Cell, direction: Direction)
    requires |snake| > 0
    ensures var k := GetState(snake, food, direction);
            k.foodUp == k.foodDown == k.foodLeft == k.foodRight == 0 <==> food == snake[0]
  {
  }
}
