/**
 * The value table: a map from state key to one estimate per relative action,
 * with entries created on first touch, and the greedy first-maximum choice.
 */
module QTable {
  import opened Encoder

  /** Relative actions: 0 straight, 1 right, 2 left. */
  const ActionCount: int := 3

  type Table = map<StateKey, seq<real>>

  /** The entry a state gets on first touch. */
  function Zeros(): (z: seq<real>)
    ensures |z| == ActionCount && forall i :: 0 <= i < |z| ==> z[i] == 0.0
  {
    [0.0, 0.0, 0.0]
  }

  /** Every entry holds one value per action. */
  predicate WellShaped(t: Table) {
    forall s :: s in t ==> |t[s]| == ActionCount
  }

  /** The table after the lazy insertion shared by `get_q_value` and `set_q_value`. */
  function Touch(t: Table, s: StateKey): (r: Table)
    ensures r.Keys == t.Keys + {s}
    ensures s in t ==> r == t
    ensures s !in t ==> r[s] == Zeros()
    ensures forall s' :: s' in t ==> r[s'] == t[s']
  {
    if s in t then t else t[s := Zeros()]
  }

  /** The value `get_q_value(s, a)` returns. */
  function Read(t: Table, s: StateKey, a: int): (v: real)
    requires WellShaped(t) && 0 <= a < ActionCount
    ensures s !in t ==> v == 0.0
    ensures s in t ==> v == t[s][a]
  {
    Touch(t, s)[s][a]
  }

  /** The table after `set_q_value(s, a, v)`. */
  function Write(t: Table, s: StateKey, a: int, v: real): (r: Table)
    requires WellShaped(t) && 0 <= a < ActionCount
    ensures WellShaped(r)
    ensures r.Keys == t.Keys + {s}
    ensures r[s][a] == v
    ensures forall b :: 0 <= b < ActionCount && b != a ==> r[s][b] == Read(t, s, b)
    ensures forall s' :: s' in t && s' != s ==> r[s'] == t[s']
  {
    var u := Touch(t, s);
    u[s := u[s][a := v]]
  }

  /** Touching twice is touching once (a repeated `get_q_value` changes nothing). */
  lemma TouchIdempotent(t: Table, s: StateKey)
    ensures Touch(Touch(t, s), s) == Touch(t, s)
  {
  }

  /** Reading never changes an existing value, and the touched table stays well-shaped. */
  lemma TouchKeepsShape(t: Table, s: StateKey)
    requires WellShaped(t)
    ensures WellShaped(Touch(t, s))
    ensures forall s', a :: s' in t && 0 <= a < ActionCount ==> Read(Touch(t, s), s', a) == Read(t, s', a)
  {
  }

  /** Read-over-write: a write is seen at its own slot and nowhere else. */
  lemma ReadAfterWrite(t: Table, s: StateKey, a: int, v: real, s': StateKey, a': int)
    requires WellShaped(t) && 0 <= a < ActionCount && 0 <= a' < ActionCount
    ensures Read(Write(t, s, a, v), s', a') == if s' == s && a' == a then v else Read(t, s', a')
  {
  }

  // ---------------------------------------------------------------- greedy choice

  /** `max(q)`: the largest value in `q`. */
  function Max(q: seq<real>): (m: real)
    requires |q| > 0
    ensures m in q
    ensures forall i :: 0 <= i < |q| ==> q[i] <= m
  {
    if |q| == 1 then q[0]
    else
      var rest := Max(q[1..]);
      if q[0] >= rest then q[0] else rest
  }

  /** `q.index(x)`: the first position holding `x`. */
  function IndexOf(q: seq<real>, x: real): (i: nat)
    requires x in q
    ensures i < |q| && q[i] == x
    ensures forall j :: 0 <= j < i ==> q[j] != x
  {
    if q[0] == x then 0 else 1 + IndexOf(q[1..], x)
  }

  /** `get_best_action` on a values list: the first index holding the maximum. */
  function BestAction(q: seq<real>): (i: nat)
    requires |q| > 0
    ensures i < |q|
    ensures forall j :: 0 <= j < |q| ==> q[j] <= q[i]
    ensures forall j :: 0 <= j < i ==> q[j] < q[i]
  {
    IndexOf(q, Max(q))
  }

  /** Ties go to the lowest index: the chosen index is the only one that is maximal with nothing maximal before it. */
  lemma BestActionIsFirstMaximum(q: seq<real>, i: int)
    requires |q| > 0 && 0 <= i < |q|
    ensures i == BestAction(q) <==>
            (forall j :: 0 <= j < |q| ==> q[j] <= q[i]) && (forall j :: 0 <= j < i ==> q[j] < q[i])
  {
    var b := BestAction(q);
    if (forall j :: 0 <= j < |q| ==> q[j] <= q[i]) && (forall j :: 0 <= j < i ==> q[j] < q[i]) {
      assert q[b] <= q[i] && q[i] <= q[b];
    }
  }

  /** A table entry never written to picks straight ahead. */
  lemma FreshEntryGoesStraight()
    ensures BestAction(Zeros()) == 0
  {
  }
}
