/** What a table cell means: the cheapest way to walk back from it to the
    boundary, one DEL (up), INS (left), SUB or MAT (diagonal) step at a time,
    paying each step's cost and finally the boundary cell's value. The walk
    that follows the reported labels is one of the cheapest. */
module Optimality {
  import opened Maybe
  import opened Params
  import opened Recurrence

  function Plus(o: Option<int>, k: int): (r: Option<int>)
    ensures r.Some? <==> o.Some?
    ensures r.Some? ==> r.value == o.value + k
  {
    if o.Some? then Some(o.value + k) else None
  }

  /** The cost of walking back from (y, x) along `path`, or `None` when the
      walk is illegal: a step leaves the table, SUB is taken on equal
      characters or MAT on different ones, or the walk stops before the
      boundary or goes on past it. */
  function WalkCost(X: string, Y: string, c: Costs, y: nat, x: nat, path: seq<Action>): (r: Option<int>)
    requires y <= |Y| && x <= |X|
    decreases |path|
  {
    if y == 0 || x == 0 then
      if path == [] then Some(Boundary(c, y, x)) else None
    else if path == [] then None
    else
      match path[0]
      case DEL => Plus(WalkCost(X, Y, c, y - 1, x, path[1..]), c.deleteCost)
      case INS => Plus(WalkCost(X, Y, c, y, x - 1, path[1..]), c.insertCost)
      case SUB =>
        if X[x - 1] != Y[y - 1] then Plus(WalkCost(X, Y, c, y - 1, x - 1, path[1..]), c.substituteCost)
        else None
      case MAT =>
        if X[x - 1] == Y[y - 1] then Plus(WalkCost(X, Y, c, y - 1, x - 1, path[1..]), c.matchCost)
        else None
  }

  /** No legal walk back from a cell is cheaper than the cell's value. */
  lemma {:induction false} WalkLowerBound(X: string, Y: string, c: Costs, y: nat, x: nat, path: seq<Action>)
    requires y <= |Y| && x <= |X|
    ensures WalkCost(X, Y, c, y, x, path).Some? ==> Cell(X, Y, c, y, x) <= WalkCost(X, Y, c, y, x, path).value
    decreases |path|
  {
    if y > 0 && x > 0 && path != [] {
      match path[0]
      case DEL => WalkLowerBound(X, Y, c, y - 1, x, path[1..]);
      case INS => WalkLowerBound(X, Y, c, y, x - 1, path[1..]);
      case SUB => WalkLowerBound(X, Y, c, y - 1, x - 1, path[1..]);
      case MAT => WalkLowerBound(X, Y, c, y - 1, x - 1, path[1..]);
    }
  }

  /** The walk that follows the label of every cell it passes through. */
  function Traceback(X: string, Y: string, c: Costs, y: nat, x: nat): (p: seq<Action>)
    requires y <= |Y| && x <= |X|
    decreases y + x
  {
    if y == 0 || x == 0 then []
    else
      var a := LabelAt(X, Y, c, y, x);
      match a
      case DEL => [a] + Traceback(X, Y, c, y - 1, x)
      case INS => [a] + Traceback(X, Y, c, y, x - 1)
      case _ => [a] + Traceback(X, Y, c, y - 1, x - 1)
  }

  /** Following the labels is a legal walk whose cost is exactly the cell's value. */
  lemma {:induction false} TracebackAchieves(X: string, Y: string, c: Costs, y: nat, x: nat)
    requires y <= |Y| && x <= |X|
    ensures WalkCost(X, Y, c, y, x, Traceback(X, Y, c, y, x)) == Some(Cell(X, Y, c, y, x))
    decreases y + x
  {
    if y > 0 && x > 0 {
      var a := LabelAt(X, Y, c, y, x);
      var k := CandidatesAt(X, Y, c, y, x);
      assert k.Of(a) == Cell(X, Y, c, y, x);
      var py, px := if a == INS then y else y - 1, if a == DEL then x else x - 1;
      var rest := Traceback(X, Y, c, py, px);
      assert Traceback(X, Y, c, y, x) == [a] + rest;
      assert ([a] + rest)[1..] == rest;
      TracebackAchieves(X, Y, c, py, px);
    }
  }

  /** Every cell of the table, and so the distance, is the least cost of a
      legal walk back to the boundary. */
  lemma CellIsCheapestWalk(X: string, Y: string, c: Costs, y: nat, x: nat)
    requires y <= |Y| && x <= |X|
    ensures exists path :: WalkCost(X, Y, c, y, x, path) == Some(Cell(X, Y, c, y, x))
    ensures forall path :: WalkCost(X, Y, c, y, x, path).Some? ==>
      Cell(X, Y, c, y, x) <= WalkCost(X, Y, c, y, x, path).value
  {
    TracebackAchieves(X, Y, c, y, x);
    forall path | WalkCost(X, Y, c, y, x, path).Some?
      ensures Cell(X, Y, c, y, x) <= WalkCost(X, Y, c, y, x, path).value
    {
      WalkLowerBound(X, Y, c, y, x, path);
    }
  }
}
