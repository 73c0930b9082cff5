/** The dynamic-programming recurrence of `edit_distance`, stated as pure
    functions. `Cell(X, Y, c, y, x)` is the value the table holds in row `y`
    (a prefix of Y of length y) and column `x` (a prefix of X of length x). */
module Recurrence {
  import opened Params
  import opened Multiples

  /** The operation a cell is attributed to in the trace. */
  datatype Action = DEL | INS | SUB | MAT

  /** Python's three-argument `min`. */
  function Min3(a: int, b: int, c: int): (r: int)
    ensures r <= a && r <= b && r <= c
    ensures r == a || r == b || r == c
  {
    if a <= b && a <= c then a else if b <= c then b else c
  }

  /** The four candidate values computed for one interior cell: from the
      cell above (DEL), from the cell to the left (INS), and from the
      diagonal with either cost (SUB, MAT); `same` records whether the two
      characters compared at this cell are equal. */
  datatype Candidates = Candidates(del: int, ins: int, sub: int, mat: int, same: bool) {

    /** The diagonal candidate that takes part in the minimum. */
    function Diag(): int {
      if same then mat else sub
    }

    /** The value stored in the cell: the least of the three candidates. */
    function Best(): (r: int)
      ensures r <= del && r <= ins && r <= Diag()
      ensures r == del || r == ins || r == Diag()
    {
      Min3(del, ins, Diag())
    }

    /** The candidate that belongs to an action. */
    function Of(a: Action): int {
      match a
      case DEL => del
      case INS => ins
      case SUB => sub
      case MAT => mat
    }
  }

  /** The boundary value: row 0 and column 0 are both multiples of the
      INSERT cost (column 0 does not use DELETE). */
  function Boundary(c: Costs, y: nat, x: nat): (r: int)
    requires y == 0 || x == 0
    ensures y == 0 ==> r == x * c.insertCost
    ensures x == 0 ==> r == y * c.insertCost
  {
    TimesIsProduct(x, c.insertCost);
    TimesIsProduct(y, c.insertCost);
    if y == 0 then Times(x, c.insertCost) else Times(y, c.insertCost)
  }

  /** All four costs are at least zero. */
  predicate NonNegative(c: Costs) {
    c.deleteCost >= 0 && c.insertCost >= 0 && c.substituteCost >= 0 && c.matchCost >= 0
  }

  /** The value of the table at row `y`, column `x`: on the boundary a
      multiple of INSERT, inside no more than any of its candidates and
      equal to one of them. */
  function Cell(X: string, Y: string, c: Costs, y: nat, x: nat): (r: int)
    requires y <= |Y| && x <= |X|
    ensures NonNegative(c) ==> r >= 0
    decreases y + x, 1
  {
    if y == 0 || x == 0 then Boundary(c, y, x)
    else CandidatesAt(X, Y, c, y, x).Best()
  }

  /** The candidates for interior cell (y, x), computed from the cells above,
      to the left and diagonally above-left; the diagonal compares X[x-1]
      with Y[y-1]. */
  function CandidatesAt(X: string, Y: string, c: Costs, y: nat, x: nat): (k: Candidates)
    requires 1 <= y <= |Y| && 1 <= x <= |X|
    decreases y + x, 0
  {
    Candidates(
      Cell(X, Y, c, y - 1, x) + c.deleteCost,
      Cell(X, Y, c, y, x - 1) + c.insertCost,
      Cell(X, Y, c, y - 1, x - 1) + c.substituteCost,
      Cell(X, Y, c, y - 1, x - 1) + c.matchCost,
      X[x - 1] == Y[y - 1])
  }

  /** An interior cell is the least of the candidates built from its three
      neighbours: above plus DELETE, left plus INSERT, diagonal plus MATCH
      on equal characters or SUBSTITUTE on different ones. */
  lemma CellFromNeighbours(X: string, Y: string, c: Costs, y: nat, x: nat, up: int, left: int, diag: int)
    requires 1 <= y <= |Y| && 1 <= x <= |X|
    requires up == Cell(X, Y, c, y - 1, x)
    requires left == Cell(X, Y, c, y, x - 1)
    requires diag == Cell(X, Y, c, y - 1, x - 1)
    ensures Cell(X, Y, c, y, x) ==
      Min3(up + c.deleteCost, left + c.insertCost,
           if X[x - 1] != Y[y - 1] then diag + c.substituteCost else diag + c.matchCost)
  {
  }

  /** The edit distance: the bottom-right cell. */
  function Distance(X: string, Y: string, c: Costs): (r: int)
    ensures |Y| == 0 ==> r == |X| * c.insertCost
    ensures |X| == 0 ==> r == |Y| * c.insertCost
  {
    Cell(X, Y, c, |Y|, |X|)
  }

  /** The action reported for a cell holding `cell`, with precedence
      DEL, then INS, then SUB or MAT by character equality. Whenever the cell
      holds the minimum of its candidates, the candidate of the chosen
      action is exactly that stored value. */
  function Label(k: Candidates, cell: int): (a: Action)
    ensures a == DEL <==> cell == k.del
    ensures a == INS <==> cell != k.del && cell == k.ins
    ensures (a == SUB || a == MAT) ==> (a == MAT <==> k.same)
    ensures cell == k.Best() ==> k.Of(a) == cell
  {
    if cell == k.del then DEL
    else if cell == k.ins then INS
    else if !k.same then SUB
    else MAT
  }

  /** The label of interior cell (y, x) of the table. */
  function LabelAt(X: string, Y: string, c: Costs, y: nat, x: nat): (a: Action)
    requires 1 <= y <= |Y| && 1 <= x <= |X|
    ensures CandidatesAt(X, Y, c, y, x).Of(a) == Cell(X, Y, c, y, x)
  {
    Label(CandidatesAt(X, Y, c, y, x), Cell(X, Y, c, y, x))
  }
}
