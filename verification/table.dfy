/** `edit_distance` itself: merge the parameters, allocate the table, fill
    the boundary and then the interior row by row, record the per-cell
    trace when `show_steps` is set, and report the bottom-right cell. */
module EditTable {
  import opened Params
  import opened PyRange
  import opened Recurrence
  import opened Multiples

  /** One trace line: the source character, the destination character, the
      chosen action and the cell's cost. */
  datatype Step = Step(source: char, target: char, action: Action, cost: int)

  /** The trace entry of interior cell (y, x). */
  function StepAt(X: string, Y: string, c: Costs, y: nat, x: nat): (s: Step)
    requires 1 <= y <= |Y| && 1 <= x <= |X|
    ensures s.source == X[x - 1] && s.target == Y[y - 1]
    ensures s.cost == Cell(X, Y, c, y, x)
    ensures CandidatesAt(X, Y, c, y, x).Of(s.action) == s.cost
    ensures s.action == DEL <==> s.cost == CandidatesAt(X, Y, c, y, x).del
  {
    Step(X[x - 1], Y[y - 1], LabelAt(X, Y, c, y, x), Cell(X, Y, c, y, x))
  }

  /** The entries of row `y`, columns 1 to `x`, left to right. */
  function TraceRow(X: string, Y: string, c: Costs, y: nat, x: nat): (t: seq<Step>)
    requires 1 <= y <= |Y| && x <= |X|
    ensures |t| == x
  {
    if x == 0 then [] else TraceRow(X, Y, c, y, x - 1) + [StepAt(X, Y, c, y, x)]
  }

  /** Entry j-1 of a row's trace is the entry of cell (y, j). */
  lemma {:induction false} TraceRowEntries(X: string, Y: string, c: Costs, y: nat, x: nat)
    requires 1 <= y <= |Y| && x <= |X|
    ensures forall j :: 1 <= j <= x ==> TraceRow(X, Y, c, y, x)[j - 1] == StepAt(X, Y, c, y, j)
  {
    if x > 0 {
      TraceRowEntries(X, Y, c, y, x - 1);
    }
  }

  /** The entries of rows 1 to `y`, in the row-major order of the fill. */
  function TraceRows(X: string, Y: string, c: Costs, y: nat): (t: seq<Step>)
    requires y <= |Y|
  {
    if y == 0 then [] else TraceRows(X, Y, c, y - 1) + TraceRow(X, Y, c, y, |X|)
  }

  /** The whole trace: one entry per interior cell when `show_steps` is set,
      nothing otherwise. */
  function Trace(X: string, Y: string, c: Costs): (t: seq<Step>)
    ensures |t| == if c.showSteps then |Y| * |X| else 0
    ensures c.showSteps ==> forall y, x :: 1 <= y <= |Y| && 1 <= x <= |X| ==>
      0 <= Pos(y, x, |X|) < |t| && t[Pos(y, x, |X|)] == StepAt(X, Y, c, y, x)
  {
    TraceLayout(X, Y, c, |Y|);
    if c.showSteps then TraceRows(X, Y, c, |Y|) else []
  }

  /** The row-major position of interior cell (y, x) in a table `w` columns
      wide: (y-1)*w + (x-1). */
  function Pos(y: nat, x: nat, w: nat): (p: int)
    requires y >= 1 && x >= 1
  {
    Times(y - 1, w) + (x - 1)
  }

  /** The position of a cell in rows 1 to n lies inside those rows, and
      inside the first n-1 rows unless the cell is in row n. */
  lemma PosBounds(y: nat, x: nat, w: nat, n: nat)
    requires 1 <= y <= n && 1 <= x <= w
    ensures 0 <= Pos(y, x, w) < Times(n, w)
    ensures y < n ==> Pos(y, x, w) < Times(n - 1, w)
    ensures y == n ==> Pos(y, x, w) == Times(n - 1, w) + (x - 1)
  {
    TimesNonNegative(y - 1, w);
    TimesGrow(y, n, w);
    if y < n {
      TimesGrow(y, n - 1, w);
    }
  }

  /** `Pos` is the row-major index (y-1)*w + (x-1). */
  lemma PosIsRowMajor(n: nat, w: nat)
    ensures forall y, x :: 1 <= y <= n && 1 <= x <= w ==> Pos(y, x, w) == (y - 1) * w + (x - 1)
  {
    forall y, x | 1 <= y <= n && 1 <= x <= w
      ensures Pos(y, x, w) == (y - 1) * w + (x - 1)
    {
      TimesIsProduct(y - 1, w);
    }
  }

  /** The trace holds exactly one entry per interior cell, and the entry for
      cell (y, x) sits at its row-major position. */
  lemma {:induction false} TraceLayout(X: string, Y: string, c: Costs, n: nat)
    requires n <= |Y|
    ensures forall y, x :: 1 <= y <= n && 1 <= x <= |X| ==> Pos(y, x, |X|) == (y - 1) * |X| + (x - 1)
    ensures |TraceRows(X, Y, c, n)| == Times(n, |X|) == n * |X|
    ensures forall y, x :: 1 <= y <= n && 1 <= x <= |X| ==>
      0 <= Pos(y, x, |X|) < |TraceRows(X, Y, c, n)| &&
      TraceRows(X, Y, c, n)[Pos(y, x, |X|)] == StepAt(X, Y, c, y, x)
  {
    PosIsRowMajor(n, |X|);
    if n > 0 {
      TraceLayout(X, Y, c, n - 1);
      var w := |X|;
      var prev := TraceRows(X, Y, c, n - 1);
      var row := TraceRow(X, Y, c, n, w);
      var all := TraceRows(X, Y, c, n);
      assert all == prev + row;
      TraceRowEntries(X, Y, c, n, w);
      TimesIsProduct(n, w);
      forall y, x | 1 <= y <= n && 1 <= x <= w
        ensures 0 <= Pos(y, x, w) < |all| && all[Pos(y, x, w)] == StepAt(X, Y, c, y, x)
      {
        PosBounds(y, x, w, n);
        if y < n {
          assert all[Pos(y, x, w)] == prev[Pos(y, x, w)];
        } else {
          assert all[Pos(y, x, w)] == row[x - 1];
        }
      }
    }
  }

  /** Interior cell (y, x) of `D` holds the least of its three candidates:
      the cell above plus DELETE, the cell to the left plus INSERT, and the
      diagonal cell plus MATCH when X[x-1] equals Y[y-1] or SUBSTITUTE when
      it does not. */
  predicate Recurs(X: string, Y: string, c: Costs, D: array2<int>, y: nat, x: nat): (r: bool)
    requires 1 <= y <= |Y| && 1 <= x <= |X|
    requires D.Length0 == |Y| + 1 && D.Length1 == |X| + 1
    reads D
    ensures r <==>
      var del, ins := D[y - 1, x] + c.deleteCost, D[y, x - 1] + c.insertCost;
      var diag := D[y - 1, x - 1] + (if X[x - 1] != Y[y - 1] then c.substituteCost else c.matchCost);
      D[y, x] <= del && D[y, x] <= ins && D[y, x] <= diag &&
      (D[y, x] == del || D[y, x] == ins || D[y, x] == diag)
  {
    D[y, x] == Min3(D[y - 1, x] + c.deleteCost,
                    D[y, x - 1] + c.insertCost,
                    D[y - 1, x - 1] + (if X[x - 1] != Y[y - 1] then c.substituteCost else c.matchCost))
  }

  /** Allocate the `(|Y|+1) x (|X|+1)` table of zeros and fill row 0 and
      then column 0 from the list `range(0, k*INSERT, INSERT)` of the
      right length k. */
  method AllocateTable(X: string, Y: string, c: Costs) returns (D: array2<int>)
    requires c.insertCost != 0
    ensures fresh(D)
    ensures D.Length0 == |Y| + 1 && D.Length1 == |X| + 1
    ensures forall x :: 0 <= x <= |X| ==> D[0, x] == Cell(X, Y, c, 0, x)
    ensures forall y :: 0 <= y <= |Y| ==> D[y, 0] == Cell(X, Y, c, y, 0)
  {
    var n := |Y| + 1;
    var m := |X| + 1;
    D := new int[n, m]((_, _) => 0);

    var row := StepList(m, c.insertCost);
    for x := 0 to m
      invariant forall j :: 0 <= j < x ==> D[0, j] == Cell(X, Y, c, 0, j)
    {
      D[0, x] := row[x];
    }
    var col := StepList(n, c.insertCost);
    for y := 0 to n
      invariant forall j :: 0 <= j < m ==> D[0, j] == Cell(X, Y, c, 0, j)
      invariant forall i :: 0 <= i < y ==> D[i, 0] == Cell(X, Y, c, i, 0)
    {
      D[y, 0] := col[y];
    }
  }

  /** Labelling an interior cell with the candidates built from its three
      neighbours gives the cell's trace entry. */
  lemma StepFromNeighbours(X: string, Y: string, c: Costs, y: nat, x: nat, up: int, left: int, diag: int)
    requires 1 <= y <= |Y| && 1 <= x <= |X|
    requires up == Cell(X, Y, c, y - 1, x)
    requires left == Cell(X, Y, c, y, x - 1)
    requires diag == Cell(X, Y, c, y - 1, x - 1)
    ensures Step(X[x - 1], Y[y - 1],
                 Label(Candidates(up + c.deleteCost, left + c.insertCost, diag + c.substituteCost,
                                  diag + c.matchCost, X[x - 1] == Y[y - 1]), Cell(X, Y, c, y, x)),
                 Cell(X, Y, c, y, x))
            == StepAt(X, Y, c, y, x)
  {
  }

  /** Fill interior cell `(y, x)` from its three neighbours and return the
      trace entry that labels it; no other cell changes. */
  method FillCell(X: string, Y: string, c: Costs, D: array2<int>, y: nat, x: nat) returns (step: Step)
    requires 1 <= y <= |Y| && 1 <= x <= |X|
    requires D.Length0 == |Y| + 1 && D.Length1 == |X| + 1
    requires D[y - 1, x] == Cell(X, Y, c, y - 1, x)
    requires D[y, x - 1] == Cell(X, Y, c, y, x - 1)
    requires D[y - 1, x - 1] == Cell(X, Y, c, y - 1, x - 1)
    modifies D
    ensures D[y, x] == Cell(X, Y, c, y, x)
    ensures forall i, j :: 0 <= i <= |Y| && 0 <= j <= |X| && (i != y || j != x) ==> D[i, j] == old(D[i, j])
    ensures step == StepAt(X, Y, c, y, x)
  {
    var del := D[y - 1, x] + c.deleteCost;
    var ins := D[y, x - 1] + c.insertCost;
    var sub := D[y - 1, x - 1] + c.substituteCost;
    var mat := D[y - 1, x - 1] + c.matchCost;
    CellFromNeighbours(X, Y, c, y, x, D[y - 1, x], D[y, x - 1], D[y - 1, x - 1]);
    StepFromNeighbours(X, Y, c, y, x, D[y - 1, x], D[y, x - 1], D[y - 1, x - 1]);
    var cell := Min3(del, ins, if X[x - 1] != Y[y - 1] then sub else mat);
    D[y, x] := cell;
    step := Step(X[x - 1], Y[y - 1], Label(Candidates(del, ins, sub, mat, X[x - 1] == Y[y - 1]), cell), cell);
  }

  /** Fill interior row `y` left to right, each cell from its three
      neighbours, and append its trace entries when `show_steps` is set. */
  method FillRow(X: string, Y: string, c: Costs, D: array2<int>, y: nat, trace: seq<Step>) returns (trace': seq<Step>)
    requires 1 <= y <= |Y|
    requires D.Length0 == |Y| + 1 && D.Length1 == |X| + 1
    requires forall i, j :: 0 <= i < y && 0 <= j <= |X| ==> D[i, j] == Cell(X, Y, c, i, j)
    requires forall i :: 0 <= i <= |Y| ==> D[i, 0] == Cell(X, Y, c, i, 0)
    modifies D
    ensures forall i, j :: 0 <= i <= y && 0 <= j <= |X| ==> D[i, j] == Cell(X, Y, c, i, j)
    ensures forall i :: 0 <= i <= |Y| ==> D[i, 0] == Cell(X, Y, c, i, 0)
    ensures trace' == if c.showSteps then trace + TraceRow(X, Y, c, y, |X|) else trace
  {
    trace' := trace;
    for x := 1 to |X| + 1
      invariant forall i, j :: 0 <= i <= |Y| && 0 <= j <= |X| && (i != y || j == 0 || j >= x) ==> D[i, j] == old(D[i, j])
      invariant forall j {:trigger D[y, j]} :: 1 <= j < x ==> D[y, j] == Cell(X, Y, c, y, j)
      invariant c.showSteps ==> trace' == trace + TraceRow(X, Y, c, y, x - 1)
      invariant !c.showSteps ==> trace' == trace
    {
      var step := FillCell(X, Y, c, D, y, x);
      if c.showSteps {
        trace' := trace' + [step];
      }
    }
  }

  /** The table of `edit_distance`: `|Y|+1` rows and `|X|+1` columns, row 0
      and column 0 both multiples of INSERT, every interior cell the minimum
      of its three candidates, filled row by row; the trace holds one entry
      per interior cell when `show_steps` is set and nothing otherwise. */
  method FillTable(X: string, Y: string, c: Costs) returns (D: array2<int>, trace: seq<Step>)
    requires c.insertCost != 0
    ensures fresh(D)
    ensures D.Length0 == |Y| + 1 && D.Length1 == |X| + 1
    ensures forall x :: 0 <= x <= |X| ==> D[0, x] == x * c.insertCost
    ensures forall y :: 0 <= y <= |Y| ==> D[y, 0] == y * c.insertCost
    ensures forall y, x :: 1 <= y <= |Y| && 1 <= x <= |X| ==> Recurs(X, Y, c, D, y, x)
    ensures forall y, x :: 0 <= y <= |Y| && 0 <= x <= |X| ==> D[y, x] == Cell(X, Y, c, y, x)
    ensures trace == Trace(X, Y, c)
  {
    D := AllocateTable(X, Y, c);
    trace := [];
    for y := 1 to |Y| + 1
      invariant forall i, j :: 0 <= i < y && 0 <= j <= |X| ==> D[i, j] == Cell(X, Y, c, i, j)
      invariant forall i :: 0 <= i <= |Y| ==> D[i, 0] == Cell(X, Y, c, i, 0)
      invariant trace == if c.showSteps then TraceRows(X, Y, c, y - 1) else []
    {
      trace := FillRow(X, Y, c, D, y, trace);
    }
    TableFacts(X, Y, c, D);
  }

  /** A table whose every cell holds `Cell` has both boundaries priced by
      INSERT and satisfies the recurrence cell by cell, read off its own
      neighbours. */
  lemma TableFacts(X: string, Y: string, c: Costs, D: array2<int>)
    requires D.Length0 == |Y| + 1 && D.Length1 == |X| + 1
    requires forall y, x :: 0 <= y <= |Y| && 0 <= x <= |X| ==> D[y, x] == Cell(X, Y, c, y, x)
    ensures forall x :: 0 <= x <= |X| ==> D[0, x] == x * c.insertCost
    ensures forall y :: 0 <= y <= |Y| ==> D[y, 0] == y * c.insertCost
    ensures forall y, x :: 1 <= y <= |Y| && 1 <= x <= |X| ==> Recurs(X, Y, c, D, y, x)
  {
    forall x | 0 <= x <= |X| ensures D[0, x] == x * c.insertCost {
      TimesIsProduct(x, c.insertCost);
    }
    forall y | 0 <= y <= |Y| ensures D[y, 0] == y * c.insertCost {
      TimesIsProduct(y, c.insertCost);
    }
    forall y, x | 1 <= y <= |Y| && 1 <= x <= |X|
      ensures Recurs(X, Y, c, D, y, x)
    {
      assert D[y, x] == CandidatesAt(X, Y, c, y, x).Best();
    }
  }

  /** The whole call: merge the keyword arguments over the defaults, build
      the table, and report its bottom-right cell as the distance. */
  method EditDistance(X: string, Y: string, o: Overrides) returns (dist: int, D: array2<int>, trace: seq<Step>)
    requires Merge(o).insertCost != 0
    ensures fresh(D)
    ensures D.Length0 == |Y| + 1 && D.Length1 == |X| + 1
    ensures dist == D[|Y|, |X|]
    ensures dist == Distance(X, Y, Merge(o))
    ensures forall y, x :: 0 <= y <= |Y| && 0 <= x <= |X| ==> D[y, x] == Cell(X, Y, Merge(o), y, x)
    ensures trace == Trace(X, Y, Merge(o))
  {
    var c := Merge(o);
    D, trace := FillTable(X, Y, c);
    dist := D[|Y|, |X|];
  }
}
