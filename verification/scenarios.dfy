/** Concrete inputs with their tables pinned, under the default costs.
    The lemmas that step through a table take the strings as parameters
    fixed by their `requires`: over string literals the verifier would
    unfold `Cell` on every literal argument, and the proofs would not finish. */
module Scenarios {
  import opened Params
  import opened Recurrence
  import Properties

  /** The whole table as rows of cells. */
  function Grid(X: string, Y: string, c: Costs): (g: seq<seq<int>>)
    ensures |g| == |Y| + 1
    ensures forall y :: 0 <= y < |g| ==> |g[y]| == |X| + 1
    ensures forall y, x :: 0 <= y <= |Y| && 0 <= x <= |X| ==> g[y][x] == Cell(X, Y, c, y, x)
  {
    seq(|Y| + 1, (y: int) requires 0 <= y <= |Y| =>
      seq(|X| + 1, (x: int) requires 0 <= x <= |X| => Cell(X, Y, c, y, x)))
  }

  /** Two empty strings: a 1 x 1 table holding 0. */
  lemma EmptyPair()
    ensures Grid("", "", Defaults) == [[0]]
    ensures Distance("", "", Defaults) == 0
  {
    assert Grid("", "", Defaults)[0] == [0];
  }

  /** "cat" against itself is at distance 0. */
  lemma CatCat()
    ensures Distance("cat", "cat", Defaults) == 0
  {
    Properties.DistanceIdentity("cat");
  }

  /** "cat" to "cut" costs one substitution, 2. */
  lemma CatCut(X: string, Y: string)
    requires X == "cat" && Y == "cut"
    ensures Distance(X, Y, Defaults) == 2
  {
    var c := Defaults;
    CellFromNeighbours(X, Y, c, 1, 1, 1, 1, 0);
    CellFromNeighbours(X, Y, c, 1, 2, 2, 0, 1);
    CellFromNeighbours(X, Y, c, 1, 3, 3, 1, 2);
    CellFromNeighbours(X, Y, c, 2, 1, 0, 2, 1);
    CellFromNeighbours(X, Y, c, 2, 2, 1, 1, 0);
    CellFromNeighbours(X, Y, c, 2, 3, 2, 2, 1);
    CellFromNeighbours(X, Y, c, 3, 1, 1, 3, 2);
    CellFromNeighbours(X, Y, c, 3, 2, 2, 2, 1);
    CellFromNeighbours(X, Y, c, 3, 3, 3, 3, 2);
  }

  /** "satu" (columns) against "sunda" (rows): the full table, distance 5. */
  lemma SatuSunda(X: string, Y: string)
    requires X == "satu" && Y == "sunda"
    ensures Grid(X, Y, Defaults) ==
      [[0, 1, 2, 3, 4],
       [1, 0, 1, 2, 3],
       [2, 1, 2, 3, 2],
       [3, 2, 3, 4, 3],
       [4, 3, 4, 5, 4],
       [5, 4, 3, 4, 5]]
    ensures Distance(X, Y, Defaults) == 5
  {
    var c := Defaults;
    SatuSundaUpper(X, Y);
    SatuSundaLower(X, Y);
    var g := Grid(X, Y, c);
    assert g[0] == [0, 1, 2, 3, 4];
    assert g[1] == [1, 0, 1, 2, 3];
    assert g[2] == [2, 1, 2, 3, 2];
    assert g[3] == [3, 2, 3, 4, 3];
    assert g[4] == [4, 3, 4, 5, 4];
    assert g[5] == [5, 4, 3, 4, 5];
  }

  /** Rows 1 and 2 of the "satu"/"sunda" table. */
  lemma SatuSundaTop(X: string, Y: string)
    requires X == "satu" && Y == "sunda"
    ensures Cell(X, Y, Defaults, 1, 1) == 0 && Cell(X, Y, Defaults, 1, 2) == 1
    ensures Cell(X, Y, Defaults, 1, 3) == 2 && Cell(X, Y, Defaults, 1, 4) == 3
    ensures Cell(X, Y, Defaults, 2, 1) == 1 && Cell(X, Y, Defaults, 2, 2) == 2
    ensures Cell(X, Y, Defaults, 2, 3) == 3 && Cell(X, Y, Defaults, 2, 4) == 2
  {
    var c := Defaults;
    CellFromNeighbours(X, Y, c, 1, 1, 1, 1, 0);
    CellFromNeighbours(X, Y, c, 1, 2, 2, 0, 1);
    CellFromNeighbours(X, Y, c, 1, 3, 3, 1, 2);
    CellFromNeighbours(X, Y, c, 1, 4, 4, 2, 3);
    CellFromNeighbours(X, Y, c, 2, 1, 0, 2, 1);
    CellFromNeighbours(X, Y, c, 2, 2, 1, 1, 0);
    CellFromNeighbours(X, Y, c, 2, 3, 2, 2, 1);
    CellFromNeighbours(X, Y, c, 2, 4, 3, 3, 2);
  }

  /** Rows 1 to 3 of the "satu"/"sunda" table. */
  lemma SatuSundaUpper(X: string, Y: string)
    requires X == "satu" && Y == "sunda"
    ensures Cell(X, Y, Defaults, 1, 1) == 0 && Cell(X, Y, Defaults, 1, 2) == 1
    ensures Cell(X, Y, Defaults, 1, 3) == 2 && Cell(X, Y, Defaults, 1, 4) == 3
    ensures Cell(X, Y, Defaults, 2, 1) == 1 && Cell(X, Y, Defaults, 2, 2) == 2
    ensures Cell(X, Y, Defaults, 2, 3) == 3 && Cell(X, Y, Defaults, 2, 4) == 2
    ensures Cell(X, Y, Defaults, 3, 1) == 2 && Cell(X, Y, Defaults, 3, 2) == 3
    ensures Cell(X, Y, Defaults, 3, 3) == 4 && Cell(X, Y, Defaults, 3, 4) == 3
  {
    var c := Defaults;
    SatuSundaTop(X, Y);
    CellFromNeighbours(X, Y, c, 3, 1, 1, 3, 2);
    CellFromNeighbours(X, Y, c, 3, 2, 2, 2, 1);
    CellFromNeighbours(X, Y, c, 3, 3, 3, 3, 2);
    CellFromNeighbours(X, Y, c, 3, 4, 2, 4, 3);
  }

  /** Rows 4 and 5 of the "satu"/"sunda" table. */
  lemma SatuSundaLower(X: string, Y: string)
    requires X == "satu" && Y == "sunda"
    ensures Cell(X, Y, Defaults, 4, 1) == 3 && Cell(X, Y, Defaults, 4, 2) == 4
    ensures Cell(X, Y, Defaults, 4, 3) == 5 && Cell(X, Y, Defaults, 4, 4) == 4
    ensures Cell(X, Y, Defaults, 5, 1) == 4 && Cell(X, Y, Defaults, 5, 2) == 3
    ensures Cell(X, Y, Defaults, 5, 3) == 4 && Cell(X, Y, Defaults, 5, 4) == 5
  {
    var c := Defaults;
    SatuSundaUpper(X, Y);
    CellFromNeighbours(X, Y, c, 4, 1, 2, 4, 3);
    CellFromNeighbours(X, Y, c, 4, 2, 3, 3, 2);
    CellFromNeighbours(X, Y, c, 4, 3, 4, 4, 3);
    CellFromNeighbours(X, Y, c, 4, 4, 3, 5, 4);
    CellFromNeighbours(X, Y, c, 5, 1, 3, 5, 4);
    CellFromNeighbours(X, Y, c, 5, 2, 4, 4, 3);
    CellFromNeighbours(X, Y, c, 5, 3, 5, 3, 4);
    CellFromNeighbours(X, Y, c, 5, 4, 4, 4, 5);
  }
}
