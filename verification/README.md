# Edit distance table, modelled in Dafny

This project models `edit_distance(X, Y, **kwargs)` from `edit_distance.py`.
That function builds the dynamic-programming table of a weighted edit
distance between a source string `X` (the columns) and a destination string
`Y` (the rows). It then reports the bottom-right cell.

What the model covers:

- **Configuration.** `default_params` holds DELETE 1, INSERT 1, SUBSTITUTE 2,
  MATCH 0 and `show_steps` false. Keyword arguments override these key by key
  (`Params`).
- **Allocation.** The table is a `(|Y|+1) x (|X|+1)` `array2<int>` of zeros.
- **Boundaries.** Row 0 and then column 0 are filled from the list
  `[v for v in range(0, k*INSERT, INSERT)]`. Python's `range` is modelled
  literally (`PyRange.Range`), and the list is proved to be exactly the first
  `k` multiples of INSERT for either sign of INSERT. Both boundaries use
  INSERT; column 0 does not use DELETE, and the model keeps that.
- **Interior.** Cells are filled row by row, `y` outer and `x` inner. Each
  cell is `min(above + DELETE, left + INSERT, diagonal + (MATCH if
  X[x-1] == Y[y-1] else SUBSTITUTE))` (`EditTable.FillTable`).
- **Trace.** Each interior cell gets an action label with precedence DEL, then
  INS, then SUB/MAT (`Recurrence.Label`). When `show_steps` is set, one trace
  entry per cell records source character, destination character, label and
  cost. The model returns these entries as a sequence.
- **Result.** The reported distance is `D[|Y|][|X|]`.

The pure specification is `Recurrence.Cell(X, Y, c, y, x)`. The imperative
fill is proved to store exactly `Cell` in every cell. `Cell` is then given an
independent meaning (`Optimality`). It is the least cost of any legal walk
from the cell back to the boundary: DEL steps go up, INS steps go left, and
SUB/MAT steps go diagonally, with SUB allowed only on different characters
and MAT only on equal ones. Following the reported labels gives one such
cheapest walk.

Two things about the function's output:

- `edit_distance` returns nothing: it prints the distance at line 102.
  `EditTable.EditDistance` returns the value that line prints.
- The grid (lines 82-99) is printed whatever `show_steps` says, and it is
  not modelled. Only the action trace depends on the flag.

Modules:

- `maybe.dfy`: `Option`, for a keyword argument that may be absent.
- `params.dfy`: costs, defaults and the merge.
- `multiples.dfy`: `Times(k, w)`, i.e. `k * w` by repeated addition.
- `pyrange.dfy`: Python's `range` and the boundary list.
- `recurrence.dfy`: `Cell`, the candidates and `Label`.
- `table.dfy`: the imperative fill and the trace.
- `properties.dfy`: properties over all inputs.
- `optimality.dfy`: the cheapest-walk meaning of a cell.
- `scenarios.dfy`: concrete tables.

## Model

| member | source | states |
|---|---|---|
| Params.Merge | edit_distance.py:45-46 | every key the caller passes wins; every absent key keeps its default (DELETE 1, INSERT 1, SUBSTITUTE 2, MATCH 0, show_steps false) |
| Params.MergeRoundTrip | edit_distance.py:21-27 | no keyword arguments yield exactly the defaults; passing every key reproduces the configuration it spells out |
| Params.MergeOneKey | edit_distance.py:46 | overriding one cost changes that cost and nothing else in the configuration |
| PyRange.Range | edit_distance.py:57-58 | `range(start, stop, step)` is the progression start + i*step: every element stays on the near side of `stop`, and one more step would reach or pass it |
| PyRange.RangeOfMultiples | edit_distance.py:57-58 | `range(0, m*INSERT, INSERT)` has exactly m elements, element i being i*INSERT, for a positive or a negative INSERT |
| PyRange.StepList | edit_distance.py:57-58 | the boundary list has the length of the row or column it is assigned to, entry i being i*INSERT |
| Multiples.TimesIsProduct | edit_distance.py:57-58 | the repeated-addition multiple used for the boundaries equals k*INSERT |
| Recurrence.Boundary | edit_distance.py:57-58 | row 0 holds x*INSERT in column x and column 0 holds y*INSERT in row y |
| Recurrence.Cell | edit_distance.py:56-68 | the value of cell (y, x) of the table; with non-negative costs no cell is negative, which its recursive calls' contracts carry from the boundary inward |
| Recurrence.Distance | edit_distance.py:102 | the value printed as the minimum edit distance, the bottom-right cell; from "" it is len(Y)*INSERT and to "" it is len(X)*INSERT |
| Recurrence.CellFromNeighbours | edit_distance.py:64-68 | given the values of the cells above, to the left and diagonally above-left, an interior cell is the minimum of above + DELETE, left + INSERT and diagonal + (SUBSTITUTE on different characters, MATCH on equal ones) |
| Recurrence.Min3 | edit_distance.py:68 | the three-way minimum is at most each candidate and equal to one of them |
| Recurrence.Label | edit_distance.py:72-77 | the label is DEL exactly when the cell equals the delete candidate, INS exactly when it equals the insert but not the delete candidate, otherwise MAT on equal characters and SUB on different ones; when the cell is the minimum, the chosen label's candidate equals the stored value |
| Recurrence.LabelAt | edit_distance.py:72-77 | for every interior cell of the table, the candidate of the reported label is the cell's value |
| EditTable.StepAt | edit_distance.py:71-79 | the trace entry of cell (y, x) names X[x-1] and Y[y-1], carries the cell's value, and its action's candidate is that value; the action is DEL exactly when the value equals the delete candidate |
| EditTable.Trace | edit_distance.py:61-79 | with show_steps set the trace has len(Y)*len(X) entries, the entry of cell (y, x) at its row-major position; without it the trace is empty |
| EditTable.Recurs | edit_distance.py:68 | a cell satisfies the recurrence exactly when it is at most each of its delete, insert and substitute-or-match candidates, read from the table, and equal to one of them |
| EditTable.FillCell | edit_distance.py:64-79 | stores `Cell` at (y, x), computed from its three neighbours, changes no other cell, and returns that cell's `StepAt` trace entry |
| EditTable.AllocateTable | edit_distance.py:48-58 | the table has `len(Y)+1` rows and `len(X)+1` columns; row 0 and column 0 hold the boundary values |
| EditTable.FillRow | edit_distance.py:62-79 | after filling row y left to right, every cell of rows 0..y holds `Cell`, and the trace gains that row's entries in column order exactly when show_steps is set |
| EditTable.FillTable | edit_distance.py:48-79 | the table is a freshly allocated array with `len(Y)+1` rows and `len(X)+1` columns; `D[0][x] = x*INSERT` and `D[y][0] = y*INSERT`; every interior cell is the minimum of its delete, insert and substitute-or-match candidates read from the table itself; every cell equals `Cell`; the trace is one entry per interior cell in row-major order when show_steps is set, empty otherwise |
| EditTable.EditDistance | edit_distance.py:45-102 | merging the keyword arguments, building a freshly allocated table and reading the bottom-right cell gives `Distance` of the merged configuration, with table and trace as above |
| EditTable.TableFacts | edit_distance.py:56-68 | a table that agrees with `Cell` has both boundaries priced by INSERT and satisfies the recurrence cell by cell |
| EditTable.PosIsRowMajor | edit_distance.py:61-62 | the position `Pos(y, x, w)` used for trace entries is the row-major index (y-1)*w + (x-1) |
| EditTable.TraceLayout | edit_distance.py:61-79 | the trace of rows 1..n has n*len(X) entries, as a product and as the repeated sum `Times`, and the entry for cell (y, x) sits at `Pos(y, x)`, which equals (y-1)*len(X) + (x-1) |
| Properties.CellIgnoresShowSteps | edit_distance.py:71-79 | the label and the show_steps flag never change any stored cost |
| Properties.ColumnZeroUsesInsert | edit_distance.py:58 | with DELETE 5 and INSERT 1, turning "" into "a" costs 1: column 0 is priced by INSERT, not DELETE |
| Properties.SelfDistanceZero | edit_distance.py:64-68 | with MATCH 0 and non-negative costs, every diagonal cell of the table of X against itself is 0 |
| Properties.DistanceIdentity | edit_distance.py:21-27 | with the default costs, distance(X, X) = 0 |
| Properties.CellSymmetric | edit_distance.py:56-68 | when DELETE equals INSERT, the table of (Y, X) is the transpose of the table of (X, Y) |
| Properties.DistanceSymmetric | edit_distance.py:56-68 | when DELETE equals INSERT, distance(X, Y) = distance(Y, X) |
| Properties.CellMonotone | edit_distance.py:56-68 | raising any of the four costs never lowers any cell |
| Properties.DistanceMonotone | edit_distance.py:56-68 | raising any of the four costs never lowers the distance |
| Properties.SubstitutionAvoided | edit_distance.py:64-77 | when SUBSTITUTE exceeds DELETE + INSERT, a mismatched cell costs at most diagonal + DELETE + INSERT, strictly less than the substitute candidate, and is never labelled SUB |
| Properties.TriangleFails | edit_distance.py:56-68 | with DELETE 1, INSERT 10, SUBSTITUTE 10 and MATCH 0, distance("", "aaaa") = 40 exceeds distance("", "c") + distance("c", "aaaa") = 10 + 13, so the triangle inequality does not hold for this table |
| Optimality.WalkLowerBound | edit_distance.py:61-68 | no legal walk back from a cell to the boundary costs less than the cell |
| Optimality.TracebackAchieves | edit_distance.py:64-77 | following the reported labels back from a cell is a legal walk whose cost is exactly the cell |
| Optimality.CellIsCheapestWalk | edit_distance.py:56-68 | every cell is the least cost of a legal walk back to the boundary, and that least cost is attained |
| Scenarios.EmptyPair | edit_distance.py:48-58 | two empty strings give the 1x1 table [[0]] and distance 0 |
| Scenarios.CatCat | edit_distance.py:21-27 | distance("cat", "cat") = 0 under the defaults |
| Scenarios.CatCut | edit_distance.py:61-68 | distance("cat", "cut") = 2 under the defaults (one substitution) |
| Scenarios.SatuSunda | edit_distance.py:105-106 | the full table for "satu" against "sunda" under the defaults, pinned row by row; distance 5 |

## Left out

- Console output is not modelled: the cost header (line 54), the grid renderer with `rjust` padding (lines 82-99) and the final line (line 102). The trace lines (line 79) become the returned `Step` sequence, not formatted text.
- The distance is not printed. `EditTable.EditDistance` returns it instead, because the source function itself returns nothing.
- numpy's fixed-width `dtype=int` (lines 18 and 51) is not modelled. Table entries are unbounded integers, so int64 overflow on huge costs is not reproduced.
- Keyword arguments other than the five configuration keys are not modelled, and neither are non-integer values. `Overrides` only has the five known keys.
- EditTable.FillTable: requires INSERT to be nonzero instead of modelling the `ValueError` that `range` raises for a zero step (line 57).
- EditTable.EditDistance: requires INSERT to be nonzero, for the same reason.
- The `__main__` demo call (lines 105-106) is not modelled as a call. `Scenarios.SatuSunda` pins the table that call would print.
- The triangle inequality, distance(X, Z) <= distance(X, Y) + distance(Y, Z), is not a property of this code. Column 0 is priced by INSERT while interior vertical steps cost DELETE, so when INSERT exceeds DELETE a detour can be cheaper. `Properties.TriangleFails` exhibits one such case. Whether it holds when INSERT equals DELETE is not proved.
