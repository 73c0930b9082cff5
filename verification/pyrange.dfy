/** Python's `range(start, stop, step)` as a list, which the source uses to
    build the first row and the first column of the table. */
module PyRange {
  import opened Multiples

  /** The arithmetic progression start, start+step, ... that stays strictly
      below `stop` (or strictly above it for a negative step). A zero step
      raises in Python, hence the precondition. */
  function Range(start: int, stop: int, step: int): (r: seq<int>)
    requires step != 0
    ensures forall i :: 0 <= i < |r| ==> r[i] == start + Times(i, step)
    ensures step > 0 ==> (forall i :: 0 <= i < |r| ==> r[i] < stop) && start + Times(|r|, step) >= stop
    ensures step < 0 ==> (forall i :: 0 <= i < |r| ==> r[i] > stop) && start + Times(|r|, step) <= stop
    decreases if step > 0 then stop - start else start - stop
  {
    if (step > 0 && start < stop) || (step < 0 && start > stop) then
      var rest := Range(start + step, stop, step);
      RangeCons(start, step, rest);
      [start] + rest
    else
      []
  }

  /** Putting `start` in front of the progression from `start + step` gives
      the progression from `start`, one element longer. */
  lemma RangeCons(start: int, step: int, rest: seq<int>)
    requires forall i :: 0 <= i < |rest| ==> rest[i] == start + step + Times(i, step)
    ensures forall i :: 0 <= i < |rest| + 1 ==> ([start] + rest)[i] == start + Times(i, step)
    ensures |[start] + rest| == |rest| + 1
    ensures start + step + Times(|rest|, step) == start + Times(|rest| + 1, step)
  {
    forall i | 1 <= i < |rest| + 1 ensures ([start] + rest)[i] == start + Times(i, step) {
      TimesShift(i - 1, step);
    }
    TimesShift(|rest|, step);
  }

  /** Element i of a range, and the side of `stop` it lies on. */
  lemma RangeElement(start: int, stop: int, step: int, i: nat)
    requires step != 0 && i < |Range(start, stop, step)|
    ensures Range(start, stop, step)[i] == start + Times(i, step)
    ensures if step > 0 then start + Times(i, step) < stop else start + Times(i, step) > stop
  {
  }

  /** `range(0, m*step, step)` is exactly the m multiples 0, step, ..., (m-1)*step,
      whichever the sign of `step`: so the list the source assigns to a row
      or column of length m always has the right length. */
  lemma RangeOfMultiples(m: nat, step: int)
    requires step != 0
    ensures |Range(0, m * step, step)| == m
    ensures forall i :: 0 <= i < m ==> Range(0, m * step, step)[i] == Times(i, step)
  {
    TimesIsProduct(m, step);
    var r := Range(0, Times(m, step), step);
    var k := |r|;
    if k < m {
      TimesStrict(k, m, step);
      assert false;
    } else if k > m {
      RangeElement(0, Times(m, step), step, m);
      assert false;
    }
  }

  /** The list `[v for v in range(0, k*step, step)]` that the source assigns
      to a whole row or column: exactly k entries, entry i being i*step. */
  method StepList(k: nat, step: int) returns (r: seq<int>)
    requires step != 0
    ensures |r| == k
    ensures forall i :: 0 <= i < k ==> r[i] == Times(i, step)
  {
    r := Range(0, k * step, step);
    RangeOfMultiples(k, step);
  }
}
