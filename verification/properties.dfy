/** Properties of the edit-distance table that hold for all inputs. */
module Properties {
  import opened Params
  import opened Recurrence
  import opened Multiples

  /** `show_steps` only decides whether the trace is produced: every cell,
      and so the distance, is the same with or without it. */
  lemma {:induction false} CellIgnoresShowSteps(X: string, Y: string, c: Costs, b: bool, y: nat, x: nat)
    requires y <= |Y| && x <= |X|
    ensures Cell(X, Y, c.(showSteps := b), y, x) == Cell(X, Y, c, y, x)
    decreases y + x
  {
    if y > 0 && x > 0 {
      CellIgnoresShowSteps(X, Y, c, b, y - 1, x);
      CellIgnoresShowSteps(X, Y, c, b, y, x - 1);
      CellIgnoresShowSteps(X, Y, c, b, y - 1, x - 1);
    }
  }

  /** Column 0 is priced with INSERT even when DELETE differs: with DELETE 5
      and INSERT 1, turning "" into "a" costs 1, not 5. */
  lemma ColumnZeroUsesInsert()
    ensures Distance("", "a", Costs(5, 1, 2, 0, false)) == 1
  {
    assert Cell("", "a", Costs(5, 1, 2, 0, false), 1, 0) == 1;
  }

  /** A string is at distance 0 from itself whenever MATCH is 0 and the
      other costs are non-negative: along the diagonal every step matches. */
  lemma {:induction false} SelfDistanceZero(X: string, c: Costs, i: nat)
    requires NonNegative(c) && c.matchCost == 0
    requires i <= |X|
    ensures Cell(X, X, c, i, i) == 0
  {
    if i > 0 {
      SelfDistanceZero(X, c, i - 1);
      assert CandidatesAt(X, X, c, i, i).Diag() == 0;
    }
  }

  /** With the default costs, `distance(X, X) == 0`. */
  lemma DistanceIdentity(X: string)
    ensures Distance(X, X, Defaults) == 0
  {
    SelfDistanceZero(X, Defaults, |X|);
  }

  /** When DELETE equals INSERT the table of (Y, X) is the transpose of the
      table of (X, Y), so the distance is symmetric. */
  lemma {:induction false} CellSymmetric(X: string, Y: string, c: Costs, y: nat, x: nat)
    requires c.deleteCost == c.insertCost
    requires y <= |Y| && x <= |X|
    ensures Cell(X, Y, c, y, x) == Cell(Y, X, c, x, y)
    decreases y + x
  {
    if y > 0 && x > 0 {
      CellSymmetric(X, Y, c, y - 1, x);
      CellSymmetric(X, Y, c, y, x - 1);
      CellSymmetric(X, Y, c, y - 1, x - 1);
      var k := CandidatesAt(X, Y, c, y, x);
      var k' := CandidatesAt(Y, X, c, x, y);
      assert k'.del == k.ins && k'.ins == k.del && k'.Diag() == k.Diag();
    }
  }

  lemma DistanceSymmetric(X: string, Y: string, c: Costs)
    requires c.deleteCost == c.insertCost
    ensures Distance(X, Y, c) == Distance(Y, X, c)
  {
    CellSymmetric(X, Y, c, |Y|, |X|);
  }

  /** Every cost of `c` is at most the corresponding cost of `d`. */
  predicate NoDearer(c: Costs, d: Costs) {
    && c.deleteCost <= d.deleteCost
    && c.insertCost <= d.insertCost
    && c.substituteCost <= d.substituteCost
    && c.matchCost <= d.matchCost
  }

  /** Raising any cost never lowers any cell, and so never lowers the distance. */
  lemma {:induction false} CellMonotone(X: string, Y: string, c: Costs, d: Costs, y: nat, x: nat)
    requires NoDearer(c, d)
    requires y <= |Y| && x <= |X|
    ensures Cell(X, Y, c, y, x) <= Cell(X, Y, d, y, x)
    decreases y + x
  {
    if y == 0 || x == 0 {
      TimesMonotone(if y == 0 then x else y, c.insertCost, d.insertCost);
    } else {
      CellMonotone(X, Y, c, d, y - 1, x);
      CellMonotone(X, Y, c, d, y, x - 1);
      CellMonotone(X, Y, c, d, y - 1, x - 1);
      Min3Monotone(CandidatesAt(X, Y, c, y, x), CandidatesAt(X, Y, d, y, x));
    }
  }

  lemma Min3Monotone(k: Candidates, l: Candidates)
    requires k.same == l.same
    requires k.del <= l.del && k.ins <= l.ins && k.sub <= l.sub && k.mat <= l.mat
    ensures k.Best() <= l.Best()
  {
  }

  lemma DistanceMonotone(X: string, Y: string, c: Costs, d: Costs)
    requires NoDearer(c, d)
    ensures Distance(X, Y, c) <= Distance(X, Y, d)
  {
    CellMonotone(X, Y, c, d, |Y|, |X|);
  }

  /** Going one column to the right never costs more than one INSERT. */
  lemma LeftStep(X: string, Y: string, c: Costs, y: nat, x: nat)
    requires y <= |Y| && 1 <= x <= |X|
    ensures Cell(X, Y, c, y, x) <= Cell(X, Y, c, y, x - 1) + c.insertCost
  {
  }

  /** When SUBSTITUTE costs more than DELETE plus INSERT, a mismatched cell
      is never reached by substitution: its value undercuts the substitute
      candidate, and its label is never SUB. */
  lemma SubstitutionAvoided(X: string, Y: string, c: Costs, y: nat, x: nat)
    requires 1 <= y <= |Y| && 1 <= x <= |X|
    requires X[x - 1] != Y[y - 1]
    requires c.substituteCost > c.deleteCost + c.insertCost
    ensures Cell(X, Y, c, y, x) <= Cell(X, Y, c, y - 1, x - 1) + c.deleteCost + c.insertCost
    ensures Cell(X, Y, c, y, x) < CandidatesAt(X, Y, c, y, x).sub
    ensures LabelAt(X, Y, c, y, x) != SUB
  {
    LeftStep(X, Y, c, y - 1, x);
  }

  /** The triangle inequality fails on this table when INSERT exceeds DELETE,
      because column 0 is priced by INSERT: with DELETE 1, INSERT 10,
      SUBSTITUTE 10 (no more than DELETE + INSERT) and MATCH 0, going from ""
      to "aaaa" costs 40, yet going through "c" costs 10 + 13. */
  lemma TriangleFails(X: string, Y: string, Z: string)
    requires X == "" && Y == "c" && Z == "aaaa"
    ensures var c := Costs(1, 10, 10, 0, false);
      Distance(X, Z, c) == 40 && Distance(X, Y, c) == 10 && Distance(Y, Z, c) == 13 &&
      Distance(X, Z, c) > Distance(X, Y, c) + Distance(Y, Z, c)
  {
    var c := Costs(1, 10, 10, 0, false);
    TimesIsProduct(4, 10);
    TimesIsProduct(1, 10);
    assert Cell(Y, Z, c, 1, 1) == 10;
    assert Cell(Y, Z, c, 2, 1) == 11;
    assert Cell(Y, Z, c, 3, 1) == 12;
    assert Cell(Y, Z, c, 4, 1) == 13;
  }
}
