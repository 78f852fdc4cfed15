/**
 * The rolling acceptance window of Metropolis1dStep (the `_prop_mat` and
 * `_accept_mat` matrices of mcmc/metropolis.py), as values: a window is a
 * sequence of rows, newest first, one boolean per variable. Every iteration
 * the rows move down by one, the oldest row drops out, row 0 is cleared and
 * then marked at the coordinates the proposal changed.
 */
module Window {

  /** Every row of `w` has `width` cells. */
  ghost predicate Uniform(w: seq<seq<bool>>, width: nat)
  {
    forall r :: 0 <= r < |w| ==> |w[r]| == width
  }

  /** A row with no cell set. */
  function Falses(width: nat): (row: seq<bool>)
    ensures |row| == width
  {
    seq(width, _ => false)
  }

  /** An all-false window of `depth` rows, as allocated at run start. */
  function Empty(depth: nat, width: nat): (w: seq<seq<bool>>)
    ensures |w| == depth && Uniform(w, width)
  {
    seq(depth, _ => Falses(width))
  }

  /** The coordinates a proposal changed: where `xp` differs from `x`. */
  function Changed(x: seq<real>, xp: seq<real>): (mask: seq<bool>)
    requires |xp| == |x|
    ensures |mask| == |x|
  {
    seq(|x|, k requires 0 <= k < |x| => xp[k] != x[k])
  }

  /** Rolls the rows down by one (the last row falls off) and clears row 0. */
  function Roll(w: seq<seq<bool>>, width: nat): (r: seq<seq<bool>>)
    requires |w| > 0
  {
    [Falses(width)] + w[..|w| - 1]
  }

  /** Sets row 0 at every coordinate `mask` selects; the other cells keep their value. */
  function Mark(w: seq<seq<bool>>, mask: seq<bool>): (r: seq<seq<bool>>)
    requires |w| > 0 && |w[0]| == |mask|
  {
    w[0 := seq(|mask|, c requires 0 <= c < |mask| => w[0][c] || mask[c])]
  }

  /** Number of rows of `w` whose column `c` is set (one entry of a column sum). */
  function Count(w: seq<seq<bool>>, c: nat): (k: nat)
    requires forall r :: 0 <= r < |w| ==> c < |w[r]|
    decreases |w|
  {
    if |w| == 0 then 0 else (if w[0][c] then 1 else 0) + Count(w[1..], c)
  }

  /** Column sums of a window of the given width. */
  function Counts(w: seq<seq<bool>>, width: nat): (sums: seq<nat>)
    requires Uniform(w, width)
    ensures |sums| == width
  {
    seq(width, c requires 0 <= c < width => Count(w, c))
  }

  /** Cell by cell, an accept window sets only cells its propose window sets. */
  ghost predicate Subsumed(acc: seq<seq<bool>>, prop: seq<seq<bool>>, width: nat)
  {
    |acc| == |prop| && Uniform(acc, width) && Uniform(prop, width) &&
    forall r, c :: 0 <= r < |acc| && 0 <= c < width && acc[r][c] ==> prop[r][c]
  }

  /**
   * Per-variable acceptance ratios from the column sums. Where no proposal is
   * left in the window the division is not performed and the entry holds
   * whatever `unset` gives (the source leaves it unspecified).
   */
  function Ratios(nAcc: seq<nat>, nProp: seq<nat>, unset: seq<real>): (ratios: seq<real>)
    requires |nAcc| == |nProp| == |unset|
    ensures |ratios| == |nProp|
  {
    seq(|nProp|, c requires 0 <= c < |nProp| =>
      if nProp[c] != 0 then nAcc[c] as real / nProp[c] as real else unset[c])
  }

  // ---------------------------------------------------------------------------
  // Properties of the window operations

  /** A column sum never exceeds the depth of the window. */
  lemma {:induction false} CountAtMostDepth(w: seq<seq<bool>>, c: nat)
    requires forall r :: 0 <= r < |w| ==> c < |w[r]|
    ensures Count(w, c) <= |w|
    decreases |w|
  {
    if |w| > 0 {
      CountAtMostDepth(w[1..], c);
    }
  }

  /** Where accept is contained in propose, so are the column sums. */
  lemma {:induction false} SubsumedCounts(acc: seq<seq<bool>>, prop: seq<seq<bool>>, width: nat, c: nat)
    requires Subsumed(acc, prop, width) && c < width
    ensures Count(acc, c) <= Count(prop, c)
    decreases |acc|
  {
    if |acc| > 0 {
      assert Subsumed(acc[1..], prop[1..], width) by {
        forall r, c' | 0 <= r < |acc| - 1 && 0 <= c' < width && acc[1..][r][c']
          ensures prop[1..][r][c']
        {
          assert acc[r + 1][c'];
        }
      }
      SubsumedCounts(acc[1..], prop[1..], width, c);
    }
  }

  /** Dropping the last row removes exactly that row's contribution to a column sum. */
  lemma {:induction false} CountDropLast(w: seq<seq<bool>>, c: nat)
    requires |w| > 0 && forall r :: 0 <= r < |w| ==> c < |w[r]|
    ensures Count(w[..|w| - 1], c) + (if w[|w| - 1][c] then 1 else 0) == Count(w, c)
    decreases |w|
  {
    if |w| > 1 {
      assert w[1..][..|w[1..]| - 1] == w[..|w| - 1][1..];
      CountDropLast(w[1..], c);
    }
  }

  /** Rolling then marking keeps the depth and the width of a window. */
  lemma RollMarkShape(w: seq<seq<bool>>, width: nat, mask: seq<bool>)
    requires |w| > 0 && Uniform(w, width) && |mask| == width
    ensures |Roll(w, width)| == |w| && Uniform(Roll(w, width), width)
    ensures |Mark(Roll(w, width), mask)| == |w| && Uniform(Mark(Roll(w, width), mask), width)
  {
  }

  /**
   * After one iteration row 0 holds exactly the new mask and every older row
   * has moved down by one.
   */
  lemma RollMarkRows(w: seq<seq<bool>>, width: nat, mask: seq<bool>)
    requires |w| > 0 && Uniform(w, width) && |mask| == width
    ensures Roll(w, width)[0] == Falses(width)
    ensures Mark(Roll(w, width), mask)[0] == mask
    ensures forall r :: 1 <= r < |w| ==> Roll(w, width)[r] == w[r - 1]
    ensures forall r :: 1 <= r < |w| ==> Mark(Roll(w, width), mask)[r] == w[r - 1]
  {
    assert Mark(Roll(w, width), mask)[0] == mask;
  }

  /**
   * The column sum after an iteration is the old sum, minus the expired
   * oldest row, plus the new row: the update a circular buffer would make.
   */
  lemma SlidingCount(w: seq<seq<bool>>, width: nat, mask: seq<bool>, c: nat)
    requires |w| > 0 && Uniform(w, width) && |mask| == width && c < width
    ensures Count(Roll(w, width), c) + (if w[|w| - 1][c] then 1 else 0) == Count(w, c)
    ensures Count(Mark(Roll(w, width), mask), c) + (if w[|w| - 1][c] then 1 else 0)
         == Count(w, c) + (if mask[c] then 1 else 0)
  {
    RollMarkRows(w, width, mask);
    CountDropLast(w, c);
    assert Roll(w, width)[1..] == w[..|w| - 1];
    assert Mark(Roll(w, width), mask)[1..] == w[..|w| - 1];
  }

  /** `after` is `before` moved down by one row, its last row dropped, with `row` on top. */
  ghost predicate Shifts(before: seq<seq<bool>>, after: seq<seq<bool>>, row: seq<bool>)
  {
    |before| > 0 && after == [row] + before[..|before| - 1]
  }

  /** Each window of `wins` is the one before it shifted, with the matching entry of `rows` pushed on top. */
  ghost predicate ShiftRun(wins: seq<seq<seq<bool>>>, rows: seq<seq<bool>>)
    decreases |rows|
  {
    |wins| == |rows| + 1 &&
    (|rows| > 0 ==>
       Shifts(wins[|rows| - 1], wins[|rows|], rows[|rows| - 1]) && ShiftRun(wins[..|rows|], rows[..|rows| - 1]))
  }

  /** A run of windows in which every step is a shift is a ShiftRun. */
  lemma {:induction false} ShiftRunOf(wins: seq<seq<seq<bool>>>, rows: seq<seq<bool>>)
    requires |wins| == |rows| + 1
    requires forall k :: 0 <= k < |rows| ==> Shifts(wins[k], wins[k + 1], rows[k])
    ensures ShiftRun(wins, rows)
    decreases |rows|
  {
    if |rows| > 0 {
      var k := |rows| - 1;
      assert Shifts(wins[k], wins[k + 1], rows[k]);
      forall k' | 0 <= k' < k
        ensures Shifts(wins[..k + 1][k'], wins[..k + 1][k' + 1], rows[..k][k'])
      {
        assert Shifts(wins[k'], wins[k' + 1], rows[k']);
      }
      ShiftRunOf(wins[..k + 1], rows[..k]);
    }
  }

  /** Rolling shifts the window with an empty row on top; marking then puts the mask there instead. */
  lemma RollMarkShifts(w: seq<seq<bool>>, width: nat, mask: seq<bool>)
    requires |w| > 0 && Uniform(w, width) && |mask| == width
    ensures Shifts(w, Roll(w, width), Falses(width))
    ensures Shifts(w, Mark(Roll(w, width), mask), mask)
  {
    RollMarkRows(w, width, mask);
    assert Mark(Roll(w, width), mask) == [mask] + w[..|w| - 1];
  }

  /**
   * After a run of shifts the rows below the |rows| pushed ones are the
   * starting rows moved down: row r >= |rows| of the last window is row
   * r - |rows| of the first.
   */
  lemma {:induction false} ShiftFirst(wins: seq<seq<seq<bool>>>, rows: seq<seq<bool>>, r: nat)
    requires ShiftRun(wins, rows) && r >= |rows| && r < |wins[|rows|]|
    ensures r - |rows| < |wins[0]| && wins[|rows|][r] == wins[0][r - |rows|]
    decreases |rows|
  {
    if |rows| > 0 {
      var k := |rows| - 1;
      assert Shifts(wins[k], wins[k + 1], rows[k]);
      assert wins[..k + 1][k] == wins[k] && wins[..k + 1][0] == wins[0];
      ShiftFirst(wins[..k + 1], rows[..k], r - 1);
    }
  }

  /** The top rows of the last window are the rows pushed, newest first. */
  lemma {:induction false} ShiftLast(wins: seq<seq<seq<bool>>>, rows: seq<seq<bool>>, r: nat)
    requires ShiftRun(wins, rows) && r < |rows| && r < |wins[|rows|]|
    ensures wins[|rows|][r] == rows[|rows| - 1 - r]
    decreases |rows|
  {
    var k := |rows| - 1;
    assert Shifts(wins[k], wins[k + 1], rows[k]);
    if r > 0 {
      assert wins[..k + 1][k] == wins[k];
      ShiftLast(wins[..k + 1], rows[..k], r - 1);
    }
  }

  /**
   * One iteration keeps "accept is contained in propose": the propose row is
   * marked at the changed coordinates, the accept row at the same ones or none.
   */
  lemma RollMarkSubsumed(acc: seq<seq<bool>>, prop: seq<seq<bool>>, width: nat, mask: seq<bool>, accepted: bool)
    requires |acc| > 0 && Subsumed(acc, prop, width) && |mask| == width
    ensures var prop' := Mark(Roll(prop, width), mask);
            var acc' := if accepted then Mark(Roll(acc, width), mask) else Roll(acc, width);
            Subsumed(acc', prop', width)
  {
    RollMarkRows(acc, width, mask);
    RollMarkRows(prop, width, mask);
  }

  /** A ratio computed from a nonzero proposal count is that fraction, and lies in [0, 1]. */
  lemma RatioInUnit(nAcc: seq<nat>, nProp: seq<nat>, unset: seq<real>, c: nat)
    requires |nAcc| == |nProp| == |unset| && c < |nProp|
    requires nProp[c] != 0 && nAcc[c] <= nProp[c]
    ensures Ratios(nAcc, nProp, unset)[c] == nAcc[c] as real / nProp[c] as real
    ensures 0.0 <= Ratios(nAcc, nProp, unset)[c] <= 1.0
  {
    var a, p := nAcc[c] as real, nProp[c] as real;
    assert a / p <= 1.0 by {
      assert a <= p;
      assert a / p * p == a;
    }
  }
}
