/** The weighted statistics of one slice of cells: NaN cells leave every sum. */
module WeightedStats {
  import opened Reals
  import opened Wrappers

  /** A cell with its group label and its weight. */
  datatype Item = Item(group: int, value: Cell, weight: real)

  /** Σ w over the valid cells. */
  function Total(s: seq<Item>): real {
    if s == [] then 0.0
    else (if s[0].value.Some? then s[0].weight else 0.0) + Total(s[1..])
  }

  /** Σ wx over the valid cells. */
  function WeightedSum(s: seq<Item>): real {
    if s == [] then 0.0
    else (if s[0].value.Some? then Times(s[0].weight, s[0].value.value) else 0.0) + WeightedSum(s[1..])
  }

  /** Σ w(x - m)² over the valid cells. */
  function Deviation(s: seq<Item>, m: real): real {
    if s == [] then 0.0
    else (if s[0].value.Some? then Spread(s[0].weight, s[0].value.value, m) else 0.0) + Deviation(s[1..], m)
  }

  function Spread(w: real, x: real, m: real): real {
    Times(w, Times(x - m, x - m))
  }

  /** Σ wx² over the valid cells. */
  function WeightedSquares(s: seq<Item>): real {
    if s == [] then 0.0
    else (if s[0].value.Some? then Spread(s[0].weight, s[0].value.value, 0.0) else 0.0) + WeightedSquares(s[1..])
  }

  predicate Anything(s: seq<Item>) {
    exists i :: 0 <= i < |s| && s[i].value.Some?
  }

  datatype How = SumOfWeights | Sum | Mean | Var

  /** The weighted statistic of a slice: NaN without a valid cell, and, where the total weight
      divides, NaN when that is zero. */
  function Statistic(s: seq<Item>, how: How): Cell {
    var total := Total(s);
    var safe := if total == 0.0 then 1.0 else total;
    var usable := Anything(s) && total != 0.0;
    var mean := Over(WeightedSum(s), safe);
    match how
    case SumOfWeights => if Anything(s) then Some(total) else None
    case Sum => if Anything(s) then Some(WeightedSum(s)) else None
    case Mean => if usable then Some(mean) else None
    case Var => if usable then Some(Over(Deviation(s, mean), safe)) else None
  }

  // What the variance is

  lemma {:induction false} SpreadExpands(w: real, x: real, m: real)
    ensures Spread(w, x, m) == Spread(w, x, 0.0) - 2.0 * Times(m, Times(w, x)) + Times(Times(m, m), w)
  {}

  lemma {:induction false} DeviationExpands(s: seq<Item>, m: real)
    ensures Deviation(s, m)
         == WeightedSquares(s) - 2.0 * Times(m, WeightedSum(s)) + Times(Times(m, m), Total(s))
  {
    if s != [] {
      var rest := s[1..];
      DeviationExpands(rest, m);
      if s[0].value.Some? {
        var w, x := s[0].weight, s[0].value.value;
        SpreadExpands(w, x, m);
        TimesAdds(m, Times(w, x), WeightedSum(rest));
        TimesAdds(Times(m, m), w, Total(rest));
      }
    }
  }

  lemma {:induction false} MeanSquare(squares: real, sum: real, total: real)
    requires total != 0.0
    ensures var m := Over(sum, total);
      Over(squares - 2.0 * Times(m, sum) + Times(Times(m, m), total), total) == Over(squares, total) - Times(m, m)
  {}

  /** The variance is the weighted mean square minus the squared weighted mean. */
  lemma {:induction false} VarIsMeanSquareLessSquare(s: seq<Item>)
    requires Statistic(s, Var).Some?
    ensures Statistic(s, Mean).Some?
    ensures Statistic(s, Var).value
         == Over(WeightedSquares(s), Total(s)) - Times(Statistic(s, Mean).value, Statistic(s, Mean).value)
  {
    var m := Over(WeightedSum(s), Total(s));
    DeviationExpands(s, m);
    MeanSquare(WeightedSquares(s), WeightedSum(s), Total(s));
  }

  lemma {:induction false} DeviationNonNegative(s: seq<Item>, m: real)
    requires forall i :: 0 <= i < |s| ==> s[i].weight >= 0.0
    ensures Deviation(s, m) >= 0.0 && Total(s) >= 0.0
  {
    if s != [] {
      DeviationNonNegative(s[1..], m);
      if s[0].value.Some? {
        Square(s[0].value.value - m);
        TimesSign(s[0].weight, Times(s[0].value.value - m, s[0].value.value - m));
      }
    }
  }

  /** With no negative weight the variance is never negative. */
  lemma {:induction false} VarNonNegative(s: seq<Item>)
    requires forall i :: 0 <= i < |s| ==> s[i].weight >= 0.0
    ensures Statistic(s, Var).Some? ==> Statistic(s, Var).value >= 0.0
  {
    if Statistic(s, Var).Some? {
      var m := Over(WeightedSum(s), Total(s));
      DeviationNonNegative(s, m);
      OverOrdered(Deviation(s, m), 0.0, Total(s));
    }
  }

  /** `np.sqrt` of a cell, whatever function it is: NaN stays NaN. */
  function Rooted(c: Cell, root: real -> real): Cell {
    if c.Some? then Some(root(c.value)) else None
  }

  /** The function is the square root on what is not negative. */
  ghost predicate IsRoot(root: real -> real) {
    forall x: real :: x >= 0.0 ==> root(x) >= 0.0 && Times(root(x), root(x)) == x
  }

  /** The standard deviation, `how` being "std". */
  function Std(s: seq<Item>, root: real -> real): Cell {
    Rooted(Statistic(s, Var), root)
  }

  /** With no negative weight the standard deviation is the number not negative whose square is the
      variance, NaN in the same cases. */
  lemma {:induction false} StdSquares(s: seq<Item>, root: real -> real)
    requires IsRoot(root) && forall i :: 0 <= i < |s| ==> s[i].weight >= 0.0
    ensures Std(s, root).Some? <==> Statistic(s, Var).Some?
    ensures Std(s, root).Some? ==>
      Std(s, root).value >= 0.0 && Times(Std(s, root).value, Std(s, root).value) == Statistic(s, Var).value
  {
    VarNonNegative(s);
  }
}
