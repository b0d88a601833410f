/** Interior gaps filled from the two valid cells around them, along one axis. */
module Interpolated {
  import opened Wrappers
  import opened Pushed
  import opened Reals

  /** The two methods filled from the bracketing cells alone. */
  datatype Method = Linear | Nearest

  function Min(a: int, b: int): int {
    if a <= b then a else b
  }

  /** Each valid cell's own position, the axis length at a gap. */
  function Ahead(xs: seq<Cell>): (r: seq<int>)
    ensures |r| == |xs|
  {
    seq(|xs|, i requires 0 <= i < |xs| => if xs[i].Some? then i else |xs|)
  }

  /** `np.minimum.accumulate`. */
  function RunningMin(s: seq<int>): (r: seq<int>)
    ensures |r| == |s|
  {
    if |s| <= 1 then s
    else
      var r := RunningMin(s[..|s| - 1]);
      r + [Min(r[|r| - 1], s[|s| - 1])]
  }

  function Before(xs: seq<Cell>): (r: seq<int>)
    ensures |r| == |xs|
  {
    RunningMax(Positions(xs))
  }

  function After(xs: seq<Cell>): (r: seq<int>)
    ensures |r| == |xs|
  {
    Flip(RunningMin(Flip(Ahead(xs))))
  }

  function Mix(low: real, high: real, weight: real): real {
    low + (high - low) * weight
  }

  /** The blend of the two cells; NaN in either is NaN. */
  function Blend(low: Cell, high: Cell, weight: real, how: Method): Cell {
    if how.Nearest? then (if weight <= 0.5 then low else high)
    else if low.Some? && high.Some? then Some(Mix(low.value, high.value, weight))
    else None
  }

  function Weight(x: real, lowX: real, highX: real): real {
    var span := if highX == lowX then 1.0 else highX - lowX;
    (x - lowX) / span
  }

  function Filled(xs: seq<Cell>, positions: seq<real>, how: Method, limit: Limit): (r: seq<Cell>)
    requires |positions| == |xs|
    ensures |r| == |xs|
  {
    var before, after, last := Before(xs), After(xs), |xs| - 1;
    seq(|xs|, i requires 0 <= i < |xs| =>
      var left, right := Clip(before[i], 0, last), Clip(after[i], 0, last);
      var between := Blend(xs[left], xs[right], Weight(positions[i], positions[left], positions[right]), how);
      var reachable := before[i] >= 0 && after[i] < |xs| && Within(i - before[i], limit);
      if xs[i].Some? then xs[i] else if reachable then between else None)
  }

  // The scans

  /** The position of the first valid cell at or after `i`, the axis length when there is none. */
  function NextValid(xs: seq<Cell>, i: nat): (j: int)
    requires i < |xs|
    ensures i <= j <= |xs|
    ensures j < |xs| ==> xs[j].Some?
    ensures forall k :: i <= k < j ==> xs[k].None?
    decreases |xs| - i
  {
    if xs[i].Some? then i else if i == |xs| - 1 then |xs| else NextValid(xs, i + 1)
  }

  lemma {:induction false} RunningMinAt(s: seq<int>, i: nat)
    requires i < |s|
    ensures RunningMin(s)[i] == RunningMin(s[..i + 1])[i]
    ensures i > 0 ==> RunningMin(s)[i] == Min(RunningMin(s)[i - 1], s[i])
    ensures i == 0 ==> RunningMin(s)[0] == s[0]
  {
    if i < |s| - 1 {
      var front := s[..|s| - 1];
      RunningMinAt(front, i);
      assert front[..i + 1] == s[..i + 1];
    } else {
      assert s[..i + 1] == s;
    }
  }

  lemma {:induction false} ScanIsNextValid(xs: seq<Cell>, i: nat)
    requires i < |xs|
    ensures After(xs)[i] == NextValid(xs, i)
    decreases |xs| - i
  {
    var s := Flip(Ahead(xs));
    RunningMinAt(s, |xs| - 1 - i);
    assert s[|xs| - 1 - i] == Ahead(xs)[i];
    if i < |xs| - 1 {
      ScanIsNextValid(xs, i + 1);
      assert After(xs)[i + 1] == RunningMin(s)[|xs| - 1 - (i + 1)];
    }
    assert After(xs)[i] == RunningMin(s)[|xs| - 1 - i];
  }

  // What is filled

  /** `j` and `k` are the valid cells around the gap `i`, with nothing but gaps between. */
  ghost predicate Brackets(xs: seq<Cell>, i: int, j: int, k: int) {
    && 0 <= j < i < k < |xs| && xs[j].Some? && xs[k].Some?
    && (forall m :: j < m < k ==> xs[m].None?)
  }

  /** Each position is past the one before it. */
  predicate Increasing(positions: seq<real>) {
    var n := |positions|;
    n <= 1 || (positions[n - 2] < positions[n - 1] && Increasing(positions[..n - 1]))
  }

  lemma {:induction false} IncreasingAt(positions: seq<real>, i: int, j: int)
    requires Increasing(positions) && 0 <= i < j < |positions|
    ensures positions[i] < positions[j]
  {
    var last := |positions| - 1;
    if j < last {
      IncreasingAt(positions[..last], i, j);
    } else if i < last - 1 {
      IncreasingAt(positions[..last], i, last - 1);
    }
  }

  lemma {:induction false} GapAt(xs: seq<Cell>, positions: seq<real>, how: Method, limit: Limit, i: nat)
    requires |positions| == |xs| && i < |xs| && xs[i].None?
    ensures var j, k := LastValid(xs, i), NextValid(xs, i);
      Filled(xs, positions, how, limit)[i] ==
        if j >= 0 && k < |xs| && Within(i - j, limit)
        then Blend(xs[j], xs[k], Weight(positions[i], positions[j], positions[k]), how) else None
  {
    ScanIsLastValid(xs, i);
    ScanIsNextValid(xs, i);
  }

  /** Valid cells stay; a gap is filled exactly when it has a valid cell on either side and the one
      before it is within the limit.  So what stays NaN is what leads, what trails, and what lies
      past the limit. */
  lemma {:induction false} FilledExactly(xs: seq<Cell>, positions: seq<real>, how: Method, limit: Limit, i: nat)
    requires |positions| == |xs| && i < |xs|
    ensures xs[i].Some? ==> Filled(xs, positions, how, limit)[i] == xs[i]
    ensures xs[i].None? ==>
      (Filled(xs, positions, how, limit)[i].Some? <==>
       exists j, k :: Brackets(xs, i, j, k) && (limit.None? || i - j <= limit.value))
  {
    if xs[i].None? {
      if Filled(xs, positions, how, limit)[i].Some? {
        FilledHasBrackets(xs, positions, how, limit, i);
      }
      forall j, k | Brackets(xs, i, j, k) && Within(i - j, limit)
        ensures Filled(xs, positions, how, limit)[i].Some?
      {
        BracketFill(xs, positions, how, limit, i, j, k);
      }
    }
  }

  lemma {:induction false} FilledHasBrackets(xs: seq<Cell>, positions: seq<real>, how: Method, limit: Limit, i: nat)
    requires |positions| == |xs| && i < |xs| && xs[i].None?
    requires Filled(xs, positions, how, limit)[i].Some?
    ensures exists j, k :: Brackets(xs, i, j, k) && Within(i - j, limit)
  {
    GapAt(xs, positions, how, limit, i);
    assert Brackets(xs, i, LastValid(xs, i), NextValid(xs, i));
  }

  lemma {:induction false} BracketsAreScanned(xs: seq<Cell>, i: nat, j: int, k: int)
    requires i < |xs| && Brackets(xs, i, j, k)
    ensures LastValid(xs, i) == j && NextValid(xs, i) == k
  {}

  /** With strictly increasing positions the weight is the share of the way covered. */
  lemma {:induction false} WeightShare(x: real, lowX: real, highX: real)
    requires lowX < x < highX
    ensures 0.0 < Weight(x, lowX, highX) < 1.0
    ensures Weight(x, lowX, highX) * (highX - lowX) == x - lowX
  {
    var span := highX - lowX;
    var w := Weight(x, lowX, highX);
    assert w == (x - lowX) / span;
    assert w * span == x - lowX;
    if w <= 0.0 {
      TimesSign(-w, span);
    }
    if w >= 1.0 {
      TimesSign(w - 1.0, span);
    }
  }

  lemma {:induction false} BracketFill(xs: seq<Cell>, positions: seq<real>, how: Method, limit: Limit, i: nat,
                                       j: int, k: int)
    requires |positions| == |xs| && i < |xs| && Brackets(xs, i, j, k) && Within(i - j, limit)
    ensures Before(xs)[i] == j && After(xs)[i] == k
    ensures Filled(xs, positions, how, limit)[i]
         == Blend(xs[j], xs[k], Weight(positions[i], positions[j], positions[k]), how)
  {
    ScanIsLastValid(xs, i);
    ScanIsNextValid(xs, i);
    GapAt(xs, positions, how, limit, i);
    BracketsAreScanned(xs, i, j, k);
  }

  /** The point (x, v) is on the segment from (lowX, low) to (highX, high). */
  ghost predicate OnSegment(lowX: real, low: real, highX: real, high: real, x: real, v: real) {
    && (v - low) * (highX - lowX) == (high - low) * (x - lowX)
    && (low <= v <= high || high <= v <= low)
  }

  lemma {:induction false} BlendOnSegment(lowX: real, low: real, highX: real, high: real, x: real)
    requires lowX < x < highX
    ensures OnSegment(lowX, low, highX, high, x, Mix(low, high, Weight(x, lowX, highX)))
  {}

  /** A filled cell lies on the straight line through its two bracketing cells, between them. */
  lemma {:induction false} LinearFill(xs: seq<Cell>, positions: seq<real>, limit: Limit, i: nat, j: int, k: int)
    requires |positions| == |xs| && Increasing(positions) && i < |xs|
    requires Brackets(xs, i, j, k) && Within(i - j, limit)
    ensures Filled(xs, positions, Linear, limit)[i].Some?
    ensures OnSegment(positions[j], xs[j].value, positions[k], xs[k].value, positions[i],
                      Filled(xs, positions, Linear, limit)[i].value)
  {
    BracketFill(xs, positions, Linear, limit, i, j, k);
    IncreasingAt(positions, j, i);
    IncreasingAt(positions, i, k);
    BlendOnSegment(positions[j], xs[j].value, positions[k], xs[k].value, positions[i]);
  }

  /** Whatever the positions, a filled cell is on the line through its bracketing cells; where those two
      are at one position they are taken to be one unit apart. */
  lemma {:induction false} AnyPositionsFill(xs: seq<Cell>, positions: seq<real>, limit: Limit, i: nat, j: int, k: int)
    requires |positions| == |xs| && i < |xs| && Brackets(xs, i, j, k) && Within(i - j, limit)
    ensures Filled(xs, positions, Linear, limit)[i].Some?
    ensures var v, low, high := Filled(xs, positions, Linear, limit)[i].value, xs[j].value, xs[k].value;
      var span := if positions[k] == positions[j] then 1.0 else positions[k] - positions[j];
      Times(v - low, span) == Times(high - low, positions[i] - positions[j])
  {
    BracketFill(xs, positions, Linear, limit, i, j, k);
    MixOnLine(xs[j].value, xs[k].value, positions[i], positions[j], positions[k]);
  }

  /** The nearest method between two cells at one position. */
  lemma {:induction false} NearestAtOne(xs: seq<Cell>, positions: seq<real>, limit: Limit, i: nat, j: int, k: int)
    requires |positions| == |xs| && i < |xs| && Brackets(xs, i, j, k) && Within(i - j, limit)
    requires positions[k] == positions[j]
    ensures Filled(xs, positions, Method.Nearest, limit)[i] ==
      if positions[i] - positions[j] <= 0.5 then xs[j] else xs[k]
  {
    BracketFill(xs, positions, Method.Nearest, limit, i, j, k);
    assert Weight(positions[i], positions[j], positions[k]) == positions[i] - positions[j];
  }

  lemma {:induction false} MixOnLine(low: real, high: real, x: real, lowX: real, highX: real)
    ensures Times(Mix(low, high, Weight(x, lowX, highX)) - low, if highX == lowX then 1.0 else highX - lowX)
         == Times(high - low, x - lowX)
  {
    var span := if highX == lowX then 1.0 else highX - lowX;
    var w := Weight(x, lowX, highX);
    assert w * span == x - lowX;
    assert ((high - low) * w) * span == (high - low) * (w * span);
  }

  /** The value at `x` of the line with slope `a` and intercept `b`. */
  function Line(a: real, b: real, x: real): real {
    a * x + b
  }

  /** An affine series is reproduced exactly wherever it is filled. */
  lemma {:induction false} AffineReproduced(xs: seq<Cell>, positions: seq<real>, limit: Limit, a: real, b: real, i: nat)
    requires |positions| == |xs| && Increasing(positions) && i < |xs|
    requires forall m :: 0 <= m < |xs| && xs[m].Some? ==> xs[m].value == Line(a, b, positions[m])
    ensures Filled(xs, positions, Linear, limit)[i] in {None, Some(Line(a, b, positions[i]))}
  {
    FilledExactly(xs, positions, Linear, limit, i);
    if xs[i].None? && Filled(xs, positions, Linear, limit)[i].Some? {
      var j, k :| Brackets(xs, i, j, k) && Within(i - j, limit);
      BracketFill(xs, positions, Linear, limit, i, j, k);
      IncreasingAt(positions, j, i);
      IncreasingAt(positions, i, k);
      BlendOnLine(a, b, positions[j], positions[k], positions[i]);
    }
  }

  lemma {:induction false} BlendOnLine(a: real, b: real, lowX: real, highX: real, x: real)
    requires lowX < x < highX
    ensures Mix(Line(a, b, lowX), Line(a, b, highX), Weight(x, lowX, highX)) == Line(a, b, x)
  {}

  /** The nearest method takes the closer of the two cells, the earlier one on a tie. */
  lemma {:induction false} NearestFill(xs: seq<Cell>, positions: seq<real>, limit: Limit, i: nat, j: int, k: int)
    requires |positions| == |xs| && Increasing(positions) && i < |xs|
    requires Brackets(xs, i, j, k) && Within(i - j, limit)
    ensures Filled(xs, positions, Method.Nearest, limit)[i] ==
      if positions[i] - positions[j] <= positions[k] - positions[i] then xs[j] else xs[k]
  {
    BracketFill(xs, positions, Method.Nearest, limit, i, j, k);
    IncreasingAt(positions, j, i);
    IncreasingAt(positions, i, k);
    HalfWay(positions[i], positions[j], positions[k]);
  }

  lemma {:induction false} HalfWay(x: real, lowX: real, highX: real)
    requires lowX < x < highX
    ensures Weight(x, lowX, highX) <= 0.5 <==> x - lowX <= highX - x
  {
    var w, span := Weight(x, lowX, highX), highX - lowX;
    WeightShare(x, lowX, highX);
    TimesOrdered(w, 0.5, span);
    assert Times(w, span) == x - lowX && Times(0.5, span) == 0.5 * span;
  }
}
