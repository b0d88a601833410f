/** The weighted quantile: Hazen plotting positions, interpolated and clamped at the ends. */
module WeightedQuantile {
  import opened Reals
  import opened Wrappers

  /** A valid cell: its value, and its weight. */
  datatype Point = Point(value: real, weight: real)

  /** A plotting position on [0, 1] and the value plotted there. */
  datatype Node = Node(at: real, height: real)

  datatype QuantileError = BadQuantile

  // The cells that count, sorted

  /** The cells that are not NaN and weigh more than nothing. */
  function Good(values: seq<Cell>, weights: seq<real>): (r: seq<Point>)
    requires |values| == |weights|
    ensures forall i :: 0 <= i < |r| ==> r[i].weight > 0.0
  {
    if values == [] then []
    else
      (if values[0].Some? && weights[0] > 0.0 then [Point(values[0].value, weights[0])] else [])
      + Good(values[1..], weights[1..])
  }

  /** Cell `i` is a number and weighs more than nothing. */
  predicate CountsAt(values: seq<Cell>, weights: seq<real>, i: nat)
    requires |values| == |weights|
  {
    i < |values| && values[i].Some? && weights[i] > 0.0
  }

  /** Stable sort by value: an earlier cell goes before the later ones it ties with. */
  function Sorted(s: seq<Point>): (r: seq<Point>)
    ensures |r| == |s|
  {
    if s == [] then [] else Place(s[0], Sorted(s[1..]))
  }

  function Place(x: Point, s: seq<Point>): (r: seq<Point>)
    ensures |r| == |s| + 1
  {
    if s == [] || x.value <= s[0].value then [x] + s else [s[0]] + Place(x, s[1..])
  }

  predicate InOrder(s: seq<Point>) {
    |s| <= 1 || (s[0].value <= s[1].value && InOrder(s[1..]))
  }

  predicate Weighty(s: seq<Point>) {
    s == [] || (s[0].weight > 0.0 && Weighty(s[1..]))
  }

  function Sum(s: seq<Point>): real {
    if s == [] then 0.0 else s[0].weight + Sum(s[1..])
  }

  lemma {:induction false} PlaceWorks(x: Point, s: seq<Point>)
    requires InOrder(s)
    ensures InOrder(Place(x, s))
    ensures multiset(Place(x, s)) == multiset{x} + multiset(s)
    ensures Sum(Place(x, s)) == x.weight + Sum(s)
    ensures Weighty(s) && x.weight > 0.0 ==> Weighty(Place(x, s))
  {
    if s == [] || x.value <= s[0].value {
      assert ([x] + s)[1..] == s;
    } else {
      var r := Place(x, s[1..]);
      PlaceWorks(x, s[1..]);
      assert ([s[0]] + r)[1..] == r && s == [s[0]] + s[1..];
      assert r[0] == x || r[0] == s[1];
    }
  }

  /** Sorting orders the cells and neither loses nor adds any. */
  lemma {:induction false} SortedWorks(s: seq<Point>)
    ensures InOrder(Sorted(s)) && multiset(Sorted(s)) == multiset(s) && Sum(Sorted(s)) == Sum(s)
    ensures (forall i :: 0 <= i < |s| ==> s[i].weight > 0.0) ==> Weighty(Sorted(s))
  {
    if s != [] {
      SortedWorks(s[1..]);
      PlaceWorks(s[0], Sorted(s[1..]));
      assert s == [s[0]] + s[1..];
    }
  }

  lemma {:induction false} SumPositive(s: seq<Point>)
    requires Weighty(s)
    ensures Sum(s) >= 0.0 && (s != [] ==> Sum(s) > 0.0)
  {
    if s != [] {
      SumPositive(s[1..]);
    }
  }

  // Plotting positions

  /** `(cumsum(w) - 0.5 * w) / total`, `before` being the weight ahead of `s`. */
  function Nodes(s: seq<Point>, before: real, total: real): (r: seq<Node>)
    requires total != 0.0
    ensures |r| == |s| && forall i :: 0 <= i < |s| ==> r[i].height == s[i].value
  {
    if s == [] then []
    else
      var upTo := before + s[0].weight;
      [Node(Over(upTo - 0.5 * s[0].weight, total), s[0].value)] + Nodes(s[1..], upTo, total)
  }

  /** `np.interp` on rising positions. */
  function Interp(q: real, nodes: seq<Node>): real
    requires nodes != [] && Rising(nodes)
  {
    if |nodes| == 1 || q <= nodes[0].at then nodes[0].height
    else if q < nodes[1].at then Line(nodes[0], nodes[1], q)
    else Interp(q, nodes[1..])
  }

  function Line(a: Node, b: Node, q: real): real
    requires a.at < b.at
  {
    a.height + Times(Over(b.height - a.height, b.at - a.at), q - a.at)
  }

  predicate Rising(nodes: seq<Node>) {
    |nodes| <= 1 || (nodes[0].at < nodes[1].at && Rising(nodes[1..]))
  }

  predicate Climbing(nodes: seq<Node>) {
    |nodes| <= 1 || (nodes[0].height <= nodes[1].height && Climbing(nodes[1..]))
  }

  predicate Between(nodes: seq<Node>, low: real, high: real) {
    nodes == [] || (low < nodes[0].at < high && Between(nodes[1..], low, high))
  }

  /** One row's quantile, NaN when no cell counts. */
  function RowQuantile(values: seq<Cell>, weights: seq<real>, q: real): Cell
    requires |values| == |weights|
  {
    var kept := Sorted(Good(values, weights));
    if kept == [] then None
    else
      PositionsRise(Good(values, weights));
      Some(Interp(q, Nodes(kept, 0.0, Sum(kept))))
  }

  lemma {:induction false} NothingGood(values: seq<Cell>, weights: seq<real>)
    requires |values| == |weights|
    ensures Good(values, weights) == [] <==> forall i: nat :: !CountsAt(values, weights, i)
  {
    if values != [] {
      NothingGood(values[1..], weights[1..]);
      if i: nat :| CountsAt(values, weights, i) && i > 0 {
        assert CountsAt(values[1..], weights[1..], i - 1);
      }
      if i: nat :| CountsAt(values[1..], weights[1..], i) {
        assert CountsAt(values, weights, i + 1);
      }
      assert CountsAt(values, weights, 0) <==> values[0].Some? && weights[0] > 0.0;
    }
  }

  /** A row's quantile is NaN exactly when no cell is a number with a positive weight. */
  lemma {:induction false} NaNExactly(values: seq<Cell>, weights: seq<real>, q: real)
    requires |values| == |weights|
    ensures RowQuantile(values, weights, q).None? <==> forall i: nat :: !CountsAt(values, weights, i)
  {
    NothingGood(values, weights);
  }

  lemma {:induction false} OverInside(a: real, total: real)
    requires 0.0 < a < total
    ensures 0.0 < Over(a, total) < 1.0
  {
    OverOrdered(a, total, total);
    OverOrdered(0.0, a, total);
    assert total / total == 1.0 && 0.0 / total == 0.0;
  }

  lemma {:induction false} NodesRise(s: seq<Point>, before: real, total: real)
    requires Weighty(s) && 0.0 <= before && before + Sum(s) <= total && 0.0 < total
    ensures Rising(Nodes(s, before, total)) && Between(Nodes(s, before, total), 0.0, 1.0)
  {
    if s != [] {
      var upTo := before + s[0].weight;
      SumPositive(s[1..]);
      NodesRise(s[1..], upTo, total);
      OverInside(upTo - 0.5 * s[0].weight, total);
      if |s| > 1 {
        OverOrdered(upTo - 0.5 * s[0].weight, upTo + s[1].weight - 0.5 * s[1].weight, total);
      }
      assert Nodes(s, before, total)[1..] == Nodes(s[1..], upTo, total);
    }
  }

  /** The plotting positions rise strictly inside (0, 1). */
  lemma {:induction false} PositionsRise(good: seq<Point>)
    requires forall i :: 0 <= i < |good| ==> good[i].weight > 0.0
    requires good != []
    ensures Sum(Sorted(good)) > 0.0
    ensures var nodes := Nodes(Sorted(good), 0.0, Sum(Sorted(good))); Rising(nodes) && Between(nodes, 0.0, 1.0)
  {
    SortedWorks(good);
    SumPositive(Sorted(good));
    NodesRise(Sorted(good), 0.0, Sum(Sorted(good)));
  }

  lemma {:induction false} NodesClimb(s: seq<Point>, before: real, total: real)
    requires InOrder(s) && total != 0.0
    ensures Climbing(Nodes(s, before, total))
  {
    if s != [] {
      NodesClimb(s[1..], before + s[0].weight, total);
      assert Nodes(s, before, total)[1..] == Nodes(s[1..], before + s[0].weight, total);
    }
  }

  // The interpolated curve

  lemma {:induction false} LineClimbs(a: Node, b: Node, p: real, q: real)
    requires a.at < b.at && a.height <= b.height && a.at <= p <= q <= b.at
    ensures a.height <= Line(a, b, p) <= Line(a, b, q) <= b.height
  {
    var slope := Over(b.height - a.height, b.at - a.at);
    OverOrdered(b.height - a.height, 0.0, b.at - a.at);
    OverTimes(b.height - a.height, b.at - a.at);
    TimesSign(slope, p - a.at);
    TimesSign(slope, q - p);
    TimesSign(slope, b.at - q);
    TimesAdds(slope, p - a.at, q - p);
    TimesAdds(slope, q - a.at, b.at - q);
  }

  /** A larger `q` never gives a smaller value, and no value leaves the range of the heights. */
  lemma {:induction false} InterpClimbs(p: real, q: real, nodes: seq<Node>)
    requires nodes != [] && Rising(nodes) && Climbing(nodes) && p <= q
    ensures nodes[0].height <= Interp(p, nodes) <= Interp(q, nodes) <= nodes[|nodes| - 1].height
  {
    if |nodes| > 1 {
      InterpClimbs(p, q, nodes[1..]);
      if nodes[0].at < q < nodes[1].at {
        LineClimbs(nodes[0], nodes[1], if p < nodes[0].at then nodes[0].at else p, q);
      } else if nodes[0].at < p < nodes[1].at {
        LineClimbs(nodes[0], nodes[1], p, p);
      }
    }
  }

  ghost predicate OnLine(a: Node, b: Node, q: real, r: real) {
    (r - a.height) * (b.at - a.at) == (b.height - a.height) * (q - a.at)
  }

  lemma {:induction false} LineIsOnLine(a: Node, b: Node, q: real)
    requires a.at < b.at
    ensures OnLine(a, b, q, Line(a, b, q))
  {}

  lemma {:induction false} RisingFrom(nodes: seq<Node>, i: nat)
    requires Rising(nodes) && i < |nodes|
    ensures nodes[0].at <= nodes[i].at && (i > 0 ==> nodes[0].at < nodes[i].at)
    ensures i + 1 < |nodes| ==> nodes[i].at < nodes[i + 1].at
  {
    if i > 0 {
      RisingFrom(nodes[1..], i - 1);
    }
  }

  /** At a position the quantile is that cell's value; between two it is on the line joining them. */
  lemma {:induction false} ThroughEveryPoint(nodes: seq<Node>, i: nat, q: real)
    requires Rising(nodes) && i < |nodes|
    ensures q == nodes[i].at ==> Interp(q, nodes) == nodes[i].height
    ensures i + 1 < |nodes| && nodes[i].at <= q <= nodes[i + 1].at ==>
      OnLine(nodes[i], nodes[i + 1], q, Interp(q, nodes))
  {
    RisingFrom(nodes, i);
    if i == 0 {
      if |nodes| > 1 && nodes[0].at <= q <= nodes[1].at {
        LineIsOnLine(nodes[0], nodes[1], q);
      }
    } else {
      RisingFrom(nodes, 1);
      ThroughEveryPoint(nodes[1..], i - 1, q);
      RisingFrom(nodes[1..], i - 1);
    }
  }

  // What the quantile means

  /** The quantile is the curve through the sorted cells at their rising positions inside (0, 1):
      between two cells on their line, before the first and after the last their values. */
  lemma {:induction false} QuantileCurve(values: seq<Cell>, weights: seq<real>, q: real)
    requires |values| == |weights| && Good(values, weights) != []
    ensures var kept := Sorted(Good(values, weights));
      InOrder(kept) && multiset(kept) == multiset(Good(values, weights)) && Sum(kept) > 0.0
    ensures RowQuantile(values, weights, q).Some?
    ensures var kept := Sorted(Good(values, weights));
      var nodes := Nodes(kept, 0.0, Sum(kept));
      var r := RowQuantile(values, weights, q).value;
      && Rising(nodes) && Between(nodes, 0.0, 1.0)
      && (q <= nodes[0].at ==> r == kept[0].value)
      && (q >= nodes[|nodes| - 1].at ==> r == kept[|kept| - 1].value)
      && (forall i :: 0 <= i < |nodes| - 1 && nodes[i].at <= q <= nodes[i + 1].at ==>
            OnLine(nodes[i], nodes[i + 1], q, r))
  {
    var good := Good(values, weights);
    var kept := Sorted(good);
    SortedWorks(good);
    PositionsRise(good);
    var nodes := Nodes(kept, 0.0, Sum(kept));
    forall i: nat | i < |nodes| - 1 && nodes[i].at <= q <= nodes[i + 1].at
      ensures OnLine(nodes[i], nodes[i + 1], q, Interp(q, nodes))
    {
      ThroughEveryPoint(nodes, i, q);
    }
    Beyond(nodes, q);
  }

  lemma {:induction false} Beyond(nodes: seq<Node>, q: real)
    requires nodes != [] && Rising(nodes)
    ensures q >= nodes[|nodes| - 1].at ==> Interp(q, nodes) == nodes[|nodes| - 1].height
  {
    if |nodes| > 1 {
      RisingFrom(nodes, |nodes| - 1);
      RisingFrom(nodes[1..], |nodes| - 2);
      Beyond(nodes[1..], q);
    }
  }

  lemma {:induction false} EndsBound(s: seq<Point>)
    requires s != [] && InOrder(s)
    ensures forall i :: 0 <= i < |s| ==> s[0].value <= s[i].value <= s[|s| - 1].value
  {
    if |s| > 1 {
      EndsBound(s[1..]);
    }
  }

  /** The quantile never decreases as `q` grows, and stays between the least and the greatest value
      kept; 0 gives the least and 1 the greatest. */
  lemma {:induction false} QuantileOrdered(values: seq<Cell>, weights: seq<real>, p: real, q: real)
    requires |values| == |weights| && p <= q
    requires Good(values, weights) != []
    ensures RowQuantile(values, weights, p).Some? && RowQuantile(values, weights, q).Some?
    ensures var low, high := RowQuantile(values, weights, 0.0).value, RowQuantile(values, weights, 1.0).value;
      && low <= RowQuantile(values, weights, p).value <= RowQuantile(values, weights, q).value <= high
      && (forall x :: x in Good(values, weights) ==> low <= x.value <= high)
      && (exists x :: x in Good(values, weights) && x.value == low)
      && (exists x :: x in Good(values, weights) && x.value == high)
  {
    var good := Good(values, weights);
    var kept := Sorted(good);
    SortedWorks(good);
    PositionsRise(good);
    NodesClimb(kept, 0.0, Sum(kept));
    var nodes := Nodes(kept, 0.0, Sum(kept));
    InterpClimbs(p, q, nodes);
    BetweenAt(nodes, 0, 0.0, 1.0);
    BetweenAt(nodes, |nodes| - 1, 0.0, 1.0);
    Beyond(nodes, 1.0);
    EndsBound(kept);
    assert forall x :: x in good ==> x in multiset(kept);
    assert kept[0] in multiset(kept) && kept[|kept| - 1] in multiset(kept);
  }

  lemma {:induction false} BetweenAt(nodes: seq<Node>, i: nat, low: real, high: real)
    requires Between(nodes, low, high) && i < |nodes|
    ensures low < nodes[i].at < high
  {
    if i > 0 {
      BetweenAt(nodes[1..], i - 1, low, high);
    }
  }

  // Scaling the weights

  function Scaled(weights: seq<real>, c: real): (r: seq<real>)
    ensures |r| == |weights|
  {
    if weights == [] then [] else [Times(c, weights[0])] + Scaled(weights[1..], c)
  }

  function Heavier(s: seq<Point>, c: real): (r: seq<Point>)
    ensures |r| == |s|
  {
    if s == [] then [] else [Point(s[0].value, Times(c, s[0].weight))] + Heavier(s[1..], c)
  }

  lemma {:induction false} GoodScales(values: seq<Cell>, weights: seq<real>, c: real)
    requires |values| == |weights| && c > 0.0
    ensures Good(values, Scaled(weights, c)) == Heavier(Good(values, weights), c)
  {
    if values != [] {
      var rest := Good(values[1..], weights[1..]);
      assert Scaled(weights, c)[1..] == Scaled(weights[1..], c);
      GoodScales(values[1..], weights[1..], c);
      TimesSign(c, weights[0]);
      if values[0].Some? && weights[0] > 0.0 {
        var x := Point(values[0].value, weights[0]);
        assert Good(values, weights) == [x] + rest;
        assert ([x] + rest)[1..] == rest;
      } else {
        assert Good(values, weights) == [] + rest == rest;
        assert Good(values, Scaled(weights, c)) == [] + Heavier(rest, c) == Heavier(rest, c);
      }
    }
  }

  lemma {:induction false} PlaceScales(x: Point, s: seq<Point>, c: real)
    ensures Heavier(Place(x, s), c) == Place(Point(x.value, Times(c, x.weight)), Heavier(s, c))
  {
    if s == [] || x.value <= s[0].value {
      assert ([x] + s)[1..] == s;
    } else {
      var r := Place(x, s[1..]);
      PlaceScales(x, s[1..], c);
      assert ([s[0]] + r)[1..] == r;
      assert Heavier(s, c)[1..] == Heavier(s[1..], c);
    }
  }

  lemma {:induction false} SortScales(s: seq<Point>, c: real)
    ensures Sorted(Heavier(s, c)) == Heavier(Sorted(s), c)
  {
    if s != [] {
      SortScales(s[1..], c);
      PlaceScales(s[0], Sorted(s[1..]), c);
      assert Heavier(s, c)[1..] == Heavier(s[1..], c);
    }
  }

  lemma {:induction false} SumScales(s: seq<Point>, c: real)
    ensures Sum(Heavier(s, c)) == Times(c, Sum(s))
  {
    if s == [] {
    } else {
      assert Heavier(s, c)[1..] == Heavier(s[1..], c);
      SumScales(s[1..], c);
      TimesAdds(c, s[0].weight, Sum(s[1..]));
    }
  }

  lemma {:induction false} MidScales(c: real, a: real, b: real)
    ensures Times(c, a - 0.5 * b) == Times(c, a) - 0.5 * Times(c, b)
  {
    assert c * (0.5 * b) == 0.5 * (c * b);
  }

  lemma {:induction false} RatioScales(c: real, a: real, total: real)
    requires c > 0.0 && total > 0.0
    ensures Times(c, total) > 0.0 && Over(Times(c, a), Times(c, total)) == Over(a, total)
  {}

  lemma {:induction false} NodesScale(s: seq<Point>, before: real, total: real, c: real)
    requires c > 0.0 && total > 0.0
    ensures Times(c, total) > 0.0
    ensures Nodes(Heavier(s, c), Times(c, before), Times(c, total)) == Nodes(s, before, total)
  {
    RatioScales(c, before, total);
    if s != [] {
      var upTo := before + s[0].weight;
      assert Heavier(s, c)[1..] == Heavier(s[1..], c);
      TimesAdds(c, before, s[0].weight);
      MidScales(c, upTo, s[0].weight);
      RatioScales(c, upTo - 0.5 * s[0].weight, total);
      NodesScale(s[1..], upTo, total, c);
    }
  }

  /** Only the proportions of the weights matter. */
  lemma {:induction false} ScaleInvariant(values: seq<Cell>, weights: seq<real>, c: real, q: real)
    requires |values| == |weights| && c > 0.0
    ensures RowQuantile(values, Scaled(weights, c), q) == RowQuantile(values, weights, q)
  {
    var good := Good(values, weights);
    var kept := Sorted(good);
    GoodScales(values, weights, c);
    SortScales(good, c);
    if good != [] {
      PositionsRise(good);
      SumScales(kept, c);
      NodesScale(kept, 0.0, Sum(kept), c);
      assert Times(c, 0.0) == 0.0;
    }
  }

  // Equal weights, and the order of the cells

  lemma {:induction false} EqualNodes(s: seq<Point>, before: nat, n: nat, w: real, i: nat)
    requires w > 0.0 && n > 0 && i < |s| && (forall j :: 0 <= j < |s| ==> s[j].weight == w)
    ensures Times(n as real, w) > 0.0
    ensures Nodes(s, Times(before as real, w), Times(n as real, w))[i].at == Over((before + i) as real + 0.5, n as real)
  {
    RatioScales(w, before as real, n as real);
    assert Times(n as real, w) == Times(w, n as real);
    assert Times(before as real, w) + w == Times((before + 1) as real, w) by {
      assert (before + 1) as real == before as real + 1.0;
    }
    if i == 0 {
      assert Times((before + 1) as real, w) - 0.5 * w == Times(w, before as real + 0.5) by {
        assert (before + 1) as real == before as real + 1.0;
      }
      RatioScales(w, before as real + 0.5, n as real);
    } else {
      EqualNodes(s[1..], before + 1, n, w, i - 1);
    }
  }

  lemma {:induction false} EqualSum(s: seq<Point>, w: real)
    requires forall j :: 0 <= j < |s| ==> s[j].weight == w
    ensures Sum(s) == Times(|s| as real, w)
  {
    if s != [] {
      EqualSum(s[1..], w);
      assert |s| as real == 1.0 + |s[1..]| as real;
    }
  }

  /** With equal weights the positions are Hazen's, (i + 1/2) / n. */
  lemma {:induction false} EqualWeightsAreHazen(good: seq<Point>, w: real, i: nat)
    requires w > 0.0 && i < |good| && (forall j :: 0 <= j < |good| ==> good[j].weight == w)
    ensures Sum(Sorted(good)) > 0.0
    ensures Nodes(Sorted(good), 0.0, Sum(Sorted(good)))[i].at == Over(i as real + 0.5, |good| as real)
  {
    var kept := Sorted(good);
    SortedWorks(good);
    forall j | 0 <= j < |kept|
      ensures kept[j].weight == w
    {
      assert kept[j] in multiset(good);
    }
    PositionsRise(good);
    EqualSum(kept, w);
    EqualNodes(kept, 0, |kept|, w, i);
    assert Times(0 as real, w) == 0.0;
  }

  lemma {:induction false} PlaceSwaps(x: Point, y: Point, s: seq<Point>)
    requires x.value != y.value || x == y
    ensures Place(x, Place(y, s)) == Place(y, Place(x, s))
  {
    if s == [] {
    } else if x.value > s[0].value && y.value > s[0].value {
      PlaceSwaps(x, y, s[1..]);
      assert Place(x, s)[1..] == Place(x, s[1..]) && Place(y, s)[1..] == Place(y, s[1..]);
    } else {
      assert ([x] + s)[1..] == s && ([y] + s)[1..] == s;
      if x.value > s[0].value {
        assert ([y] + s)[1..] == s;
        assert Place(x, [y] + s) == [y] + Place(x, s);
      } else if y.value > s[0].value {
        assert Place(y, [x] + s) == [x] + Place(y, s);
      }
    }
  }

  /** Two neighbours may trade places unless they tie on the value with different weights. */
  lemma {:induction false} NeighboursSwap(a: seq<Point>, x: Point, y: Point, b: seq<Point>)
    requires x.value != y.value || x == y
    ensures Sorted(a + [x, y] + b) == Sorted(a + [y, x] + b)
  {
    if a == [] {
      assert (a + [x, y] + b)[1..] == [y] + b && ([y] + b)[1..] == b;
      assert (a + [y, x] + b)[1..] == [x] + b && ([x] + b)[1..] == b;
      PlaceSwaps(x, y, Sorted(b));
    } else {
      NeighboursSwap(a[1..], x, y, b);
      assert (a + [x, y] + b)[1..] == a[1..] + [x, y] + b;
      assert (a + [y, x] + b)[1..] == a[1..] + [y, x] + b;
    }
  }

  lemma {:induction false} GoodAppend(v: seq<Cell>, w: seq<real>, k: nat)
    requires |v| == |w| && k <= |v|
    ensures Good(v, w) == Good(v[..k], w[..k]) + Good(v[k..], w[k..])
  {
    if k > 0 {
      GoodAppend(v[1..], w[1..], k - 1);
      assert v[..k][1..] == v[1..][..k - 1] && w[..k][1..] == w[1..][..k - 1];
      assert v[k..] == v[1..][k - 1..] && w[k..] == w[1..][k - 1..];
    } else {
      assert v[k..] == v && w[k..] == w && Good(v[..k], w[..k]) == [];
    }
  }

  function Swapped<T>(s: seq<T>, k: nat): (r: seq<T>)
    requires k + 1 < |s|
    ensures |r| == |s|
  {
    s[..k] + [s[k + 1], s[k]] + s[k + 2..]
  }

  predicate Tied(values: seq<Cell>, weights: seq<real>, k: nat)
    requires |values| == |weights| && k + 1 < |values|
  {
    && values[k] == values[k + 1] && values[k].Some?
    && weights[k] != weights[k + 1] && weights[k] > 0.0 && weights[k + 1] > 0.0
  }

  lemma {:induction false} GoodOfTwo(v: seq<Cell>, w: seq<real>)
    requires |v| == |w| >= 2
    ensures Good(v, w) == Good([v[0]], [w[0]]) + Good([v[1]], [w[1]]) + Good(v[2..], w[2..])
  {}

  /** The valid cells around place `k`: those before it, itself, its neighbour, and those after. */
  lemma {:induction false} GoodAround(v: seq<Cell>, w: seq<real>, k: nat)
    requires |v| == |w| && k + 1 < |v|
    ensures Good(v, w) == Good(v[..k], w[..k]) + Good([v[k]], [w[k]]) + Good([v[k + 1]], [w[k + 1]])
                          + Good(v[k + 2..], w[k + 2..])
  {
    GoodAppend(v, w, k);
    GoodOfTwo(v[k..], w[k..]);
    assert v[k..][2..] == v[k + 2..] && w[k..][2..] == w[k + 2..];
  }

  lemma {:induction false} SortedSwap(a: seq<Point>, x: seq<Point>, y: seq<Point>, b: seq<Point>)
    requires |x| <= 1 && |y| <= 1
    requires x == [] || y == [] || x[0].value != y[0].value || x == y
    ensures Sorted(a + x + y + b) == Sorted(a + y + x + b)
  {
    if x == [] || y == [] {
      assert a + x + y + b == a + y + x + b;
    } else {
      NeighboursSwap(a, x[0], y[0], b);
      assert a + x + y + b == a + [x[0], y[0]] + b && a + y + x + b == a + [y[0], x[0]] + b;
    }
  }

  lemma {:induction false} GoodSwapped(values: seq<Cell>, weights: seq<real>, k: nat)
    requires |values| == |weights| && k + 1 < |values| && !Tied(values, weights, k)
    ensures Sorted(Good(Swapped(values, k), Swapped(weights, k))) == Sorted(Good(values, weights))
  {
    var sv, sw := Swapped(values, k), Swapped(weights, k);
    GoodAround(values, weights, k);
    GoodAround(sv, sw, k);
    assert sv[..k] == values[..k] && sw[..k] == weights[..k];
    assert sv[k + 2..] == values[k + 2..] && sw[k + 2..] == weights[k + 2..];
    SortedSwap(Good(values[..k], weights[..k]), Good([values[k]], [weights[k]]),
               Good([values[k + 1]], [weights[k + 1]]), Good(values[k + 2..], weights[k + 2..]));
  }

  /** Swapping neighbouring cells, and so any reordering made of such swaps, keeps every quantile,
      as long as no two swapped cells tie on their value with different weights. */
  lemma {:induction false} SwapKeepsQuantile(values: seq<Cell>, weights: seq<real>, k: nat, q: real)
    requires |values| == |weights| && k + 1 < |values| && !Tied(values, weights, k)
    ensures RowQuantile(Swapped(values, k), Swapped(weights, k), q) == RowQuantile(values, weights, q)
  {
    GoodSwapped(values, weights, k);
  }

  // The pass over the rows

  lemma {:induction false} GoodSnoc(values: seq<Cell>, weights: seq<real>, i: nat)
    requires |values| == |weights| && i < |values|
    ensures Good(values[..i + 1], weights[..i + 1]) == Good(values[..i], weights[..i])
      + (if values[i].Some? && weights[i] > 0.0 then [Point(values[i].value, weights[i])] else [])
  {
    var v, w := values[..i + 1], weights[..i + 1];
    GoodAppend(v, w, i);
    assert v[..i] == values[..i] && w[..i] == weights[..i] && v[i..] == [values[i]] && w[i..] == [weights[i]];
  }

  /** The boolean mask: keep a cell when it is a number and weighs more than nothing. */
  method Mask(values: seq<Cell>, weights: seq<real>) returns (picked: seq<Point>)
    requires |values| == |weights|
    ensures picked == Good(values, weights)
  {
    picked := [];
    for i := 0 to |values|
      invariant picked == Good(values[..i], weights[..i])
    {
      GoodSnoc(values, weights, i);
      if values[i].Some? && weights[i] > 0.0 {
        picked := picked + [Point(values[i].value, weights[i])];
      }
    }
    assert values[..|values|] == values && weights[..|weights|] == weights;
  }

  lemma {:induction false} SumSnoc(s: seq<Point>, i: nat)
    requires i < |s|
    ensures Sum(s[..i + 1]) == Sum(s[..i]) + s[i].weight
  {
    if i == 0 {
      assert s[..1] == [s[0]] && [s[0]][1..] == [];
    } else {
      assert s[..i + 1][1..] == s[1..][..i] && s[..i][1..] == s[1..][..i - 1];
      SumSnoc(s[1..], i - 1);
    }
  }

  lemma {:induction false} NodeAt(s: seq<Point>, before: real, total: real, i: nat)
    requires total != 0.0 && i < |s|
    ensures Nodes(s, before, total)[i]
         == Node(Over(before + Sum(s[..i]) + s[i].weight - 0.5 * s[i].weight, total), s[i].value)
  {
    if i == 0 {
      assert s[..0] == [];
    } else {
      NodeAt(s[1..], before + s[0].weight, total, i - 1);
      assert s[..i][1..] == s[1..][..i - 1];
    }
  }

  /** The running sum of the weights, and each cell's position from it. */
  method Plot(order: seq<Point>, total: real) returns (nodes: seq<Node>)
    requires total != 0.0
    ensures nodes == Nodes(order, 0.0, total)
  {
    nodes := [];
    var cumulative := 0.0;
    for i := 0 to |order|
      invariant cumulative == Sum(order[..i])
      invariant |nodes| == i && nodes == Nodes(order, 0.0, total)[..i]
    {
      SumSnoc(order, i);
      NodeAt(order, 0.0, total, i);
      cumulative := cumulative + order[i].weight;
      nodes := nodes + [Node(Over(cumulative - 0.5 * order[i].weight, total), order[i].value)];
    }
  }

  /** The search for the segment that `q` falls in, and the value on it. */
  method InterpAt(q: real, nodes: seq<Node>) returns (r: real)
    requires nodes != [] && Rising(nodes)
    ensures r == Interp(q, nodes)
  {
    if q <= nodes[0].at {
      return nodes[0].height;
    }
    var j := 0;
    while j + 1 < |nodes| && nodes[j + 1].at <= q
      invariant j < |nodes| && nodes[j].at <= q && (j == 0 ==> nodes[0].at < q)
    {
      j := j + 1;
    }
    if nodes[j].at == q {
      ThroughEveryPoint(nodes, j, q);
      r := nodes[j].height;
    } else {
      SegmentAt(nodes, j, q);
      r := if j + 1 < |nodes| then Line(nodes[j], nodes[j + 1], q) else nodes[j].height;
    }
  }

  lemma {:induction false} SegmentAt(nodes: seq<Node>, j: nat, q: real)
    requires Rising(nodes) && j < |nodes| && nodes[j].at < q
    requires j + 1 < |nodes| ==> q < nodes[j + 1].at
    ensures Interp(q, nodes) == if j + 1 < |nodes| then Line(nodes[j], nodes[j + 1], q) else nodes[j].height
  {
    if j > 0 {
      RisingFrom(nodes, j);
      SegmentAt(nodes[1..], j - 1, q);
      RisingFrom(nodes[1..], j - 1);
    }
  }

  /** One row: mask, sort, running sum, search; nothing kept is NaN. */
  method OneRow(values: seq<Cell>, weights: seq<real>, q: real) returns (r: Cell)
    requires |values| == |weights|
    ensures r == RowQuantile(values, weights, q)
    ensures r.None? <==> forall j: nat :: !CountsAt(values, weights, j)
  {
    NaNExactly(values, weights, q);
    var picked := Mask(values, weights);
    if picked == [] {
      return None;
    }
    PositionsRise(picked);
    var order := Sorted(picked);
    var nodes := Plot(order, Sum(order));
    var value := InterpAt(q, nodes);
    r := Some(value);
  }

  /** One sort per row. */
  method WeightedQuantile(rows: seq<seq<Cell>>, weights: seq<seq<real>>, q: Option<real>)
    returns (r: Result<seq<Cell>, QuantileError>)
    requires |rows| == |weights| && forall i :: 0 <= i < |rows| ==> |rows[i]| == |weights[i]|
    ensures r.Err? <==> q.None? || q.value < 0.0 || q.value > 1.0
    ensures r.Ok? ==> |r.value| == |rows|
    ensures r.Ok? ==> forall i :: 0 <= i < |rows| ==>
      && r.value[i] == RowQuantile(rows[i], weights[i], q.value)
      && (r.value[i].None? <==> forall j: nat :: !CountsAt(rows[i], weights[i], j))
  {
    if q.None? || !(0.0 <= q.value <= 1.0) {
      return Err(BadQuantile);
    }
    var out := new Cell[|rows|](_ => None);
    for index := 0 to |rows|
      invariant forall i {:trigger out[i]} :: 0 <= i < index ==> out[i] == RowQuantile(rows[i], weights[i], q.value)
    {
      out[index] := OneRow(rows[index], weights[index], q.value);
    }
    r := Ok(out[..]);
    forall i | 0 <= i < |rows|
      ensures out[i].None? <==> forall j: nat :: !CountsAt(rows[i], weights[i], j)
    {
      NaNExactly(rows[i], weights[i], q.value);
    }
  }
}
