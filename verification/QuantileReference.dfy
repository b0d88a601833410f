/** The weighted quantile told from the row the caller passes: where each cell is plotted, and what
    comes out at its position and between two neighbouring positions. */
module QuantileReference {
  import opened Reals
  import opened Wrappers
  import opened WeightedQuantile

  /** The weights of the counting cells below `v`, or with `ties` not above it. */
  function WeightBelow(values: seq<Cell>, weights: seq<real>, v: real, ties: bool): real
    requires |values| == |weights|
  {
    if values == [] then 0.0
    else
      (if CountsAt(values, weights, 0) && (values[0].value < v || (ties && values[0].value == v))
       then weights[0] else 0.0)
      + WeightBelow(values[1..], weights[1..], v, ties)
  }

  function WeightOf(values: seq<Cell>, weights: seq<real>): real
    requires |values| == |weights|
  {
    if values == [] then 0.0
    else (if CountsAt(values, weights, 0) then weights[0] else 0.0) + WeightOf(values[1..], weights[1..])
  }

  /** What is plotted ahead of cell `i`: smaller cells, and equal ones that come before it. */
  function Ahead(values: seq<Cell>, weights: seq<real>, i: nat): real
    requires |values| == |weights| && CountsAt(values, weights, i)
  {
    WeightBelow(values[..i], weights[..i], values[i].value, true)
    + WeightBelow(values[i + 1..], weights[i + 1..], values[i].value, false)
  }

  /** The same on the counting cells. */
  function PointsBelow(s: seq<Point>, v: real, ties: bool): real {
    if s == [] then 0.0
    else (if s[0].value < v || (ties && s[0].value == v) then s[0].weight else 0.0) + PointsBelow(s[1..], v, ties)
  }

  lemma {:induction false} BelowIsPoints(values: seq<Cell>, weights: seq<real>, v: real, ties: bool)
    requires |values| == |weights|
    ensures WeightBelow(values, weights, v, ties) == PointsBelow(Good(values, weights), v, ties)
    ensures WeightOf(values, weights) == Sum(Good(values, weights))
  {
    if values != [] {
      BelowIsPoints(values[1..], weights[1..], v, ties);
      var good := Good(values, weights);
      if CountsAt(values, weights, 0) {
        assert good == [Point(values[0].value, weights[0])] + Good(values[1..], weights[1..]);
        assert good[1..] == Good(values[1..], weights[1..]);
      } else {
        assert good == Good(values[1..], weights[1..]);
      }
    }
  }

  lemma {:induction false} BelowPlace(x: Point, s: seq<Point>, v: real)
    ensures PointsBelow(Place(x, s), v, false) == (if x.value < v then x.weight else 0.0) + PointsBelow(s, v, false)
  {
    if s == [] || x.value <= s[0].value {
      assert ([x] + s)[1..] == s;
    } else {
      BelowPlace(x, s[1..], v);
      assert ([s[0]] + Place(x, s[1..]))[1..] == Place(x, s[1..]);
    }
  }

  lemma {:induction false} BelowSorted(s: seq<Point>, v: real)
    ensures PointsBelow(Sorted(s), v, false) == PointsBelow(s, v, false)
  {
    if s != [] {
      BelowSorted(s[1..], v);
      BelowPlace(s[0], Sorted(s[1..]), v);
    }
  }

  lemma {:induction false} NoneBelow(s: seq<Point>, v: real)
    requires InOrder(s) && (s == [] || v <= s[0].value)
    ensures PointsBelow(s, v, false) == 0.0
  {
    if s != [] {
      NoneBelow(s[1..], v);
    }
  }

  lemma {:induction false} SumFirst(s: seq<Point>, k: nat)
    requires 0 < k <= |s|
    ensures Sum(s[..k]) == s[0].weight + Sum(s[1..][..k - 1])
  {
    assert s[..k][1..] == s[1..][..k - 1];
  }

  /** A placed item goes right behind everything smaller. */
  lemma {:induction false} PlacedAt(x: Point, s: seq<Point>) returns (k: nat)
    requires InOrder(s)
    ensures k < |Place(x, s)| && Place(x, s)[k] == x && Sum(Place(x, s)[..k]) == PointsBelow(s, x.value, false)
  {
    if s == [] || x.value <= s[0].value {
      k := 0;
      NoneBelow(s, x.value);
    } else {
      k := PlacedAt(x, s[1..]);
      k := k + 1;
      var r := Place(x, s);
      assert r[1..] == Place(x, s[1..]);
      SumFirst(r, k);
    }
  }

  /** Placing an item shifts those not smaller by one. */
  lemma {:induction false} PlacedPast(x: Point, s: seq<Point>, k: nat)
    requires InOrder(s) && k < |s|
    ensures var r, j := Place(x, s), if x.value <= s[k].value then k + 1 else k;
      && r[j] == s[k]
      && Sum(r[..j]) == Sum(s[..k]) + (if x.value <= s[k].value then x.weight else 0.0)
  {
    var r := Place(x, s);
    if x.value <= s[0].value {
      EndsBound(s);
      assert r[1..] == s;
      SumFirst(r, k + 1);
    } else {
      assert r[1..] == Place(x, s[1..]);
      if k > 0 {
        PlacedPast(x, s[1..], k - 1);
        SumFirst(s, k);
        SumFirst(r, if x.value <= s[k].value then k + 1 else k);
      }
    }
  }

  /** Where an item of `a + [x] + b` is after the sort, and what it has ahead of it. */
  lemma {:induction false} SortedAt(a: seq<Point>, x: Point, b: seq<Point>) returns (k: nat)
    ensures var r := Sorted(a + [x] + b);
      && k < |r| && r[k] == x
      && Sum(r[..k]) == PointsBelow(a, x.value, true) + PointsBelow(b, x.value, false)
  {
    var s := a + [x] + b;
    SortedWorks(s[1..]);
    if a == [] {
      assert s[1..] == b;
      k := PlacedAt(x, Sorted(b));
      BelowSorted(b, x.value);
    } else {
      assert s[1..] == a[1..] + [x] + b;
      k := SortedAt(a[1..], x, b);
      PlacedPast(a[0], Sorted(s[1..]), k);
      k := if a[0].value <= x.value then k + 1 else k;
    }
  }

  lemma {:induction false} GoodSplits(values: seq<Cell>, weights: seq<real>, i: nat)
    requires |values| == |weights| && CountsAt(values, weights, i)
    ensures Good(values, weights) == Good(values[..i], weights[..i]) + [Point(values[i].value, weights[i])]
                                     + Good(values[i + 1..], weights[i + 1..])
  {
    GoodAppend(values, weights, i);
    var v, w := values[i..], weights[i..];
    assert v[1..] == values[i + 1..] && w[1..] == weights[i + 1..];
    assert Good(v, w) == [Point(values[i].value, weights[i])] + Good(v[1..], w[1..]);
  }

  /** Where cell `i` is in the sorted cells. */
  lemma {:induction false} CellAt(values: seq<Cell>, weights: seq<real>, i: nat) returns (k: nat)
    requires |values| == |weights| && CountsAt(values, weights, i)
    ensures var kept := Sorted(Good(values, weights));
      && k < |kept| && kept[k] == Point(values[i].value, weights[i])
      && Sum(kept[..k]) == Ahead(values, weights, i)
  {
    var v := values[i].value;
    GoodSplits(values, weights, i);
    BelowIsPoints(values[..i], weights[..i], v, true);
    BelowIsPoints(values[i + 1..], weights[i + 1..], v, false);
    k := SortedAt(Good(values[..i], weights[..i]), Point(v, weights[i]), Good(values[i + 1..], weights[i + 1..]));
  }

  /** The node of cell `i`: its own value, at the weight ahead of it and half its own. */
  lemma {:induction false} CellNode(values: seq<Cell>, weights: seq<real>, i: nat) returns (k: nat)
    requires |values| == |weights| && CountsAt(values, weights, i)
    ensures var kept := Sorted(Good(values, weights));
      && Good(values, weights) != [] && Weighty(kept) && Sum(kept) > 0.0 && Sum(kept) == WeightOf(values, weights)
      && k < |kept| && kept[k] == Point(values[i].value, weights[i])
      && Sum(kept[..k]) == Ahead(values, weights, i)
      && Nodes(kept, 0.0, Sum(kept))[k] == Node(Position(values, weights, i), values[i].value)
  {
    var good := Good(values, weights);
    k := CellAt(values, weights, i);
    BelowIsPoints(values, weights, 0.0, false);
    SortedWorks(good);
    PositionsRise(good);
    NodeAt(Sorted(good), 0.0, Sum(Sorted(good)), k);
    PositionIs(values, weights, i);
  }

  /** The plotting position of cell `i`: what is ahead of it and half its own weight, out of all the
      weight. */
  function Position(values: seq<Cell>, weights: seq<real>, i: nat): real
    requires |values| == |weights| && CountsAt(values, weights, i)
  {
    var total := WeightOf(values, weights);
    if total > 0.0 then (Ahead(values, weights, i) + weights[i] / 2.0) / total else 0.0
  }

  lemma {:induction false} PositionIs(values: seq<Cell>, weights: seq<real>, i: nat)
    requires |values| == |weights| && CountsAt(values, weights, i) && WeightOf(values, weights) > 0.0
    ensures Position(values, weights, i)
         == Over(0.0 + Ahead(values, weights, i) + weights[i] - 0.5 * weights[i], WeightOf(values, weights))
  {}

  /** At the position of a cell the quantile is the cell's value. */
  lemma {:induction false} OwnPosition(values: seq<Cell>, weights: seq<real>, i: nat)
    requires |values| == |weights| && CountsAt(values, weights, i)
    ensures WeightOf(values, weights) > 0.0
    ensures RowQuantile(values, weights, Position(values, weights, i)) == values[i]
  {
    var k := CellNode(values, weights, i);
    var kept := Sorted(Good(values, weights));
    PositionsRise(Good(values, weights));
    ThroughEveryPoint(Nodes(kept, 0.0, Sum(kept)), k, Position(values, weights, i));
  }

  lemma {:induction false} PrefixSums(s: seq<Point>, j: nat, k: nat)
    requires Weighty(s) && j <= k <= |s|
    ensures Sum(s[..j]) <= Sum(s[..k]) && (j < k ==> Sum(s[..j]) < Sum(s[..k]))
  {
    if j > 0 {
      PrefixSums(s[1..], j - 1, k - 1);
      SumFirst(s, j);
      SumFirst(s, k);
    } else if k > 0 {
      PrefixSums(s[1..], 0, k - 1);
      SumFirst(s, k);
    }
  }

  /** Between the positions of two cells with nothing between them the quantile is on the line through
      the two. */
  lemma {:induction false} BetweenNeighbours(values: seq<Cell>, weights: seq<real>, i: nat, j: nat, q: real)
    requires |values| == |weights| && CountsAt(values, weights, i) && CountsAt(values, weights, j)
    requires Ahead(values, weights, j) == Ahead(values, weights, i) + weights[i]
    requires Position(values, weights, i) <= q <= Position(values, weights, j)
    ensures RowQuantile(values, weights, q).Some?
    ensures OnLine(Node(Position(values, weights, i), values[i].value),
                   Node(Position(values, weights, j), values[j].value), q, RowQuantile(values, weights, q).value)
  {
    var m := CellNode(values, weights, i);
    var n := CellNode(values, weights, j);
    var kept := Sorted(Good(values, weights));
    SumSnoc(kept, m);
    SameSum(kept, n, m + 1);
    PositionsRise(Good(values, weights));
    ThroughEveryPoint(Nodes(kept, 0.0, Sum(kept)), m, q);
  }

  lemma {:induction false} SameSum(s: seq<Point>, j: nat, k: nat)
    requires Weighty(s) && j <= |s| && k <= |s| && Sum(s[..j]) == Sum(s[..k])
    ensures j == k
  {
    if j < k {
      PrefixSums(s, j, k);
    } else if k < j {
      PrefixSums(s, k, j);
    }
  }

  /** Up to the first position, which is that of the cell with nothing ahead of it, the quantile is that
      cell's value. */
  lemma {:induction false} UpToFirst(values: seq<Cell>, weights: seq<real>, i: nat, q: real)
    requires |values| == |weights| && CountsAt(values, weights, i)
    requires Ahead(values, weights, i) == 0.0 && q <= Position(values, weights, i)
    ensures RowQuantile(values, weights, q) == values[i]
  {
    var m := CellNode(values, weights, i);
    var kept := Sorted(Good(values, weights));
    PositionsRise(Good(values, weights));
    assert kept[..0] == [];
    SameSum(kept, 0, m);
  }

  /** From the last position on, which is that of the cell with nothing behind it, it is that cell's. */
  lemma {:induction false} FromLast(values: seq<Cell>, weights: seq<real>, i: nat, q: real)
    requires |values| == |weights| && CountsAt(values, weights, i)
    requires Ahead(values, weights, i) + weights[i] == WeightOf(values, weights)
    requires q >= Position(values, weights, i)
    ensures RowQuantile(values, weights, q) == values[i]
  {
    var m := CellNode(values, weights, i);
    var kept := Sorted(Good(values, weights));
    PositionsRise(Good(values, weights));
    SumSnoc(kept, m);
    assert kept[..|kept|] == kept;
    SameSum(kept, m + 1, |kept|);
    Beyond(Nodes(kept, 0.0, Sum(kept)), q);
  }
}
