/** When the order of two cells that tie on their value changes a weighted quantile. */
module TiedCells {
  import opened Reals
  import opened Wrappers
  import opened WeightedQuantile

  // The stable sort around a value

  function Below(s: seq<Point>, v: real): seq<Point> {
    if s == [] then [] else if s[0].value < v then [s[0]] + Below(s[1..], v) else Below(s[1..], v)
  }

  function Ties(s: seq<Point>, v: real): seq<Point> {
    if s == [] then [] else if s[0].value == v then [s[0]] + Ties(s[1..], v) else Ties(s[1..], v)
  }

  function Above(s: seq<Point>, v: real): seq<Point> {
    if s == [] then [] else if s[0].value > v then [s[0]] + Above(s[1..], v) else Above(s[1..], v)
  }

  predicate AllBelow(s: seq<Point>, v: real) {
    s == [] || (s[0].value < v && AllBelow(s[1..], v))
  }

  predicate AllAre(s: seq<Point>, v: real) {
    s == [] || (s[0].value == v && AllAre(s[1..], v))
  }

  /** A cell is placed past everything below it. */
  lemma {:induction false} PlacePast(x: Point, l: seq<Point>, r: seq<Point>)
    requires AllBelow(l, x.value)
    ensures Place(x, l + r) == l + Place(x, r)
  {
    if l == [] {
      assert l + r == r && l + Place(x, r) == Place(x, r);
    } else {
      assert (l + r)[1..] == l[1..] + r;
      PlacePast(x, l[1..], r);
      Regroup([l[0]], l[1..], Place(x, r));
      assert [l[0]] + l[1..] == l;
    }
  }

  /** A cell is placed before whatever is not below it. */
  lemma {:induction false} PlaceBefore(x: Point, l: seq<Point>, r: seq<Point>)
    requires r == [] || x.value <= r[0].value
    ensures Place(x, l + r) == Place(x, l) + r
  {
    if l == [] {
      assert l + r == r;
    } else {
      assert (l + r)[1..] == l[1..] + r;
      PlaceBefore(x, l[1..], r);
    }
  }

  lemma {:induction false} PlaceBelow(x: Point, s: seq<Point>, v: real)
    requires AllBelow(s, v) && x.value < v
    ensures AllBelow(Place(x, s), v)
  {
    if s == [] || x.value <= s[0].value {
      assert ([x] + s)[1..] == s;
    } else {
      var r := Place(x, s[1..]);
      PlaceBelow(x, s[1..], v);
      assert ([s[0]] + r)[1..] == r;
    }
  }

  lemma {:induction false} SortedBelow(s: seq<Point>, v: real)
    ensures AllBelow(Sorted(Below(s, v)), v)
  {
    if s != [] {
      SortedBelow(s[1..], v);
      if s[0].value < v {
        assert ([s[0]] + Below(s[1..], v))[1..] == Below(s[1..], v);
        PlaceBelow(s[0], Sorted(Below(s[1..], v)), v);
      }
    }
  }

  lemma {:induction false} TiesAre(s: seq<Point>, v: real)
    ensures AllAre(Ties(s, v), v)
  {
    if s != [] {
      TiesAre(s[1..], v);
      assert ([s[0]] + Ties(s[1..], v))[1..] == Ties(s[1..], v);
    }
  }

  lemma {:induction false} BelowMore(s: seq<Point>, v: real, w: real)
    requires AllBelow(s, v) && v < w
    ensures AllBelow(s, w)
  {
    if s != [] {
      BelowMore(s[1..], v, w);
    }
  }

  lemma {:induction false} AreBelow(s: seq<Point>, v: real, w: real)
    requires AllAre(s, v) && v < w
    ensures AllBelow(s, w)
  {
    if s != [] {
      AreBelow(s[1..], v, w);
    }
  }

  lemma {:induction false} PlaceLeast(x: Point, s: seq<Point>)
    requires s == [] || x.value <= s[0].value
    ensures Place(x, s) == [x] + s
  {}

  lemma {:induction false} SortedAbove(s: seq<Point>, v: real)
    ensures var r := Sorted(Above(s, v)); r == [] || v < r[0].value
  {
    if s != [] {
      SortedAbove(s[1..], v);
      if s[0].value > v {
        assert ([s[0]] + Above(s[1..], v))[1..] == Above(s[1..], v);
      }
    }
  }

  /** The stable sort leaves ties in their order, between what is below and what is above. */
  lemma {:induction false} SortedSplits(s: seq<Point>, v: real)
    ensures Sorted(s) == Sorted(Below(s, v)) + Ties(s, v) + Sorted(Above(s, v))
  {
    if s != [] {
      var x, rest := s[0], s[1..];
      SortedSplits(rest, v);
      PlaceSplits(x, rest, v);
    }
  }

  /** Where a cell is placed among those below, at and above `v`. */
  lemma {:induction false} PlaceInThree(x: Point, low: seq<Point>, ties: seq<Point>, high: seq<Point>, v: real)
    requires AllBelow(low, v) && AllAre(ties, v) && (high == [] || v < high[0].value)
    ensures Place(x, low + (ties + high)) ==
      if x.value < v then Place(x, low) + (ties + high)
      else if x.value == v then low + ([x] + (ties + high))
      else low + (ties + Place(x, high))
  {
    assert ties != [] ==> (ties + high)[0] == ties[0] && ties[0].value == v;
    assert ties == [] ==> ties + high == high;
    if x.value < v {
      PlaceBefore(x, low, ties + high);
    } else if x.value == v {
      PlacePast(x, low, ties + high);
      PlaceLeast(x, ties + high);
    } else {
      BelowMore(low, v, x.value);
      AreBelow(ties, v, x.value);
      PlacePast(x, low, ties + high);
      PlacePast(x, ties, high);
    }
  }

  lemma {:induction false} Regroup<T>(a: seq<T>, b: seq<T>, c: seq<T>)
    ensures a + b + c == a + (b + c)
  {}

  lemma {:induction false} PlaceSplits(x: Point, rest: seq<Point>, v: real)
    ensures Place(x, Sorted(Below(rest, v)) + Ties(rest, v) + Sorted(Above(rest, v)))
         == Sorted(Below([x] + rest, v)) + Ties([x] + rest, v) + Sorted(Above([x] + rest, v))
  {
    var low, ties, high := Sorted(Below(rest, v)), Ties(rest, v), Sorted(Above(rest, v));
    SortedBelow(rest, v);
    TiesAre(rest, v);
    SortedAbove(rest, v);
    Regroup(low, ties, high);
    PlaceInThree(x, low, ties, high, v);
    assert ([x] + rest)[1..] == rest;
    if x.value < v {
      assert ([x] + Below(rest, v))[1..] == Below(rest, v);
      Regroup(Place(x, low), ties, high);
    } else if x.value == v {
      Regroup([x], ties, high);
      Regroup(low, [x] + ties, high);
    } else {
      assert ([x] + Above(rest, v))[1..] == Above(rest, v);
      Regroup(low, ties, Place(x, high));
    }
  }

  lemma {:induction false} BelowAppend(a: seq<Point>, b: seq<Point>, v: real)
    ensures Below(a + b, v) == Below(a, v) + Below(b, v)
  {
    if a == [] {
      assert a + b == b;
    } else {
      assert (a + b)[0] == a[0] && (a + b)[1..] == a[1..] + b;
      BelowAppend(a[1..], b, v);
      Regroup([a[0]], Below(a[1..], v), Below(b, v));
    }
  }

  lemma {:induction false} TiesAppend(a: seq<Point>, b: seq<Point>, v: real)
    ensures Ties(a + b, v) == Ties(a, v) + Ties(b, v)
  {
    if a == [] {
      assert a + b == b;
    } else {
      assert (a + b)[0] == a[0] && (a + b)[1..] == a[1..] + b;
      TiesAppend(a[1..], b, v);
      Regroup([a[0]], Ties(a[1..], v), Ties(b, v));
    }
  }

  lemma {:induction false} AboveAppend(a: seq<Point>, b: seq<Point>, v: real)
    ensures Above(a + b, v) == Above(a, v) + Above(b, v)
  {
    if a == [] {
      assert a + b == b;
    } else {
      assert (a + b)[0] == a[0] && (a + b)[1..] == a[1..] + b;
      AboveAppend(a[1..], b, v);
      Regroup([a[0]], Above(a[1..], v), Above(b, v));
    }
  }

  lemma {:induction false} FiltersAppend(a: seq<Point>, b: seq<Point>, v: real)
    ensures Below(a + b, v) == Below(a, v) + Below(b, v)
    ensures Ties(a + b, v) == Ties(a, v) + Ties(b, v)
    ensures Above(a + b, v) == Above(a, v) + Above(b, v)
  {
    BelowAppend(a, b, v);
    TiesAppend(a, b, v);
    AboveAppend(a, b, v);
  }

  lemma {:induction false} PairFilters(x: Point, y: Point, v: real)
    requires x.value == y.value == v
    ensures Below([x, y], v) == [] && Ties([x, y], v) == [x, y] && Above([x, y], v) == []
  {
    assert [x, y][1..] == [y] && [y][1..] == [];
    assert Below([y], v) == [] && Ties([y], v) == [y] && Above([y], v) == [];
    assert [x] + [y] == [x, y];
  }

  lemma {:induction false} AroundPair(a: seq<Point>, x: Point, y: Point, b: seq<Point>)
    requires x.value == y.value
    ensures var v, s := x.value, a + [x, y] + b;
      && Below(s, v) == Below(a + b, v) && Above(s, v) == Above(a + b, v)
      && Ties(s, v) == Ties(a, v) + [x, y] + Ties(b, v)
  {
    var v := x.value;
    FiltersAppend(a + [x, y], b, v);
    FiltersAppend(a, [x, y], v);
    FiltersAppend(a, b, v);
    PairFilters(x, y, v);
    assert Below(a, v) + [] == Below(a, v) && Above(a, v) + [] == Above(a, v);
  }

  /** The cells before and after a tied pair once all are sorted. */
  function Before(a: seq<Point>, b: seq<Point>, v: real): seq<Point> {
    Sorted(Below(a + b, v)) + Ties(a, v)
  }

  function After(a: seq<Point>, b: seq<Point>, v: real): seq<Point> {
    Ties(b, v) + Sorted(Above(a + b, v))
  }

  /** Two neighbours that tie stay neighbours; the cells around them do not depend on them. */
  lemma {:induction false} PairSorted(a: seq<Point>, x: Point, y: Point, b: seq<Point>)
    requires x.value == y.value
    ensures Sorted(a + [x, y] + b) == Before(a, b, x.value) + ([x, y] + After(a, b, x.value))
  {
    var v := x.value;
    SortedSplits(a + [x, y] + b, v);
    AroundPair(a, x, y, b);
    ShufflePair(Sorted(Below(a + b, v)), Ties(a, v), [x, y], Ties(b, v), Sorted(Above(a + b, v)));
  }

  lemma {:induction false} ShufflePair(low: seq<Point>, t: seq<Point>, pair: seq<Point>, u: seq<Point>,
                                       high: seq<Point>)
    ensures low + (t + pair + u) + high == (low + t) + (pair + (u + high))
  {}

  // Two neighbouring nodes of one height

  lemma {:induction false} RisingTail(pre: seq<Node>, post: seq<Node>)
    requires Rising(pre + post)
    ensures Rising(post)
    ensures pre != [] && post != [] ==> pre[|pre| - 1].at < post[0].at
  {
    if pre == [] {
      assert pre + post == post;
    } else {
      assert (pre + post)[1..] == pre[1..] + post;
      RisingTail(pre[1..], post);
    }
  }

  lemma {:induction false} FlatLine(a: Node, b: Node, q: real)
    requires a.at < b.at && a.height == b.height
    ensures Line(a, b, q) == a.height
  {
    assert Over(0.0, b.at - a.at) == 0.0;
  }

  /** Where two nodes of height `v` come first, the curve is `v` until the node after them, and from
      there as it would be without them, when that node's height is `v` too. */
  lemma {:induction false} FlatHead(n1: Node, n2: Node, post: seq<Node>, q: real)
    requires Rising([n1, n2] + post) && n1.height == n2.height
    requires post == [] || post[0].height == n1.height
    ensures Rising(post)
    ensures Interp(q, [n1, n2] + post) == if post == [] || q < post[0].at then n1.height else Interp(q, post)
  {
    var nodes := [n1, n2] + post;
    assert nodes[1..] == [n2] + post && ([n2] + post)[1..] == post;
    FlatLine(n1, n2, q);
    if post != [] {
      FlatLine(n2, post[0], q);
    }
  }

  /** Nodes of height `v` between others of that height, or at an end, can be anywhere. */
  lemma {:induction false} FlatMiddle(pre: seq<Node>, n1: Node, n2: Node, m1: Node, m2: Node, post: seq<Node>, q: real)
    requires Rising(pre + ([n1, n2] + post)) && Rising(pre + ([m1, m2] + post))
    requires n1.height == n2.height == m1.height == m2.height
    requires pre == [] || pre[|pre| - 1].height == n1.height
    requires post == [] || post[0].height == n1.height
    ensures Interp(q, pre + ([n1, n2] + post)) == Interp(q, pre + ([m1, m2] + post))
  {
    var ns, ms := [n1, n2] + post, [m1, m2] + post;
    RisingTail(pre, ns);
    RisingTail(pre, ms);
    FlatHead(n1, n2, post, q);
    FlatHead(m1, m2, post, q);
    if pre == [] {
      assert pre + ns == ns && pre + ms == ms;
    } else {
      assert (pre + ns)[1..] == pre[1..] + ns && (pre + ms)[1..] == pre[1..] + ms;
      if |pre| == 1 {
        assert pre[1..] == [] && [] + ns == ns && [] + ms == ms;
        FlatLine(pre[0], n1, q);
        FlatLine(pre[0], m1, q);
      } else {
        FlatMiddle(pre[1..], n1, n2, m1, m2, post, q);
      }
    }
  }

  lemma {:induction false} LineStaysUnder(a: Node, b: Node, q: real, r: real)
    requires a.at < b.at && a.height < b.height && OnLine(a, b, q, r)
    ensures q < b.at ==> r < b.height
    ensures q > a.at ==> r > a.height
  {
    TimesMinus(b.at, q, b.height - a.height);
    TimesSign(b.height - a.height, b.at - q);
    TimesSign(b.height - a.height, q - a.at);
    TimesSign(b.at - a.at, r - a.height);
    TimesSign(b.at - a.at, b.height - r);
    assert (b.height - r) * (b.at - a.at) == (b.height - a.height) * (b.at - q);
  }

  /** With a lower node before them, the earlier first position tells the two apart. */
  lemma {:induction false} ToldBelow(pre: seq<Node>, n1: Node, n2: Node, m1: Node, m2: Node, post: seq<Node>)
    requires Rising(pre + ([n1, n2] + post)) && Rising(pre + ([m1, m2] + post))
    requires n1.height == n2.height == m1.height == m2.height && n1.at < m1.at
    requires pre != [] && pre[|pre| - 1].height < n1.height
    ensures Interp(n1.at, pre + ([n1, n2] + post)) != Interp(n1.at, pre + ([m1, m2] + post))
  {
    var ns, ms, i := pre + ([n1, n2] + post), pre + ([m1, m2] + post), |pre| - 1;
    RisingTail(pre, [n1, n2] + post);
    ThroughEveryPoint(ns, i + 1, n1.at);
    ThroughEveryPoint(ms, i, n1.at);
    assert ns[i + 1] == n1 && ms[i] == pre[i] && ms[i + 1] == m1;
    RisingFrom(ms, i);
    LineStaysUnder(pre[i], m1, n1.at, Interp(n1.at, ms));
  }

  /** With a higher node after them, the later second position does. */
  lemma {:induction false} ToldAbove(pre: seq<Node>, n1: Node, n2: Node, m1: Node, m2: Node, post: seq<Node>)
    requires Rising(pre + ([n1, n2] + post)) && Rising(pre + ([m1, m2] + post))
    requires n1.height == n2.height == m1.height == m2.height && n2.at < m2.at
    requires post != [] && n1.height < post[0].height
    ensures Interp(m2.at, pre + ([n1, n2] + post)) != Interp(m2.at, pre + ([m1, m2] + post))
  {
    var ns, ms, i := pre + ([n1, n2] + post), pre + ([m1, m2] + post), |pre| + 1;
    RisingFrom(ms, i);
    RisingFrom(ns, i);
    ThroughEveryPoint(ms, i, m2.at);
    ThroughEveryPoint(ns, i, m2.at);
    assert ms[i] == m2 && ns[i] == n2 && ns[i + 1] == post[0] && ms[i + 1] == post[0];
    LineStaysUnder(n2, post[0], m2.at, Interp(m2.at, ns));
  }

  lemma {:induction false} NodesAppend(s: seq<Point>, t: seq<Point>, before: real, total: real)
    requires total != 0.0
    ensures Nodes(s + t, before, total) == Nodes(s, before, total) + Nodes(t, before + Sum(s), total)
  {
    if s == [] {
      assert s + t == t;
    } else {
      assert (s + t)[1..] == s[1..] + t;
      NodesAppend(s[1..], t, before + s[0].weight, total);
    }
  }

  // The curve through a tied pair

  function FirstOf(sum: real, x: Point, total: real): Node
    requires total != 0.0
  {
    Node(Over(sum + x.weight - 0.5 * x.weight, total), x.value)
  }

  function SecondOf(sum: real, x: Point, y: Point, total: real): Node
    requires total != 0.0
  {
    Node(Over(sum + x.weight + y.weight - 0.5 * y.weight, total), y.value)
  }

  lemma {:induction false} PairNodes(a: seq<Point>, x: Point, y: Point, b: seq<Point>, total: real)
    requires total != 0.0
    ensures var sum := Sum(a);
      Nodes(a + ([x, y] + b), 0.0, total)
        == Nodes(a, 0.0, total) + ([FirstOf(sum, x, total), SecondOf(sum, x, y, total)]
                                   + Nodes(b, sum + x.weight + y.weight, total))
  {
    NodesAppend(a, [x, y] + b, 0.0, total);
    PairFirst(x, y, b, Sum(a), total);
  }

  lemma {:induction false} PairFirst(x: Point, y: Point, b: seq<Point>, sum: real, total: real)
    requires total != 0.0
    ensures Nodes([x, y] + b, sum, total) == [FirstOf(sum, x, total), SecondOf(sum, x, y, total)]
                                             + Nodes(b, sum + x.weight + y.weight, total)
  {
    var s := [x, y] + b;
    assert s[1..] == [y] + b && ([y] + b)[1..] == b;
    Regroup([FirstOf(sum, x, total)], [SecondOf(sum, x, y, total)], Nodes(b, sum + x.weight + y.weight, total));
  }

  lemma {:induction false} PairOrdered(sum: real, x: Point, y: Point, total: real)
    requires total > 0.0 && x.weight < y.weight
    ensures FirstOf(sum, x, total).at < FirstOf(sum, y, total).at
    ensures SecondOf(sum, x, y, total).at < SecondOf(sum, y, x, total).at
  {
    OverOrdered(sum + x.weight - 0.5 * x.weight, sum + y.weight - 0.5 * y.weight, total);
    OverOrdered(sum + x.weight + y.weight - 0.5 * y.weight, sum + y.weight + x.weight - 0.5 * x.weight, total);
  }

  predicate Flat(a: seq<Point>, b: seq<Point>, v: real) {
    (a == [] || a[|a| - 1].value == v) && (b == [] || b[0].value == v)
  }

  /** The cells sorted around a pair of value `v` are no higher before it and no lower after it. */
  predicate Around(a: seq<Point>, b: seq<Point>, v: real) {
    (a == [] || a[|a| - 1].value <= v) && (b == [] || v <= b[0].value)
  }

  lemma {:induction false} FlatPairs(a: seq<Point>, x: Point, y: Point, b: seq<Point>, total: real, q: real)
    requires total > 0.0 && x.value == y.value && Flat(a, b, x.value)
    requires Rising(Nodes(a + ([x, y] + b), 0.0, total)) && Rising(Nodes(a + ([y, x] + b), 0.0, total))
    ensures Nodes(a + ([x, y] + b), 0.0, total) != [] && Nodes(a + ([y, x] + b), 0.0, total) != []
    ensures Interp(q, Nodes(a + ([x, y] + b), 0.0, total)) == Interp(q, Nodes(a + ([y, x] + b), 0.0, total))
  {
    var sum := Sum(a);
    PairNodes(a, x, y, b, total);
    PairNodes(a, y, x, b, total);
    assert sum + x.weight + y.weight == sum + y.weight + x.weight;
    var pre, post := Nodes(a, 0.0, total), Nodes(b, sum + x.weight + y.weight, total);
    assert pre == [] || pre[|pre| - 1].height == x.value;
    assert post == [] || post[0].height == x.value;
    FlatMiddle(pre, FirstOf(sum, x, total), SecondOf(sum, x, y, total),
               FirstOf(sum, y, total), SecondOf(sum, y, x, total), post, q);
  }

  lemma {:induction false} SlopedPairs(a: seq<Point>, x: Point, y: Point, b: seq<Point>, total: real) returns (q: real)
    requires total > 0.0 && x.value == y.value && x.weight < y.weight
    requires Around(a, b, x.value) && !Flat(a, b, x.value)
    requires Rising(Nodes(a + ([x, y] + b), 0.0, total)) && Rising(Nodes(a + ([y, x] + b), 0.0, total))
    ensures Nodes(a + ([x, y] + b), 0.0, total) != [] && Nodes(a + ([y, x] + b), 0.0, total) != []
    ensures Interp(q, Nodes(a + ([x, y] + b), 0.0, total)) != Interp(q, Nodes(a + ([y, x] + b), 0.0, total))
  {
    var sum := Sum(a);
    PairNodes(a, x, y, b, total);
    PairNodes(a, y, x, b, total);
    PairOrdered(sum, x, y, total);
    assert sum + x.weight + y.weight == sum + y.weight + x.weight;
    var pre, post := Nodes(a, 0.0, total), Nodes(b, sum + x.weight + y.weight, total);
    var n1, n2 := FirstOf(sum, x, total), SecondOf(sum, x, y, total);
    var m1, m2 := FirstOf(sum, y, total), SecondOf(sum, y, x, total);
    if a != [] && a[|a| - 1].value < x.value {
      q := n1.at;
      ToldBelow(pre, n1, n2, m1, m2, post);
    } else {
      q := m2.at;
      ToldAbove(pre, n1, n2, m1, m2, post);
    }
  }

  // The condition on the cells

  /** The tied value has a tie on this side of the pair, or no valid cell beyond it on that side. */
  predicate Sheltered(a: seq<Point>, b: seq<Point>, v: real) {
    && (Ties(a, v) != [] || Below(a + b, v) == [])
    && (Ties(b, v) != [] || Above(a + b, v) == [])
  }

  lemma {:induction false} LastBelow(s: seq<Point>, v: real)
    requires AllBelow(s, v) && s != []
    ensures s[|s| - 1].value < v
  {
    if |s| > 1 {
      LastBelow(s[1..], v);
    }
  }

  lemma {:induction false} LastAre(s: seq<Point>, v: real)
    requires AllAre(s, v) && s != []
    ensures s[|s| - 1].value == v
  {
    if |s| > 1 {
      LastAre(s[1..], v);
    }
  }

  lemma {:induction false} ShelteredIsFlat(a: seq<Point>, b: seq<Point>, v: real)
    ensures Around(Before(a, b, v), After(a, b, v), v)
    ensures Flat(Before(a, b, v), After(a, b, v), v) <==> Sheltered(a, b, v)
  {
    var low, high := Sorted(Below(a + b, v)), Sorted(Above(a + b, v));
    SortedBelow(a + b, v);
    SortedAbove(a + b, v);
    TiesAre(a, v);
    TiesAre(b, v);
    if Ties(a, v) != [] {
      LastAre(Ties(a, v), v);
      assert Before(a, b, v)[|Before(a, b, v)| - 1] == Ties(a, v)[|Ties(a, v)| - 1];
    } else {
      assert Before(a, b, v) == low;
      if low != [] {
        LastBelow(low, v);
      }
    }
    if Ties(b, v) != [] {
      assert After(a, b, v)[0] == Ties(b, v)[0];
    } else {
      assert After(a, b, v) == high;
    }
  }

  predicate Positive(s: seq<Point>) {
    forall i :: 0 <= i < |s| ==> s[i].weight > 0.0
  }

  /** The quantile of the valid cells. */
  function Quantile(good: seq<Point>, q: real): Cell
    requires Positive(good)
  {
    if good == [] then None
    else
      PositionsRise(good);
      Some(Interp(q, Nodes(Sorted(good), 0.0, Sum(Sorted(good)))))
  }

  lemma {:induction false} SumAppend(s: seq<Point>, t: seq<Point>)
    ensures Sum(s + t) == Sum(s) + Sum(t)
  {
    if s == [] {
      assert s + t == t;
    } else {
      assert (s + t)[1..] == s[1..] + t;
      SumAppend(s[1..], t);
    }
  }

  lemma {:induction false} PairSum(a: seq<Point>, x: Point, y: Point, b: seq<Point>)
    ensures Sum(a + ([x, y] + b)) == Sum(a + ([y, x] + b))
  {
    SumAppend(a, [x, y] + b);
    SumAppend(a, [y, x] + b);
    SumAppend([x, y], b);
    SumAppend([y, x], b);
    assert [x, y][1..] == [y] && [y, x][1..] == [x] && [x][1..] == [] && [y][1..] == [];
    assert Sum([x]) == x.weight && Sum([y]) == y.weight;
  }

  lemma {:induction false} ShelteredSame(a: seq<Point>, x: Point, y: Point, b: seq<Point>, q: real)
    requires x.value == y.value && Sheltered(a, b, x.value)
    requires Positive(a + [x, y] + b) && Positive(a + [y, x] + b)
    ensures Quantile(a + [x, y] + b, q) == Quantile(a + [y, x] + b, q)
  {
    var v := x.value;
    var l, r := Before(a, b, v), After(a, b, v);
    PairSorted(a, x, y, b);
    PairSorted(a, y, x, b);
    PairSum(l, x, y, r);
    PositionsRise(a + [x, y] + b);
    PositionsRise(a + [y, x] + b);
    ShelteredIsFlat(a, b, v);
    FlatPairs(l, x, y, r, Sum(l + ([x, y] + r)), q);
  }

  lemma {:induction false} UnshelteredDiffer(a: seq<Point>, x: Point, y: Point, b: seq<Point>) returns (q: real)
    requires x.value == y.value && x.weight < y.weight && !Sheltered(a, b, x.value)
    requires Positive(a + [x, y] + b) && Positive(a + [y, x] + b)
    ensures Quantile(a + [x, y] + b, q) != Quantile(a + [y, x] + b, q)
  {
    var v := x.value;
    var l, r := Before(a, b, v), After(a, b, v);
    PairSorted(a, x, y, b);
    PairSorted(a, y, x, b);
    PairSum(l, x, y, r);
    PositionsRise(a + [x, y] + b);
    PositionsRise(a + [y, x] + b);
    ShelteredIsFlat(a, b, v);
    q := SlopedPairs(l, x, y, r, Sum(l + ([x, y] + r)));
  }

  /** The neighbours at `k` and their surroundings: the pair ties with different weights, and the tied
      value has no such shelter on one side or the other. */
  predicate Exposed(values: seq<Cell>, weights: seq<real>, k: nat)
    requires |values| == |weights| && k + 1 < |values|
  {
    && Tied(values, weights, k)
    && !Sheltered(Good(values[..k], weights[..k]), Good(values[k + 2..], weights[k + 2..]), values[k].value)
  }

  /** Swapping two neighbouring cells keeps every quantile exactly unless they tie on their value with
      different weights, and on some side there is a valid cell beyond that value but no other tie. */
  lemma {:induction false} SwapKeepsExactly(values: seq<Cell>, weights: seq<real>, k: nat)
    requires |values| == |weights| && k + 1 < |values|
    ensures (forall q: real ::
               RowQuantile(Swapped(values, k), Swapped(weights, k), q) == RowQuantile(values, weights, q))
       <==> !Exposed(values, weights, k)
  {
    if !Tied(values, weights, k) {
      forall q: real
        ensures RowQuantile(Swapped(values, k), Swapped(weights, k), q) == RowQuantile(values, weights, q)
      {
        SwapKeepsQuantile(values, weights, k, q);
      }
    } else if !Exposed(values, weights, k) {
      forall q: real
        ensures RowQuantile(Swapped(values, k), Swapped(weights, k), q) == RowQuantile(values, weights, q)
      {
        ShelteredRows(values, weights, k, q);
      }
    } else {
      var q := ExposedRows(values, weights, k);
    }
  }

  /** The valid cells of a row with a tied pair, and of the row with the pair swapped. */
  lemma {:induction false} TiedGood(values: seq<Cell>, weights: seq<real>, k: nat)
    requires |values| == |weights| && k + 1 < |values| && Tied(values, weights, k)
    ensures var a, b := Good(values[..k], weights[..k]), Good(values[k + 2..], weights[k + 2..]);
      var x, y := Point(values[k].value, weights[k]), Point(values[k].value, weights[k + 1]);
      && Good(values, weights) == a + [x, y] + b
      && Good(Swapped(values, k), Swapped(weights, k)) == a + [y, x] + b
  {
    var sv, sw := Swapped(values, k), Swapped(weights, k);
    var x, y := Point(values[k].value, weights[k]), Point(values[k].value, weights[k + 1]);
    GoodAround(values, weights, k);
    GoodAround(sv, sw, k);
    assert sv[..k] == values[..k] && sw[..k] == weights[..k];
    assert sv[k + 2..] == values[k + 2..] && sw[k + 2..] == weights[k + 2..];
    assert Good([values[k]], [weights[k]]) == [x] && Good([values[k + 1]], [weights[k + 1]]) == [y];
    assert [x] + [y] == [x, y] && [y] + [x] == [y, x];
    Regroup(Good(values[..k], weights[..k]), [x], [y]);
    Regroup(Good(values[..k], weights[..k]), [y], [x]);
  }

  lemma {:induction false} ShelteredRows(values: seq<Cell>, weights: seq<real>, k: nat, q: real)
    requires |values| == |weights| && k + 1 < |values| && Tied(values, weights, k) && !Exposed(values, weights, k)
    ensures RowQuantile(Swapped(values, k), Swapped(weights, k), q) == RowQuantile(values, weights, q)
  {
    TiedGood(values, weights, k);
    ShelteredSame(Good(values[..k], weights[..k]), Point(values[k].value, weights[k]),
                  Point(values[k].value, weights[k + 1]), Good(values[k + 2..], weights[k + 2..]), q);
  }

  lemma {:induction false} ExposedRows(values: seq<Cell>, weights: seq<real>, k: nat) returns (q: real)
    requires |values| == |weights| && k + 1 < |values| && Exposed(values, weights, k)
    ensures RowQuantile(Swapped(values, k), Swapped(weights, k), q) != RowQuantile(values, weights, q)
  {
    var a, b := Good(values[..k], weights[..k]), Good(values[k + 2..], weights[k + 2..]);
    var x, y := Point(values[k].value, weights[k]), Point(values[k].value, weights[k + 1]);
    TiedGood(values, weights, k);
    if x.weight < y.weight {
      q := UnshelteredDiffer(a, x, y, b);
    } else {
      q := UnshelteredDiffer(a, y, x, b);
    }
  }
}
