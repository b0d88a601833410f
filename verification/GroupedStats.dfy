/** The statistics read off the cells sorted by group, and the whole reduction. */
module GroupedStats {
  import opened Reals
  import opened Wrappers
  import opened WeightedStats
  import opened LabelReduce
  import opened LabelCells

  // Sorting by group

  /** Stable argsort by label, applied: equal labels keep their order. */
  function Sorted(items: seq<Item>): (r: seq<Item>)
    ensures |r| == |items|
  {
    if items == [] then [] else Place(items[0], Sorted(items[1..]))
  }

  /** An item that came before all of `s` goes before the first one not smaller. */
  function Place(x: Item, s: seq<Item>): (r: seq<Item>)
    ensures |r| == |s| + 1
  {
    if s == [] || x.group <= s[0].group then [x] + s else [s[0]] + Place(x, s[1..])
  }

  predicate InOrder(s: seq<Item>) {
    |s| <= 1 || (s[0].group <= s[1].group && InOrder(s[1..]))
  }

  /** `np.searchsorted` on sorted labels: how many are below `g`, and how many not above it. */
  function SearchLeft(s: seq<Item>, g: int): (n: nat)
    ensures n <= |s|
  {
    if s == [] then 0 else (if s[0].group < g then 1 else 0) + SearchLeft(s[1..], g)
  }

  function SearchRight(s: seq<Item>, g: int): (n: nat)
    ensures n <= |s|
  {
    if s == [] then 0 else (if s[0].group <= g then 1 else 0) + SearchRight(s[1..], g)
  }

  lemma {:induction false} PlaceInOrder(x: Item, s: seq<Item>)
    requires InOrder(s)
    ensures InOrder(Place(x, s))
    ensures forall g :: Group(Place(x, s), g) == (if x.group == g then [x] else []) + Group(s, g)
  {
    if s == [] || x.group <= s[0].group {
      assert ([x] + s)[1..] == s;
    } else {
      var r := Place(x, s[1..]);
      PlaceInOrder(x, s[1..]);
      assert ([s[0]] + r)[1..] == r;
      assert r[0] == x || r[0] == s[1];
    }
  }

  /** Sorting neither loses, adds nor reorders a group's cells. */
  lemma {:induction false} SortedKeepsGroups(items: seq<Item>)
    ensures InOrder(Sorted(items))
    ensures forall g :: Group(Sorted(items), g) == Group(items, g)
  {
    if items != [] {
      SortedKeepsGroups(items[1..]);
      PlaceInOrder(items[0], Sorted(items[1..]));
    }
  }

  lemma {:induction false} AllAbove(s: seq<Item>, g: int)
    requires InOrder(s) && (s == [] || s[0].group > g)
    ensures SearchLeft(s, g) == SearchRight(s, g) == 0 && Group(s, g) == []
  {
    if s != [] {
      AllAbove(s[1..], g);
    }
  }

  lemma {:induction false} NoneBelow(s: seq<Item>, g: int)
    requires InOrder(s) && (s == [] || s[0].group >= g)
    ensures SearchLeft(s, g) == 0
  {
    if s != [] {
      NoneBelow(s[1..], g);
    }
  }

  lemma {:induction false} SliceShifts(s: seq<Item>, a: nat, b: nat)
    requires s != [] && a <= b < |s|
    ensures s[a + 1..b + 1] == s[1..][a..b]
  {
    forall i | 0 <= i < b - a
      ensures s[a + 1..b + 1][i] == s[1..][a..b][i]
    {
    }
  }

  /** The segment between the two searches is exactly the group, in its original order. */
  lemma {:induction false} SegmentIsGroup(s: seq<Item>, g: int)
    requires InOrder(s)
    ensures SearchLeft(s, g) <= SearchRight(s, g)
    ensures s[SearchLeft(s, g)..SearchRight(s, g)] == Group(s, g)
  {
    if s != [] {
      var rest := s[1..];
      GroupFirst(s, g);
      if s[0].group > g {
        AllAbove(s, g);
      } else {
        SegmentIsGroup(rest, g);
        var left, right := SearchLeft(rest, g), SearchRight(rest, g);
        SliceShifts(s, left, right);
        if s[0].group == g {
          NoneBelow(rest, g);
          assert s[..right + 1] == [s[0]] + s[1..right + 1];
        }
      }
    }
  }

  // What is read off a segment

  function Values(s: seq<Item>): (r: seq<real>)
    requires forall i :: 0 <= i < |s| ==> s[i].value.Some?
    ensures |r| == |s| && forall i :: 0 <= i < |s| ==> r[i] == s[i].value.value
  {
    seq(|s|, i requires 0 <= i < |s| => s[i].value.value)
  }

  /** `np.min` and `np.max` of a segment. */
  function Least(xs: seq<real>): real
    requires xs != []
  {
    if |xs| == 1 then xs[0] else if xs[0] <= Least(xs[1..]) then xs[0] else Least(xs[1..])
  }

  function Greatest(xs: seq<real>): real
    requires xs != []
  {
    if |xs| == 1 then xs[0] else if xs[0] >= Greatest(xs[1..]) then xs[0] else Greatest(xs[1..])
  }

  lemma {:induction false} LeastIsLeast(xs: seq<real>)
    requires xs != []
    ensures Least(xs) in xs && forall i :: 0 <= i < |xs| ==> Least(xs) <= xs[i]
    ensures Greatest(xs) in xs && forall i :: 0 <= i < |xs| ==> xs[i] <= Greatest(xs)
  {
    if |xs| > 1 {
      assert xs == [xs[0]] + xs[1..];
      LeastIsLeast(xs[1..]);
    }
  }

  function LeastCell(xs: seq<real>): Cell {
    if xs == [] then None else Some(Least(xs))
  }

  function GreatestCell(xs: seq<real>): Cell {
    if xs == [] then None else Some(Greatest(xs))
  }

  function VarCell(xs: seq<real>): Cell {
    if xs == [] then None else Some(PlainVar(xs))
  }

  function SumOfReals(xs: seq<real>): real {
    if xs == [] then 0.0 else xs[0] + SumOfReals(xs[1..])
  }

  function SquaresAbout(xs: seq<real>, m: real): real {
    if xs == [] then 0.0 else Times(xs[0] - m, xs[0] - m) + SquaresAbout(xs[1..], m)
  }

  /** `np.var`, the population variance. */
  function PlainVar(xs: seq<real>): real
    requires xs != []
  {
    Over(SquaresAbout(xs, Over(SumOfReals(xs), |xs| as real)), |xs| as real)
  }

  lemma {:induction false} UnitWeights(s: seq<Item>, m: real)
    requires forall i :: 0 <= i < |s| ==> s[i].value.Some? && s[i].weight == 1.0
    ensures Total(s) == |s| as real
    ensures WeightedSum(s) == SumOfReals(Values(s))
    ensures Deviation(s, m) == SquaresAbout(Values(s), m)
  {
    if s != [] {
      UnitWeights(s[1..], m);
      assert Values(s)[1..] == Values(s[1..]);
      assert (1 + |s[1..]|) as real == 1.0 + |s[1..]| as real;
    }
  }

  lemma {:induction false} SomethingIn(s: seq<Item>)
    requires forall i :: 0 <= i < |s| ==> s[i].value.Some?
    ensures Anything(s) <==> s != []
  {
    if s != [] {
      assert s[0].value.Some?;
    }
  }

  /** The plain variance is the weighted one with every weight one. */
  lemma {:induction false} PlainVarIsWeighted(s: seq<Item>)
    requires s != [] && forall i :: 0 <= i < |s| ==> s[i].value.Some? && s[i].weight == 1.0
    ensures Statistic(s, Var) == Some(PlainVar(Values(s)))
  {
    SomethingIn(s);
    UnitWeights(s, 0.0);
    UnitWeights(s, Over(WeightedSum(s), Total(s)));
  }

  /** One group's entries in the four result arrays. */
  datatype Row = Row(low: Cell, high: Cell, std: Cell, spread: Cell)

  function RowOf(segment: seq<real>, root: real -> real, wantStd: bool, wantVar: bool): Row {
    Row(LeastCell(segment), GreatestCell(segment), if wantStd then Rooted(VarCell(segment), root) else None,
        if wantVar then VarCell(segment) else None)
  }

  /** One pass over the groups, reading each group's run of the sorted values; an empty one stays NaN. */
  method GroupedSegmentStats(grouped: seq<real>, starts: seq<nat>, ends: seq<nat>, n: nat, root: real -> real,
                             wantStd: bool, wantVar: bool)
    returns (rows: array<Row>)
    requires |starts| == |ends| == n
    requires forall g :: 0 <= g < n ==> starts[g] <= ends[g] <= |grouped|
    ensures fresh(rows) && rows.Length == n
    ensures forall g :: 0 <= g < n ==> rows[g] == RowOf(grouped[starts[g]..ends[g]], root, wantStd, wantVar)
  {
    rows := new Row[n](_ => Row(None, None, None, None));
    for group := 0 to n
      invariant forall g {:trigger rows[g]} :: 0 <= g < group ==>
        rows[g] == RowOf(grouped[starts[g]..ends[g]], root, wantStd, wantVar)
      invariant forall g {:trigger rows[g]} :: group <= g < n ==> rows[g] == Row(None, None, None, None)
    {
      var segment := grouped[starts[group]..ends[group]];
      if segment == [] {
        continue;
      }
      var row := rows[group].(low := Some(Least(segment)), high := Some(Greatest(segment)));
      if wantStd {
        row := row.(std := Some(root(PlainVar(segment))));
      }
      if wantVar {
        row := row.(spread := Some(PlainVar(segment)));
      }
      rows[group] := row;
    }
  }

  // The whole reduction

  /** What a statistic of a group is, from the group's valid cells alone. */
  function Answer(members: seq<Item>, stat: Stat, root: real -> real): Cell
    requires forall i :: 0 <= i < |members| ==> members[i].value.Some?
  {
    match stat
    case CountOf => Some(|members| as real)
    case SumOf => Some(WeightedSum(members))
    case MeanOf => Statistic(members, Mean)
    case VarOf => Statistic(members, Var)
    case MinOf => LeastCell(Values(members))
    case MaxOf => GreatestCell(Values(members))
    case StdOf => Std(members, root)
    case Unknown => None
  }

  lemma {:induction false} GroupReady(items: seq<Item>, n: nat, g: int)
    requires Ready(items, n)
    ensures Ready(Group(items, g), n)
  {
    if items != [] {
      ReadyTail(items, n);
      GroupReady(items[1..], n, g);
      GroupFirst(items, g);
    }
  }

  /** The bincount statistics of a group are those of its valid cells alone. */
  lemma {:induction false} CoreAnswers(items: seq<Item>, n: nat, g: nat, root: real -> real)
    requires Ready(items, n) && g < n
    ensures Ready(Group(items, g), n)
    ensures var members := Group(items, g);
      && CountStat(items, n)[g] == Answer(members, CountOf, root)
      && SumStat(items, n)[g] == Answer(members, SumOf, root)
      && MeanStat(items, n)[g] == Answer(members, MeanOf, root)
      && VarStat(items, n)[g] == Answer(members, VarOf, root)
  {
    GroupReady(items, n, g);
    var members := Group(items, g);
    SomethingIn(members);
    OneBins(items, n, g);
    ProductBins(items, n, g);
    MeanBins(items, n, g);
    VarBins(items, n, g);
  }

  lemma {:induction false} SortedReady(items: seq<Item>, n: nat)
    requires Ready(items, n)
    ensures Ready(Sorted(items), n)
  {
    if items != [] {
      ReadyTail(items, n);
      SortedReady(items[1..], n);
      PlaceReady(items[0], Sorted(items[1..]), n);
    }
  }

  lemma {:induction false} PlaceReady(x: Item, s: seq<Item>, n: nat)
    requires Ready([x] + s, n)
    ensures Ready(Place(x, s), n)
  {
    if s != [] && x.group > s[0].group {
      assert ([x] + s)[0] == x && ([x] + s)[1] == s[0];
      forall i | 0 <= i < |[x] + s[1..]|
        ensures 0 <= ([x] + s[1..])[i].group < n && ([x] + s[1..])[i].value.Some?
      {
        assert ([x] + s[1..])[i] == ([x] + s)[if i == 0 then 0 else i + 1];
      }
      PlaceReady(x, s[1..], n);
    }
  }

  /** The segment of a group in the sorted values is the group's values. */
  lemma {:induction false} SegmentValues(items: seq<Item>, n: nat, g: int)
    requires Ready(items, n)
    ensures Ready(Sorted(items), n) && Ready(Group(items, g), n)
    ensures SearchLeft(Sorted(items), g) <= SearchRight(Sorted(items), g)
    ensures Values(Sorted(items))[SearchLeft(Sorted(items), g)..SearchRight(Sorted(items), g)]
         == Values(Group(items, g))
  {
    var s := Sorted(items);
    SortedReady(items, n);
    GroupReady(items, n, g);
    assert InOrder(s) && Group(s, g) == Group(items, g) by {
      SortedKeepsGroups(items);
    }
    SegmentIsGroup(s, g);
    assert Values(s)[SearchLeft(s, g)..SearchRight(s, g)] == Values(s[SearchLeft(s, g)..SearchRight(s, g)]);
  }

  /** Every group's requested statistics, from its valid cells. */
  ghost predicate Answers(items: seq<Item>, n: nat, root: real -> real, stat: Stat, column: seq<Cell>)
    requires Ready(items, n)
  {
    |column| == n
    && forall g :: 0 <= g < n ==> Ready(Group(items, g), n) && column[g] == Answer(Group(items, g), stat, root)
  }

  /** Every group's plain variance. */
  ghost predicate PlainVars(items: seq<Item>, n: nat, vars: seq<Cell>)
    requires Ready(items, n)
  {
    |vars| == n && forall g :: 0 <= g < n ==> Ready(Group(items, g), n) && vars[g] == VarCell(Values(Group(items, g)))
  }

  /** Every group's plain standard deviation. */
  ghost predicate PlainStds(items: seq<Item>, n: nat, root: real -> real, stds: seq<Cell>)
    requires Ready(items, n)
  {
    |stds| == n
    && forall g :: 0 <= g < n ==>
         Ready(Group(items, g), n) && stds[g] == Rooted(VarCell(Values(Group(items, g))), root)
  }

  /** The grouped pass: `min`, `max` and the unweighted `std` and `var` of every group. */
  method GroupedPass(items: seq<Item>, n: nat, root: real -> real, wantStd: bool, wantVar: bool)
    returns (mins: seq<Cell>, maxs: seq<Cell>, stds: seq<Cell>, vars: seq<Cell>)
    requires Ready(items, n)
    ensures |mins| == |maxs| == |stds| == |vars| == n
    ensures forall g :: 0 <= g < n ==> Ready(Group(items, g), n)
    ensures Answers(items, n, root, MinOf, mins) && Answers(items, n, root, MaxOf, maxs)
    ensures wantStd ==> PlainStds(items, n, root, stds)
    ensures wantVar ==> PlainVars(items, n, vars)
  {
    var sorted := Sorted(items);
    forall g: nat | g < n
      ensures Ready(sorted, n) && Ready(Group(items, g), n)
      ensures SearchLeft(sorted, g) <= SearchRight(sorted, g)
      ensures Values(sorted)[SearchLeft(sorted, g)..SearchRight(sorted, g)] == Values(Group(items, g))
    {
      SegmentValues(items, n, g);
    }
    SortedReady(items, n);
    var starts: seq<nat> := seq(n, g => SearchLeft(sorted, g));
    var ends: seq<nat> := seq(n, g => SearchRight(sorted, g));
    var filled := GroupedSegmentStats(Values(sorted), starts, ends, n, root, wantStd, wantVar);
    var rows := filled[..];
    mins, maxs := seq(n, g requires 0 <= g < n => rows[g].low), seq(n, g requires 0 <= g < n => rows[g].high);
    stds, vars := seq(n, g requires 0 <= g < n => rows[g].std), seq(n, g requires 0 <= g < n => rows[g].spread);
  }

  lemma {:induction false} CoreColumns(items: seq<Item>, n: nat, root: real -> real)
    requires Ready(items, n)
    ensures Answers(items, n, root, CountOf, CountStat(items, n))
    ensures Answers(items, n, root, SumOf, SumStat(items, n))
    ensures Answers(items, n, root, MeanOf, MeanStat(items, n))
    ensures Answers(items, n, root, VarOf, VarStat(items, n))
  {
    forall g: nat | g < n
      ensures Ready(Group(items, g), n)
      ensures CountStat(items, n)[g] == Answer(Group(items, g), CountOf, root)
      ensures SumStat(items, n)[g] == Answer(Group(items, g), SumOf, root)
      ensures MeanStat(items, n)[g] == Answer(Group(items, g), MeanOf, root)
      ensures VarStat(items, n)[g] == Answer(Group(items, g), VarOf, root)
    {
      CoreAnswers(items, n, g, root);
    }
  }

  function RootedAll(xs: seq<Cell>, root: real -> real): (r: seq<Cell>)
    ensures |r| == |xs| && forall g :: 0 <= g < |xs| ==> r[g] == Rooted(xs[g], root)
  {
    seq(|xs|, g requires 0 <= g < |xs| => Rooted(xs[g], root))
  }

  /** The roots of the variances are the standard deviations. */
  lemma {:induction false} RootedColumn(items: seq<Item>, n: nat, root: real -> real, vars: seq<Cell>)
    requires Ready(items, n) && Answers(items, n, root, VarOf, vars)
    ensures Answers(items, n, root, StdOf, RootedAll(vars, root))
  {}

  lemma {:induction false} UnweightedColumn(items: seq<Item>, n: nat,
                                            root: real -> real, stds: seq<Cell>, vars: seq<Cell>)
    requires Ready(items, n)
    requires forall i :: 0 <= i < |items| ==> items[i].weight == 1.0
    ensures PlainVars(items, n, vars) ==> Answers(items, n, root, VarOf, vars)
    ensures PlainStds(items, n, root, stds) ==> Answers(items, n, root, StdOf, stds)
  {
    forall g: nat | g < n
      ensures Ready(Group(items, g), n) && Statistic(Group(items, g), Var) == VarCell(Values(Group(items, g)))
    {
      GroupReady(items, n, g);
      GroupUnit(items, g);
      UnweightedVar(Group(items, g));
    }
  }

  lemma {:induction false} GroupUnit(items: seq<Item>, g: int)
    requires forall i :: 0 <= i < |items| ==> items[i].weight == 1.0
    ensures forall i :: 0 <= i < |Group(items, g)| ==> Group(items, g)[i].weight == 1.0
  {
    if items != [] {
      GroupUnit(items[1..], g);
      GroupFirst(items, g);
    }
  }

  /** The statistics bincounts give: `count`, `sum`, `mean`, and `std` and `var` when weighted. */
  method BincountStats(items: seq<Item>, n: nat, stats: seq<Stat>, weighted: bool, root: real -> real)
    returns (out: map<Stat, seq<Cell>>)
    requires Ready(items, n)
    ensures out.Keys ==
      set stat | stat in stats && (stat in {CountOf, SumOf, MeanOf} || (stat in {StdOf, VarOf} && weighted))
    ensures forall stat :: stat in out ==> Answers(items, n, root, stat, out[stat])
  {
    CoreColumns(items, n, root);
    out := map[];
    if CountOf in stats {
      out := out[CountOf := CountStat(items, n)];
    }
    if SumOf in stats {
      out := out[SumOf := SumStat(items, n)];
    }
    if MeanOf in stats {
      out := out[MeanOf := MeanStat(items, n)];
    }
    if weighted {
      var spread := WeightedSpread(items, n, stats, root);
      out := out + spread;
    }
  }

  /** The weighted `var`, and `std` as its root. */
  method WeightedSpread(items: seq<Item>, n: nat, stats: seq<Stat>, root: real -> real)
    returns (out: map<Stat, seq<Cell>>)
    requires Ready(items, n)
    ensures out.Keys == set stat | stat in stats && stat in {StdOf, VarOf}
    ensures forall stat :: stat in out ==> Answers(items, n, root, stat, out[stat])
  {
    out := map[];
    var vars := VarStat(items, n);
    CoreColumns(items, n, root);
    RootedColumn(items, n, root, vars);
    if VarOf in stats {
      out := out[VarOf := vars];
    }
    if StdOf in stats {
      out := out[StdOf := RootedAll(vars, root)];
    }
  }

  /** The statistics of the sorted segments: `min`, `max`, and `std` and `var` when unweighted. */
  method SegmentStats(items: seq<Item>, n: nat, stats: seq<Stat>, weighted: bool, root: real -> real)
    returns (out: map<Stat, seq<Cell>>)
    requires Ready(items, n)
    requires !weighted ==> forall i :: 0 <= i < |items| ==> items[i].weight == 1.0
    ensures out.Keys == set stat | stat in stats && (stat in {MinOf, MaxOf} || (stat in {StdOf, VarOf} && !weighted))
    ensures forall stat :: stat in out ==> Answers(items, n, root, stat, out[stat])
  {
    var mins, maxs, stds, vars :=
      GroupedPass(items, n, root, !weighted && StdOf in stats, !weighted && VarOf in stats);
    out := map[];
    if MinOf in stats {
      out := out[MinOf := mins];
    }
    if MaxOf in stats {
      out := out[MaxOf := maxs];
    }
    if !weighted {
      UnweightedColumn(items, n, root, stds, vars);
      if StdOf in stats {
        out := out[StdOf := stds];
      }
      if VarOf in stats {
        out := out[VarOf := vars];
      }
    }
  }

  // The answers told from the caller's arrays

  ghost predicate AllTold(a: Arrays, n: nat, root: real -> real, stat: Stat, column: seq<Cell>)
    requires a.Sized()
  {
    |column| == n && forall g: nat :: g < n ==> a.Tells(g, stat, root, column[g])
  }

  lemma {:induction false} LeastTold(a: Arrays, g: int, members: seq<Item>)
    requires a.Sized() && members == a.Members(g, 0)
    requires forall i :: 0 <= i < |members| ==> members[i].value.Some?
    ensures a.IsMin(g, LeastCell(Values(members))) && a.IsMax(g, GreatestCell(Values(members)))
  {
    var xs := Values(members);
    forall i: nat | a.Belongs(i, g)
      ensures xs != [] && Least(xs) <= a.values[i].value <= Greatest(xs)
    {
      var j := IndexMember(a, g, 0, i);
      LeastIsLeast(xs);
      assert xs[j] == a.values[i].value;
    }
    if xs != [] {
      LeastIsLeast(xs);
      var low: nat :| low < |xs| && xs[low] == Least(xs);
      var high: nat :| high < |xs| && xs[high] == Greatest(xs);
      var i := MemberIndex(a, g, 0, low);
      var j := MemberIndex(a, g, 0, high);
      assert a.values[i] == Some(Least(xs)) && a.values[j] == Some(Greatest(xs));
    }
  }

  lemma {:induction false} AnswerTold(a: Arrays, g: int, root: real -> real, stat: Stat, members: seq<Item>)
    requires a.Sized() && stat != Unknown
    requires members == Group(Kept(a.Cells(), a.unassigned), g)
    ensures forall i :: 0 <= i < |members| ==> members[i].value.Some?
    ensures a.Tells(g, stat, root, Answer(members, stat, root))
  {
    MembersDone(a, g);
    SumsFrom(a, g, 0.0);
    SomethingIn(members);
    if a.WeightFrom(g, 0) != 0.0 {
      SumsFrom(a, g, a.SumFrom(g, 0) / a.WeightFrom(g, 0));
    }
    LeastTold(a, g, members);
  }

  /** The statistic of the slice made of one group's cells, NaN ones included, told from the arrays: the
      sums are NaN exactly without a number, what divides by the weights also when they add up to
      nothing. */
  lemma {:induction false} SliceTold(a: Arrays, g: int)
    requires a.Sized() && g != a.unassigned
    ensures var s := Group(a.Cells(), g);
      && (Statistic(s, SumOfWeights).None? <==> forall i: nat :: !a.Belongs(i, g))
      && (Statistic(s, SumOfWeights).Some? ==> Statistic(s, SumOfWeights) == Some(a.WeightFrom(g, 0)))
      && (Statistic(s, Sum).None? <==> forall i: nat :: !a.Belongs(i, g))
      && (Statistic(s, Sum).Some? ==> Statistic(s, Sum) == Some(a.SumFrom(g, 0)))
      && Statistic(s, Mean) == a.Mean(g)
      && Statistic(s, Var) == a.Variance(g)
  {
    var kept, all := Group(Kept(a.Cells(), a.unassigned), g), Group(a.Cells(), g);
    MembersDone(a, g);
    SumsFrom(a, g, 0.0);
    KeptGroup(a.Cells(), a.unassigned, g, 0.0);
    if a.WeightFrom(g, 0) != 0.0 {
      var m := a.SumFrom(g, 0) / a.WeightFrom(g, 0);
      SumsFrom(a, g, m);
      KeptGroup(a.Cells(), a.unassigned, g, m);
    }
    LeastTold(a, g, kept);
    if !Anything(all) {
      EmptyTotal(all);
    }
  }

  lemma {:induction false} AnswersTold(a: Arrays, n: nat, root: real -> real, stat: Stat, column: seq<Cell>)
    requires a.Sized() && stat != Unknown && Ready(Kept(a.Cells(), a.unassigned), n)
    requires Answers(Kept(a.Cells(), a.unassigned), n, root, stat, column)
    ensures AllTold(a, n, root, stat, column)
  {
    forall g: nat | g < n
      ensures a.Tells(g, stat, root, column[g])
    {
      AnswerTold(a, g, root, stat, Group(Kept(a.Cells(), a.unassigned), g));
    }
  }

  /** The requested statistics of every group, or the refusal.  Each answer is the statistic of the
      group's valid cells taken alone; `root` is the square root the deviations are taken with. */
  method ReduceByLabel(values: seq<Cell>, labels: seq<int>, nGroups: nat, stats: seq<Stat>,
                       unassigned: int, weights: Option<seq<real>>, root: real -> real)
    returns (r: Result<map<Stat, seq<Cell>>, LabelError>)
    ensures Validate(values, labels, nGroups, stats, weights, unassigned).Err? ==>
      r == Err(Validate(values, labels, nGroups, stats, weights, unassigned).error)
    ensures Validate(values, labels, nGroups, stats, weights, unassigned).Ok? ==>
      && |values| == |labels| && (weights.Some? ==> |weights.value| == |values|)
      && Ready(Kept(Zip(values, labels, weights), unassigned), nGroups)
      && r.Ok?
      && (forall stat :: stat in r.value <==> stat in stats)
      && (forall stat :: stat in r.value ==>
            && Answers(Kept(Zip(values, labels, weights), unassigned), nGroups, root, stat, r.value[stat])
            && AllTold(Arrays(values, labels, weights, unassigned), nGroups, root, stat, r.value[stat]))
  {
    var checked := Validate(values, labels, nGroups, stats, weights, unassigned);
    if checked.Err? {
      return Err(checked.error);
    }
    ValidExactly(values, labels, nGroups, stats, weights, unassigned);
    var cells := Zip(values, labels, weights);
    KeptReady(cells, unassigned, nGroups);
    if weights.None? {
      KeptUnit(cells, unassigned);
    }
    var items := Kept(cells, unassigned);
    var core := BincountStats(items, nGroups, stats, weights.Some?, root);
    var segments := SegmentStats(items, nGroups, stats, weights.Some?, root);
    forall stat
      ensures stat in core + segments <==> stat in stats
    {
      assert stat.CountOf? || stat.SumOf? || stat.MeanOf? || stat.StdOf? || stat.VarOf? || stat.MinOf? || stat.MaxOf?
        || stat.Unknown?;
    }
    r := Ok(core + segments);
    forall stat | stat in r.value
      ensures AllTold(Arrays(values, labels, weights, unassigned), nGroups, root, stat, r.value[stat])
    {
      AnswersTold(Arrays(values, labels, weights, unassigned), nGroups, root, stat, r.value[stat]);
    }
  }

  lemma {:induction false} KeptUnit(cells: seq<Item>, unassigned: int)
    requires forall i :: 0 <= i < |cells| ==> cells[i].weight == 1.0
    ensures forall i :: 0 <= i < |Kept(cells, unassigned)| ==> Kept(cells, unassigned)[i].weight == 1.0
  {
    if cells != [] {
      KeptUnit(cells[1..], unassigned);
      KeptFirst(cells, unassigned);
    }
  }

  lemma {:induction false} UnweightedVar(s: seq<Item>)
    requires forall i :: 0 <= i < |s| ==> s[i].value.Some? && s[i].weight == 1.0
    ensures Statistic(s, Var) == VarCell(Values(s))
  {
    SomethingIn(s);
    if s != [] {
      PlainVarIsWeighted(s);
    }
  }
}
