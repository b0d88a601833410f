/** Per-group statistics of a flat array: bincounts, and one pass over the cells sorted by group. */
module LabelReduce {
  import opened Bounds
  import opened Reals
  import opened Wrappers
  import opened WeightedStats

  datatype Stat = MeanOf | SumOf | MinOf | MaxOf | StdOf | VarOf | CountOf | Unknown

  datatype LabelError = SizeMismatch | UnknownStat | LabelsOutside(low: int, high: int) | WeightsMismatch

  // Validation

  function Assigned(labels: seq<int>, unassigned: int): seq<int> {
    if labels == [] then []
    else (if labels[0] != unassigned then [labels[0]] else []) + Assigned(labels[1..], unassigned)
  }

  function Validate(values: seq<Cell>, labels: seq<int>, nGroups: int, stats: seq<Stat>,
                    weights: Option<seq<real>>, unassigned: int): Result<(), LabelError>
  {
    var named := Assigned(labels, unassigned);
    if |values| != |labels| then Err(SizeMismatch)
    else if Unknown in stats then Err(UnknownStat)
    else if named != [] && (Lowest(named) < 0 || Highest(named) >= nGroups) then
      Err(LabelsOutside(Lowest(named), Highest(named)))
    else if weights.Some? && |weights.value| != |values| then Err(WeightsMismatch)
    else Ok(())
  }

  lemma {:induction false} AssignedIn(labels: seq<int>, unassigned: int, x: int)
    ensures x in Assigned(labels, unassigned) <==> x in labels && x != unassigned
  {
    if labels != [] {
      AssignedIn(labels[1..], unassigned, x);
    }
  }

  /** Inputs pass exactly when the sizes match, the statistics are known and every assigned label
      names a group, whether or not its cell is NaN. */
  lemma {:induction false} ValidExactly(values: seq<Cell>, labels: seq<int>, nGroups: int, stats: seq<Stat>,
                     weights: Option<seq<real>>, unassigned: int)
    ensures Validate(values, labels, nGroups, stats, weights, unassigned).Ok? <==>
      && |values| == |labels|
      && Unknown !in stats
      && (forall x :: x in labels && x != unassigned ==> 0 <= x < nGroups)
      && (weights.Some? ==> |weights.value| == |values|)
  {
    forall x
      ensures x in Assigned(labels, unassigned) <==> x in labels && x != unassigned
    {
      AssignedIn(labels, unassigned, x);
    }
  }

  /** A refusal names the first thing wrong, and for a label outside the range the extreme assigned
      labels, one of which is the offender. */
  lemma {:induction false} RefusalNamesFault(values: seq<Cell>, labels: seq<int>, nGroups: int, stats: seq<Stat>,
                                             weights: Option<seq<real>>, unassigned: int)
    requires Validate(values, labels, nGroups, stats, weights, unassigned).Err?
    ensures match Validate(values, labels, nGroups, stats, weights, unassigned).error
      case SizeMismatch => |values| != |labels|
      case UnknownStat => |values| == |labels| && Unknown in stats
      case LabelsOutside(low, high) =>
        && |values| == |labels| && Unknown !in stats
        && low in labels && high in labels && low != unassigned && high != unassigned && (low < 0 || high >= nGroups)
        && (forall x :: x in labels && x != unassigned ==> low <= x <= high)
      case WeightsMismatch =>
        && |values| == |labels| && Unknown !in stats
        && (forall x :: x in labels && x != unassigned ==> 0 <= x < nGroups)
        && weights.Some? && |weights.value| != |values|
  {
    forall x
      ensures x in Assigned(labels, unassigned) <==> x in labels && x != unassigned
    {
      AssignedIn(labels, unassigned, x);
    }
  }

  // The cells that count

  /** The array zipped with its labels and weights; unweighted cells weigh one. */
  function Zip(values: seq<Cell>, labels: seq<int>, weights: Option<seq<real>>): (r: seq<Item>)
    requires |values| == |labels| && (weights.Some? ==> |weights.value| == |values|)
    ensures |r| == |values|
    ensures forall i :: 0 <= i < |r| ==> r[i].group in labels && (weights.None? ==> r[i].weight == 1.0)
  {
    seq(|values|, i requires 0 <= i < |values| =>
      Item(labels[i], values[i], if weights.Some? then weights.value[i] else 1.0))
  }

  /** The assigned, non-NaN cells, in order. */
  function Kept(cells: seq<Item>, unassigned: int): seq<Item> {
    if cells == [] then []
    else
      (if cells[0].group != unassigned && cells[0].value.Some? then [cells[0]] else [])
      + Kept(cells[1..], unassigned)
  }

  /** The cells of one group, in order. */
  function Group(cells: seq<Item>, g: int): seq<Item> {
    if cells == [] then []
    else (if cells[0].group == g then [cells[0]] else []) + Group(cells[1..], g)
  }

  /** Every kept cell is a number in one of the groups. */
  ghost predicate Ready(items: seq<Item>, n: nat) {
    forall i :: 0 <= i < |items| ==> 0 <= items[i].group < n && items[i].value.Some?
  }

  lemma {:induction false} KeptReady(cells: seq<Item>, unassigned: int, n: nat)
    requires forall i :: 0 <= i < |cells| && cells[i].group != unassigned ==> 0 <= cells[i].group < n
    ensures Ready(Kept(cells, unassigned), n)
  {
    if cells != [] {
      KeptReady(cells[1..], unassigned, n);
    }
  }

  /** A group's kept cells are its cells without the NaN ones: no statistic sees the difference. */
  lemma {:induction false} KeptGroup(cells: seq<Item>, unassigned: int, g: int, m: real)
    requires g != unassigned
    ensures var kept, all := Group(Kept(cells, unassigned), g), Group(cells, g);
      && Total(kept) == Total(all)
      && WeightedSum(kept) == WeightedSum(all)
      && Deviation(kept, m) == Deviation(all, m)
      && (kept != [] <==> Anything(all))
  {
    if cells != [] {
      KeptGroup(cells[1..], unassigned, g, m);
      GroupFirst(cells, g);
      KeptFirst(cells, unassigned);
      if cells[0].group == g {
        AnythingFirst(cells[0], Group(cells[1..], g));
      }
      if Kept(cells, unassigned) != Kept(cells[1..], unassigned) {
        GroupFirst(Kept(cells, unassigned), g);
      }
    }
  }

  lemma {:induction false} KeptFirst(cells: seq<Item>, unassigned: int)
    requires cells != []
    ensures var rest := Kept(cells[1..], unassigned);
      if cells[0].group != unassigned && cells[0].value.Some? then
        Kept(cells, unassigned) == [cells[0]] + rest && Kept(cells, unassigned)[1..] == rest
      else Kept(cells, unassigned) == rest
  {}

  lemma {:induction false} AnythingFirst(x: Item, rest: seq<Item>)
    ensures Anything([x] + rest) <==> x.value.Some? || Anything(rest)
  {
    var all := [x] + rest;
    if x.value.Some? {
      assert all[0].value.Some?;
    }
    if Anything(rest) {
      var i :| 0 <= i < |rest| && rest[i].value.Some?;
      assert all[i + 1].value.Some?;
    }
  }

  // Bincounts

  function Zeros(n: nat): (r: seq<Cell>)
    ensures |r| == n && forall g :: 0 <= g < n ==> r[g] == Some(0.0)
  {
    seq(n, _ => Some(0.0))
  }

  function Add(a: Cell, b: Cell): Cell {
    if a.Some? && b.Some? then Some(a.value + b.value) else None
  }

  /** `np.bincount` with weights: each item's term added into its group's bin. */
  function Bincount(items: seq<Item>, terms: seq<Cell>, n: nat): (r: seq<Cell>)
    requires Ready(items, n) && |terms| == |items|
    ensures |r| == n
  {
    if items == [] then Zeros(n)
    else
      var r := Bincount(items[1..], terms[1..], n);
      r[items[0].group := Add(terms[0], r[items[0].group])]
  }

  function Weights(items: seq<Item>): (r: seq<Cell>)
    ensures |r| == |items|
  {
    seq(|items|, i requires 0 <= i < |items| => Some(items[i].weight))
  }

  function Ones(items: seq<Item>): (r: seq<Cell>)
    ensures |r| == |items|
  {
    seq(|items|, i requires 0 <= i < |items| => Some(1.0))
  }

  function Products(items: seq<Item>, n: nat): (r: seq<Cell>)
    requires Ready(items, n)
    ensures |r| == |items|
  {
    seq(|items|, i requires 0 <= i < |items| => Some(Times(items[i].weight, items[i].value.value)))
  }

  /** The squared deviations from each item's group mean, NaN where that is NaN. */
  function Deviations(items: seq<Item>, mean: seq<Cell>): (r: seq<Cell>)
    requires Ready(items, |mean|)
    ensures |r| == |items|
  {
    seq(|items|, i requires 0 <= i < |items| =>
      var m := mean[items[i].group];
      if m.Some? then Some(Spread(items[i].weight, items[i].value.value, m.value)) else None)
  }

  /** `np.where(wtotal != 0, x / wtotal, nan)`. */
  function Divided(xs: seq<Cell>, totals: seq<Cell>): (r: seq<Cell>)
    requires |xs| == |totals|
    ensures |r| == |xs|
  {
    seq(|xs|, g requires 0 <= g < |xs| =>
      if xs[g].Some? && totals[g].Some? && totals[g].value != 0.0
      then Some(Over(xs[g].value, totals[g].value)) else None)
  }

  function CountStat(items: seq<Item>, n: nat): (r: seq<Cell>)
    requires Ready(items, n)
    ensures |r| == n
  {
    Bincount(items, Ones(items), n)
  }

  function SumStat(items: seq<Item>, n: nat): (r: seq<Cell>)
    requires Ready(items, n)
    ensures |r| == n
  {
    Bincount(items, Products(items, n), n)
  }

  function MeanStat(items: seq<Item>, n: nat): (r: seq<Cell>)
    requires Ready(items, n)
    ensures |r| == n
  {
    Divided(SumStat(items, n), Bincount(items, Weights(items), n))
  }

  function VarStat(items: seq<Item>, n: nat): (r: seq<Cell>)
    requires Ready(items, n)
    ensures |r| == n
  {
    Divided(Bincount(items, Deviations(items, MeanStat(items, n)), n), Bincount(items, Weights(items), n))
  }

  lemma {:induction false} ReadyTail(items: seq<Item>, n: nat)
    requires Ready(items, n) && items != []
    ensures Ready(items[1..], n) && 0 <= items[0].group < n && items[0].value.Some?
  {}

  lemma {:induction false} WeightBins(items: seq<Item>, n: nat, g: nat)
    requires Ready(items, n) && g < n
    ensures Bincount(items, Weights(items), n)[g] == Some(Total(Group(items, g)))
  {
    if items != [] {
      ReadyTail(items, n);
      assert Weights(items)[1..] == Weights(items[1..]);
      WeightBins(items[1..], n, g);
      GroupFirst(items, g);
    }
  }

  lemma {:induction false} GroupFirst(items: seq<Item>, g: int)
    requires items != []
    ensures var rest := Group(items[1..], g);
      Group(items, g) == if items[0].group == g then [items[0]] + rest else rest
    ensures items[0].group == g ==> Group(items, g)[1..] == Group(items[1..], g)
  {}

  lemma {:induction false} ProductBins(items: seq<Item>, n: nat, g: nat)
    requires Ready(items, n) && g < n
    ensures Bincount(items, Products(items, n), n)[g] == Some(WeightedSum(Group(items, g)))
  {
    if items != [] {
      ReadyTail(items, n);
      assert Products(items, n)[1..] == Products(items[1..], n);
      ProductBins(items[1..], n, g);
      GroupFirst(items, g);
    }
  }

  lemma {:induction false} OneBins(items: seq<Item>, n: nat, g: nat)
    requires Ready(items, n) && g < n
    ensures Bincount(items, Ones(items), n)[g] == Some(|Group(items, g)| as real)
  {
    if items != [] {
      ReadyTail(items, n);
      assert Ones(items)[1..] == Ones(items[1..]);
      OneBins(items[1..], n, g);
      GroupFirst(items, g);
      assert (1 + |Group(items[1..], g)|) as real == 1.0 + |Group(items[1..], g)| as real;
    }
  }

  lemma {:induction false} DeviationBins(items: seq<Item>, mean: seq<Cell>, g: nat)
    requires Ready(items, |mean|) && g < |mean| && mean[g].Some?
    ensures Bincount(items, Deviations(items, mean), |mean|)[g] == Some(Deviation(Group(items, g), mean[g].value))
  {
    if items != [] {
      ReadyTail(items, |mean|);
      assert Deviations(items, mean)[1..] == Deviations(items[1..], mean);
      DeviationBins(items[1..], mean, g);
      GroupFirst(items, g);
    }
  }

  // Agreement with the statistic of the group alone

  lemma {:induction false} MeanBins(items: seq<Item>, n: nat, g: nat)
    requires Ready(items, n) && g < n
    ensures var total := Total(Group(items, g));
      MeanStat(items, n)[g] == if total != 0.0 then Some(Over(WeightedSum(Group(items, g)), total)) else None
  {
    WeightBins(items, n, g);
    ProductBins(items, n, g);
  }

  lemma {:induction false} VarBins(items: seq<Item>, n: nat, g: nat)
    requires Ready(items, n) && g < n
    ensures var s := Group(items, g);
      VarStat(items, n)[g] ==
        if Total(s) != 0.0 then Some(Over(Deviation(s, Over(WeightedSum(s), Total(s))), Total(s))) else None
  {
    WeightBins(items, n, g);
    MeanBins(items, n, g);
    if Total(Group(items, g)) != 0.0 {
      DeviationBins(items, MeanStat(items, n), g);
    }
  }

  lemma {:induction false} EmptyTotal(s: seq<Item>)
    requires !Anything(s)
    ensures Total(s) == 0.0 && WeightedSum(s) == 0.0
  {
    if s != [] {
      AnythingFirst(s[0], s[1..]);
      assert s == [s[0]] + s[1..];
      EmptyTotal(s[1..]);
    }
  }

  /** For every group, the weighted mean and variance from the bincounts are those of the group's
      cells taken alone, NaN in exactly the same cases; and so is the sum, unless the group has no
      valid cell: there the bincount gives 0 and the statistic NaN. */
  lemma {:induction false} AgreesWithStatistic(cells: seq<Item>, unassigned: int, n: nat, g: nat)
    requires g < n && g != unassigned
    requires forall i :: 0 <= i < |cells| && cells[i].group != unassigned ==> 0 <= cells[i].group < n
    ensures Ready(Kept(cells, unassigned), n)
    ensures var items, alone := Kept(cells, unassigned), Group(cells, g);
      && MeanStat(items, n)[g] == Statistic(alone, Mean)
      && VarStat(items, n)[g] == Statistic(alone, Var)
      && (SumStat(items, n)[g] == Statistic(alone, Sum) <==> Anything(alone))
      && (!Anything(alone) ==> SumStat(items, n)[g] == Some(0.0))
  {
    KeptReady(cells, unassigned, n);
    var items, alone := Kept(cells, unassigned), Group(cells, g);
    var s := Group(items, g);
    KeptGroup(cells, unassigned, g, 0.0);
    MeanBins(items, n, g);
    VarBins(items, n, g);
    ProductBins(items, n, g);
    if Total(s) != 0.0 {
      KeptGroup(cells, unassigned, g, Over(WeightedSum(s), Total(s)));
    }
    if !Anything(alone) {
      EmptyTotal(alone);
    }
  }

  // Totals over all groups

  function SumAll(xs: seq<Cell>): Cell {
    if xs == [] then Some(0.0) else Add(xs[0], SumAll(xs[1..]))
  }

  lemma {:induction false} SumAllUpdate(xs: seq<Cell>, g: nat, x: real)
    requires g < |xs| && xs[g].Some? && SumAll(xs).Some?
    ensures SumAll(xs[g := Add(Some(x), xs[g])]) == Add(Some(x), SumAll(xs))
  {
    if g > 0 {
      assert xs[g := Add(Some(x), xs[g])][1..] == xs[1..][g - 1 := Add(Some(x), xs[g])];
      SumAllUpdate(xs[1..], g - 1, x);
    }
  }

  lemma {:induction false} ZerosSum(n: nat)
    ensures SumAll(Zeros(n)) == Some(0.0)
  {
    if n > 0 {
      assert Zeros(n)[1..] == Zeros(n - 1);
      ZerosSum(n - 1);
    }
  }

  /** Whatever is binned, nothing is lost: the bins add up to the terms. */
  lemma {:induction false} BinsAddUp(items: seq<Item>, terms: seq<Cell>, n: nat)
    requires Ready(items, n) && |terms| == |items| && (forall i :: 0 <= i < |terms| ==> terms[i].Some?)
    ensures SumAll(Bincount(items, terms, n)) == SumAll(terms) && SumAll(terms).Some?
    ensures forall g :: 0 <= g < n ==> Bincount(items, terms, n)[g].Some?
  {
    if items == [] {
      ZerosSum(n);
    } else {
      ReadyTail(items, n);
      BinsAddUp(items[1..], terms[1..], n);
      SumAllUpdate(Bincount(items[1..], terms[1..], n), items[0].group, terms[0].value);
    }
  }

  lemma {:induction false} OnesSum(items: seq<Item>)
    ensures SumAll(Ones(items)) == Some(|items| as real)
  {
    if items != [] {
      assert Ones(items)[1..] == Ones(items[1..]);
      OnesSum(items[1..]);
    }
  }

  lemma {:induction false} ProductsSum(items: seq<Item>, n: nat)
    requires Ready(items, n)
    ensures SumAll(Products(items, n)) == Some(WeightedSum(items))
  {
    if items != [] {
      ReadyTail(items, n);
      assert Products(items, n)[1..] == Products(items[1..], n);
      ProductsSum(items[1..], n);
    }
  }

  /** The groups' counts and sums add up to the count and the weighted sum of all kept cells. */
  lemma {:induction false} GroupsAddUp(items: seq<Item>, n: nat)
    requires Ready(items, n)
    ensures SumAll(CountStat(items, n)) == Some(|items| as real)
    ensures SumAll(SumStat(items, n)) == Some(WeightedSum(items))
  {
    BinsAddUp(items, Ones(items), n);
    BinsAddUp(items, Products(items, n), n);
    OnesSum(items);
    ProductsSum(items, n);
  }
}
