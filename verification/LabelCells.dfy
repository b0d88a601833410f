/** The answers of a label reduction told from the arrays the caller passes: which indices belong to a
    group, and what is computed from them. */
module LabelCells {
  import opened Reals
  import opened Wrappers
  import opened WeightedStats
  import opened LabelReduce

  /** The arrays of one call. */
  datatype Arrays = Arrays(values: seq<Cell>, labels: seq<int>, weights: Option<seq<real>>, unassigned: int) {
    predicate Sized() {
      |labels| == |values| && (weights.Some? ==> |weights.value| == |values|)
    }

    /** Index `i` holds a number of group `g`. */
    predicate Belongs(i: nat, g: int)
      requires Sized()
    {
      i < |values| && values[i].Some? && labels[i] == g && labels[i] != unassigned
    }

    function Weight(i: nat): real
      requires Sized() && i < |values|
    {
      if weights.Some? then weights.value[i] else 1.0
    }

    // The sums over the indices of a group from `from` on

    function CountFrom(g: int, from: nat): nat
      requires Sized() && from <= |values|
      decreases |values| - from
    {
      if from == |values| then 0 else (if Belongs(from, g) then 1 else 0) + CountFrom(g, from + 1)
    }

    /** Σ w */
    function WeightFrom(g: int, from: nat): real
      requires Sized() && from <= |values|
      decreases |values| - from
    {
      if from == |values| then 0.0
      else (if Belongs(from, g) then Weight(from) else 0.0) + WeightFrom(g, from + 1)
    }

    /** Σ wx */
    function SumFrom(g: int, from: nat): real
      requires Sized() && from <= |values|
      decreases |values| - from
    {
      if from == |values| then 0.0
      else (if Belongs(from, g) then Weight(from) * values[from].value else 0.0) + SumFrom(g, from + 1)
    }

    /** Σ w(x - m)² */
    function SquaresFrom(g: int, from: nat, m: real): real
      requires Sized() && from <= |values|
      decreases |values| - from
    {
      if from == |values| then 0.0
      else (if Belongs(from, g) then Weight(from) * ((values[from].value - m) * (values[from].value - m)) else 0.0)
           + SquaresFrom(g, from + 1, m)
    }

    /** The weighted mean of a group, when its weights add up to something. */
    function Mean(g: int): Cell
      requires Sized()
    {
      var total := WeightFrom(g, 0);
      if total == 0.0 then None else Some(SumFrom(g, 0) / total)
    }

    /** The weighted mean of the squared distances from that mean. */
    function Variance(g: int): Cell
      requires Sized()
    {
      var total := WeightFrom(g, 0);
      if total == 0.0 then None else Some(SquaresFrom(g, 0, SumFrom(g, 0) / total) / total)
    }

    /** NaN without a number in the group, else one of its numbers and no greater than any. */
    ghost predicate IsMin(g: int, x: Cell)
      requires Sized()
    {
      if x.None? then forall i: nat :: !Belongs(i, g)
      else
        && (exists i: nat :: Belongs(i, g) && values[i] == x)
        && forall i: nat :: Belongs(i, g) ==> x.value <= values[i].value
    }

    ghost predicate IsMax(g: int, x: Cell)
      requires Sized()
    {
      if x.None? then forall i: nat :: !Belongs(i, g)
      else
        && (exists i: nat :: Belongs(i, g) && values[i] == x)
        && forall i: nat :: Belongs(i, g) ==> values[i].value <= x.value
    }

    /** `x` is what `stat` promises of group `g`. */
    ghost predicate Tells(g: int, stat: Stat, root: real -> real, x: Cell)
      requires Sized()
    {
      match stat
      case CountOf => x == Some(CountFrom(g, 0) as real)
      case SumOf => x == Some(SumFrom(g, 0))
      case MeanOf => x == Mean(g)
      case VarOf => x == Variance(g)
      case StdOf => x == (if Variance(g).Some? then Some(root(Variance(g).value)) else None)
      case MinOf => IsMin(g, x)
      case MaxOf => IsMax(g, x)
      case Unknown => false
    }

    function Cells(): (r: seq<Item>)
      requires Sized()
      ensures |r| == |values|
    {
      Zip(values, labels, weights)
    }

    /** The items of a group from `from` on. */
    function Members(g: int, from: nat): seq<Item>
      requires Sized() && from <= |values|
    {
      Group(Kept(Cells()[from..], unassigned), g)
    }
  }

  lemma {:induction false} MembersStep(a: Arrays, g: int, from: nat)
    requires a.Sized() && from < |a.values|
    ensures var x, rest := a.Cells()[from], a.Members(g, from + 1);
      && x == Item(a.labels[from], a.values[from], a.Weight(from))
      && a.Members(g, from) == (if a.Belongs(from, g) then [x] + rest else rest)
  {
    var cells := a.Cells()[from..];
    assert cells[1..] == a.Cells()[from + 1..];
    KeptFirst(cells, a.unassigned);
    if Kept(cells, a.unassigned) != Kept(cells[1..], a.unassigned) {
      GroupFirst(Kept(cells, a.unassigned), g);
    }
  }

  lemma {:induction false} MembersDone(a: Arrays, g: int)
    requires a.Sized()
    ensures a.Members(g, |a.values|) == [] && a.Members(g, 0) == Group(Kept(a.Cells(), a.unassigned), g)
  {
    assert a.Cells()[|a.values|..] == [];
    assert a.Cells()[0..] == a.Cells();
  }

  lemma {:induction false} CountedFrom(a: Arrays, g: int, from: nat)
    requires a.Sized() && from <= |a.values|
    ensures var s := a.Members(g, from);
      && |s| == a.CountFrom(g, from)
      && Total(s) == a.WeightFrom(g, from)
      && (forall i :: 0 <= i < |s| ==> s[i].value.Some?)
    decreases |a.values| - from
  {
    if from == |a.values| {
      MembersDone(a, g);
    } else {
      CountedFrom(a, g, from + 1);
      MembersStep(a, g, from);
      var s, rest := a.Members(g, from), a.Members(g, from + 1);
      if a.Belongs(from, g) {
        assert s[1..] == rest;
      }
    }
  }

  lemma {:induction false} SummedFrom(a: Arrays, g: int, from: nat)
    requires a.Sized() && from <= |a.values|
    ensures WeightedSum(a.Members(g, from)) == a.SumFrom(g, from)
    decreases |a.values| - from
  {
    if from == |a.values| {
      MembersDone(a, g);
    } else {
      SummedFrom(a, g, from + 1);
      MembersStep(a, g, from);
      var s, rest := a.Members(g, from), a.Members(g, from + 1);
      if a.Belongs(from, g) {
        assert s[1..] == rest;
      }
    }
  }

  lemma {:induction false} SquaredFrom(a: Arrays, g: int, from: nat, m: real)
    requires a.Sized() && from <= |a.values|
    ensures Deviation(a.Members(g, from), m) == a.SquaresFrom(g, from, m)
    decreases |a.values| - from
  {
    if from == |a.values| {
      MembersDone(a, g);
    } else {
      SquaredFrom(a, g, from + 1, m);
      MembersStep(a, g, from);
      var s, rest := a.Members(g, from), a.Members(g, from + 1);
      if a.Belongs(from, g) {
        assert s[1..] == rest;
      }
    }
  }

  /** The sums over a group's items are the sums over its indices. */
  lemma {:induction false} SumsFrom(a: Arrays, g: int, m: real)
    requires a.Sized()
    ensures var s := Group(Kept(a.Cells(), a.unassigned), g);
      && |s| == a.CountFrom(g, 0)
      && Total(s) == a.WeightFrom(g, 0)
      && WeightedSum(s) == a.SumFrom(g, 0)
      && Deviation(s, m) == a.SquaresFrom(g, 0, m)
      && (forall i :: 0 <= i < |s| ==> s[i].value.Some?)
  {
    MembersDone(a, g);
    CountedFrom(a, g, 0);
    SummedFrom(a, g, 0);
    SquaredFrom(a, g, 0, m);
  }

  lemma {:induction false} MemberIndex(a: Arrays, g: int, from: nat, j: nat) returns (i: nat)
    requires a.Sized() && from <= |a.values| && j < |a.Members(g, from)|
    ensures a.Belongs(i, g) && a.values[i] == a.Members(g, from)[j].value
    decreases |a.values| - from
  {
    if from == |a.values| {
      MembersDone(a, g);
      assert false;
    } else {
      MembersStep(a, g, from);
      if a.Belongs(from, g) && j == 0 {
        i := from;
      } else {
        i := MemberIndex(a, g, from + 1, if a.Belongs(from, g) then j - 1 else j);
      }
    }
  }

  lemma {:induction false} IndexMember(a: Arrays, g: int, from: nat, i: nat) returns (j: nat)
    requires a.Sized() && from <= i && a.Belongs(i, g)
    ensures j < |a.Members(g, from)| && a.Members(g, from)[j].value == a.values[i]
    decreases i - from
  {
    MembersStep(a, g, from);
    if from == i {
      j := 0;
    } else {
      j := IndexMember(a, g, from + 1, i);
      j := if a.Belongs(from, g) then j + 1 else j;
    }
  }
}
