/** Gap filling by carrying the nearest valid cell, as an index scan along one axis. */
module Pushed {
  import opened Wrappers

  /** How many consecutive gaps a cell may fill; `None` for no limit. */
  type Limit = Option<int>

  function Max(a: int, b: int): int {
    if a >= b then a else b
  }

  function Clip(x: int, lo: int, hi: int): int {
    if x < lo then lo else if x > hi then hi else x
  }

  function Flip<T>(xs: seq<T>): (r: seq<T>)
    ensures |r| == |xs| && forall i :: 0 <= i < |xs| ==> r[i] == xs[|xs| - 1 - i]
  {
    seq(|xs|, i requires 0 <= i < |xs| => xs[|xs| - 1 - i])
  }

  /** Each valid cell's own position, -1 at a gap. */
  function Positions(xs: seq<Cell>): (r: seq<int>)
    ensures |r| == |xs|
  {
    seq(|xs|, i requires 0 <= i < |xs| => if xs[i].Some? then i else -1)
  }

  /** `np.maximum.accumulate`. */
  function RunningMax(s: seq<int>): (r: seq<int>)
    ensures |r| == |s|
  {
    if |s| <= 1 then s
    else
      var r := RunningMax(s[..|s| - 1]);
      r + [Max(r[|r| - 1], s[|s| - 1])]
  }

  predicate Within(steps: int, limit: Limit) {
    limit.Some? ==> steps <= limit.value
  }

  /** The forward pass: scan, clip, gather, mask. */
  function Forward(xs: seq<Cell>, limit: Limit): (r: seq<Cell>)
    ensures |r| == |xs|
  {
    var source := RunningMax(Positions(xs));
    seq(|xs|, i requires 0 <= i < |xs| =>
      if source[i] >= 0 && Within(i - source[i], limit) then xs[Clip(source[i], 0, |xs| - 1)] else None)
  }

  function Pushed(xs: seq<Cell>, limit: Limit, backward: bool): (r: seq<Cell>)
    ensures |r| == |xs|
  {
    if backward then Flip(Forward(Flip(xs), limit)) else Forward(xs, limit)
  }

  // The scan

  /** The position of the last valid cell at or before `i`, -1 when there is none. */
  function LastValid(xs: seq<Cell>, i: nat): (j: int)
    requires i < |xs|
    ensures -1 <= j <= i
    ensures j >= 0 ==> xs[j].Some?
    ensures forall k :: j < k <= i ==> xs[k].None?
  {
    if xs[i].Some? then i else if i == 0 then -1 else LastValid(xs, i - 1)
  }

  lemma {:induction false} RunningMaxAt(s: seq<int>, i: nat)
    requires i < |s|
    ensures RunningMax(s)[i] == RunningMax(s[..i + 1])[i]
    ensures i > 0 ==> RunningMax(s)[i] == Max(RunningMax(s)[i - 1], s[i])
    ensures i == 0 ==> RunningMax(s)[0] == s[0]
  {
    if i < |s| - 1 {
      var front := s[..|s| - 1];
      RunningMaxAt(front, i);
      assert front[..i + 1] == s[..i + 1];
    } else {
      assert s[..i + 1] == s;
    }
  }

  lemma {:induction false} ScanIsLastValid(xs: seq<Cell>, i: nat)
    requires i < |xs|
    ensures RunningMax(Positions(xs))[i] == LastValid(xs, i)
  {
    RunningMaxAt(Positions(xs), i);
    if i > 0 {
      ScanIsLastValid(xs, i - 1);
    }
  }

  lemma {:induction false} ForwardAt(xs: seq<Cell>, limit: Limit, i: nat)
    requires i < |xs|
    ensures var j := LastValid(xs, i);
      Forward(xs, limit)[i] == if j >= 0 && Within(i - j, limit) then xs[j] else None
  {
    ScanIsLastValid(xs, i);
  }

  // The carry loop

  /** One step at a time: carry the last valid value, counting how long ago it was seen. */
  function Carry(xs: seq<Cell>, last: Cell, age: nat, limit: Limit): (r: seq<Cell>)
    ensures |r| == |xs|
  {
    if xs == [] then []
    else if xs[0].Some? then
      [if Within(0, limit) then xs[0] else None] + Carry(xs[1..], xs[0], 0, limit)
    else
      [if last.Some? && Within(age + 1, limit) then last else None] + Carry(xs[1..], last, age + 1, limit)
  }

  lemma {:induction false} CarryAt(xs: seq<Cell>, last: Cell, age: nat, limit: Limit, i: nat)
    requires i < |xs|
    ensures var j := LastValid(xs, i);
      Carry(xs, last, age, limit)[i] ==
        if j >= 0 then (if Within(i - j, limit) then xs[j] else None)
        else (if last.Some? && Within(age + 1 + i, limit) then last else None)
  {
    if i > 0 {
      var rest := xs[1..];
      LastValidTail(xs, i);
      if xs[0].Some? {
        CarryAt(rest, xs[0], 0, limit, i - 1);
      } else {
        CarryAt(rest, last, age + 1, limit, i - 1);
      }
    }
  }

  lemma {:induction false} LastValidTail(xs: seq<Cell>, i: nat)
    requires 0 < i < |xs|
    ensures var j := LastValid(xs[1..], i - 1);
      LastValid(xs, i) == if j >= 0 then j + 1 else if xs[0].Some? then 0 else -1
  {}

  /** The vectorised fill is the step-by-step carry. */
  lemma {:induction false} ForwardIsCarry(xs: seq<Cell>, limit: Limit)
    ensures Pushed(xs, limit, false) == Carry(xs, None, 0, limit)
  {
    forall i | 0 <= i < |xs|
      ensures Forward(xs, limit)[i] == Carry(xs, None, 0, limit)[i]
    {
      ForwardAt(xs, limit, i);
      CarryAt(xs, None, 0, limit, i);
    }
  }

  // Both directions, cell by cell

  /** `j` is the valid cell nearest to `i` on the side the fill comes from. */
  ghost predicate Nearest(xs: seq<Cell>, i: int, j: int, backward: bool) {
    && 0 <= i < |xs| && 0 <= j < |xs| && xs[j].Some?
    && (if backward then i <= j && (forall k :: i <= k < j ==> xs[k].None?)
        else j <= i && (forall k :: j < k <= i ==> xs[k].None?))
  }

  /** A cell is filled exactly when its nearest valid cell on that side is within the limit, and
      then with that cell's value; every other cell is a gap. */
  lemma {:induction false} PushedCell(xs: seq<Cell>, limit: Limit, backward: bool, i: nat)
    requires i < |xs|
    ensures forall j :: Nearest(xs, i, j, backward) ==>
      Pushed(xs, limit, backward)[i] ==
        if limit.None? || (i - j <= limit.value && j - i <= limit.value) then xs[j] else None
    ensures (forall j :: !Nearest(xs, i, j, backward)) ==> Pushed(xs, limit, backward)[i] == None
  {
    if backward {
      var ys, m := Flip(xs), |xs| - 1 - i;
      ForwardAt(ys, limit, m);
      var s := LastValid(ys, m);
      if s >= 0 {
        assert ys[s] == xs[|xs| - 1 - s];
        forall k | i <= k < |xs| - 1 - s
          ensures xs[k].None?
        {
          assert ys[|xs| - 1 - k] == xs[k];
        }
        assert Nearest(xs, i, |xs| - 1 - s, true);
      } else {
        forall k | i <= k < |xs|
          ensures xs[k].None?
        {
          assert ys[|xs| - 1 - k] == xs[k];
        }
      }
    } else {
      ForwardAt(xs, limit, i);
      var s := LastValid(xs, i);
      if s >= 0 {
        assert Nearest(xs, i, s, false);
      }
    }
  }

  // Two passes make one

  /** How limits add up: no limit absorbs any other. */
  function Plus(a: Limit, b: Limit): Limit {
    if a.None? || b.None? then None else Some(a.value + b.value)
  }

  predicate Counts(limit: Limit) {
    limit.Some? ==> limit.value >= 0
  }

  /** After a pass, the last valid cell is where the limit stopped it. */
  lemma {:induction false} AfterForward(xs: seq<Cell>, a: Limit, i: nat)
    requires i < |xs| && Counts(a)
    ensures var s, t := LastValid(xs, i), LastValid(Forward(xs, a), i);
      && (s < 0 ==> t < 0)
      && (s >= 0 ==> t == (if Within(i - s, a) then i else s + a.value) && Forward(xs, a)[t] == xs[s])
  {
    ForwardAt(xs, a, i);
    if i > 0 {
      AfterForward(xs, a, i - 1);
    }
  }

  lemma {:induction false} ForwardTwice(xs: seq<Cell>, a: Limit, b: Limit)
    requires Counts(a) && Counts(b)
    ensures Forward(Forward(xs, a), b) == Forward(xs, Plus(a, b))
  {
    forall i | 0 <= i < |xs|
      ensures Forward(Forward(xs, a), b)[i] == Forward(xs, Plus(a, b))[i]
    {
      ForwardAt(Forward(xs, a), b, i);
      ForwardAt(xs, Plus(a, b), i);
      AfterForward(xs, a, i);
    }
  }

  /** Pushing with one limit and then another, either way along the axis, is pushing once with the
      sum; with no limit a second pass changes nothing. */
  lemma {:induction false} PushedTwice(xs: seq<Cell>, a: Limit, b: Limit, backward: bool)
    requires Counts(a) && Counts(b)
    ensures Pushed(Pushed(xs, a, backward), b, backward) == Pushed(xs, Plus(a, b), backward)
  {
    if backward {
      var once := Forward(Flip(xs), a);
      assert Flip(Flip(once)) == once;
      ForwardTwice(Flip(xs), a, b);
    } else {
      ForwardTwice(xs, a, b);
    }
  }
}
