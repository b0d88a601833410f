/** No-data sentinels of integer bands: which ones a dtype can store, whether the data holds one, and
    the search for one that it does not. */
module NoData {
  import opened Bounds
  import opened Wrappers

  const DEFAULT_NO_DATA_VALUE := -9999
  const TWO_63 := 0x8000_0000_0000_0000
  const TWO_64 := 0x1_0000_0000_0000_0000

  datatype Dtype = Int8 | Int16 | Int32 | Int64 | UInt8 | UInt16 | UInt32 | UInt64 {
    function Low(): int {
      match this
      case Int8 => -0x80
      case Int16 => -0x8000
      case Int32 => -0x8000_0000
      case Int64 => -TWO_63
      case _ => 0
    }

    function High(): int {
      match this
      case Int8 => 0x7F
      case Int16 => 0x7FFF
      case Int32 => 0x7FFF_FFFF
      case Int64 => TWO_63 - 1
      case UInt8 => 0xFF
      case UInt16 => 0xFFFF
      case UInt32 => 0xFFFF_FFFF
      case UInt64 => TWO_64 - 1
    }

    predicate Holds(n: int) {
      Low() <= n <= High()
    }

    predicate Narrow() {
      this in {Int8, Int16, UInt8, UInt16}
    }

    /** The extreme tried first: the minimum of a signed dtype, the maximum of an unsigned one. */
    function Preferred(): int {
      if Low() < 0 then Low() else High()
    }

    function Opposite(): int {
      if Low() < 0 then High() else Low()
    }
  }

  /** A candidate as it was spelled: nothing, a bool, NaN, a fraction, an int, or a whole float. */
  datatype Sentinel = Missing | Flag(flag: bool) | NotANumber | Fraction(part: real) | Int(n: int) | WholeFloat(n: int)

  ghost predicate Within(values: seq<int>, d: Dtype) {
    forall i :: 0 <= i < |values| ==> d.Holds(values[i])
  }

  // Comparing the data with a sentinel

  /** The sentinel as an exact integer, when it names one. */
  function IntegralValue(s: Sentinel): Option<int> {
    match s
    case Flag(flag) => Some(if flag then 1 else 0)
    case Int(n) => Some(n)
    case WholeFloat(n) => Some(n)
    case _ => None
  }

  /** Whether an integer `dtype` can store the sentinel as itself. */
  predicate FitsDtype(s: Sentinel, d: Dtype) {
    (s.Int? || s.WholeFloat?) && d.Holds(s.n)
  }

  /** The cells of an integer band equal to the sentinel; none when the dtype cannot hold it. */
  function IsStoredNoData(values: seq<int>, d: Dtype, s: Sentinel): (mask: seq<bool>)
    ensures |mask| == |values|
  {
    var exact := IntegralValue(s);
    if exact.Some? && d.Holds(exact.value) then seq(|values|, i requires 0 <= i < |values| => values[i] == exact.value)
    else seq(|values|, _ => false)
  }

  /** The mask of any sentinel on any band of the dtype: a number marks the cells equal to it, a flag
      counts as 1 or 0, and a sentinel that is missing, NaN, a fraction or outside the dtype marks
      nothing. */
  lemma {:induction false} MaskExactly(values: seq<int>, d: Dtype, s: Sentinel, i: nat)
    requires Within(values, d) && i < |values|
    ensures IsStoredNoData(values, d, s)[i] <==>
      || ((s.Int? || s.WholeFloat?) && values[i] == s.n)
      || (s == Flag(true) && values[i] == 1)
      || (s == Flag(false) && values[i] == 0)
    ensures s.Missing? || s.NotANumber? || s.Fraction? || ((s.Int? || s.WholeFloat?) && !d.Holds(s.n)) ==>
      !IsStoredNoData(values, d, s)[i]
  {
    assert d.Holds(values[i]);
  }

  /** A dtype of `b` bytes holds 256^b integers: from 0 up when unsigned, and as many below 0 as from 0
      up when signed. */
  lemma {:induction false} DtypeRange(d: Dtype, n: int)
    ensures d.High() - d.Low() + 1 == Codes(Bytes(d))
    ensures d in {UInt8, UInt16, UInt32, UInt64} ==> d.Low() == 0
    ensures d in {Int8, Int16, Int32, Int64} ==> (d.Holds(n) <==> d.Holds(-1 - n))
    ensures d.Narrow() <==> Bytes(d) <= 2
  {
    assert Codes(2) == 0x1_0000 && Codes(4) == 0x1_0000_0000 && Codes(8) == TWO_64;
  }

  function Bytes(d: Dtype): nat {
    match d
    case Int8 => 1
    case Int16 => 2
    case Int32 => 4
    case Int64 => 8
    case UInt8 => 1
    case UInt16 => 2
    case UInt32 => 4
    case UInt64 => 8
  }

  function Codes(bytes: nat): nat {
    if bytes == 0 then 1 else 0x100 * Codes(bytes - 1)
  }

  /** A sentinel fits a dtype exactly when it is a number, not a flag, and marks some storable cell. */
  lemma {:induction false} FitsExactly(s: Sentinel, d: Dtype)
    ensures FitsDtype(s, d) <==> !s.Flag? && exists n :: d.Holds(n) && IsStoredNoData([n], d, s) == [true]
  {
    if FitsDtype(s, d) {
      assert IsStoredNoData([s.n], d, s)[0];
    } else {
      forall n | d.Holds(n) && !s.Flag?
        ensures IsStoredNoData([n], d, s) != [true]
      {
        assert !IsStoredNoData([n], d, s)[0];
      }
    }
  }

  /** Whether a cell reads back as the candidate: a test of the bounds, then of the cells. */
  predicate OccursIn(values: seq<int>, d: Dtype, s: Sentinel)
    requires s.Int? || s.WholeFloat?
  {
    values != [] && Lowest(values) <= s.n <= Highest(values) && true in IsStoredNoData(values, d, s)
  }

  /** The bounds test never hides a collision. */
  lemma {:induction false} OccursExactly(values: seq<int>, d: Dtype, s: Sentinel)
    requires Within(values, d) && (s.Int? || s.WholeFloat?)
    ensures OccursIn(values, d, s) <==> s.n in values
  {
    var mask := IsStoredNoData(values, d, s);
    if s.n in values {
      var i :| 0 <= i < |values| && values[i] == s.n;
      assert mask[i];
    }
  }

  function Stamp(values: seq<int>, gaps: seq<bool>, n: int): (r: seq<int>)
    requires |gaps| == |values|
    ensures |r| == |values|
  {
    seq(|values|, i requires 0 <= i < |values| => if gaps[i] then n else values[i])
  }

  /** Stamping a storable sentinel into the gaps and masking with it gives the gaps back, exactly
      when no cell that stays holds the sentinel. */
  lemma {:induction false} MaskRecoversGaps(values: seq<int>, gaps: seq<bool>, d: Dtype, s: Sentinel)
    requires |gaps| == |values| && FitsDtype(s, d)
    ensures IsStoredNoData(Stamp(values, gaps, s.n), d, s) == gaps
       <==> (forall i :: 0 <= i < |values| && !gaps[i] ==> values[i] != s.n)
  {}

  // The candidates, in order

  function Extremes(d: Dtype): seq<Sentinel> {
    [Int(d.Preferred()), Int(d.Opposite())]
  }

  function Offered(d: Dtype, candidates: seq<Sentinel>): seq<Sentinel> {
    candidates + [Int(DEFAULT_NO_DATA_VALUE)] + Extremes(d)
  }

  /** The sentinels to try, each stored value once, as it was first spelled. */
  method NoDataCandidates(d: Dtype, candidates: seq<Sentinel>) returns (r: seq<Sentinel>)
    ensures Firsts(Offered(d, candidates), d, r)
  {
    var offered := Offered(d, candidates);
    var seen: set<int> := {};
    r := [];
    for i := 0 to |offered|
      invariant forall n :: n in seen <==> Tried(r, n)
      invariant Firsts(offered[..i], d, r)
    {
      var value := offered[i];
      FirstsExtend(offered[..i], value, d, r);
      assert offered[..i + 1] == offered[..i] + [value];
      if FitsDtype(value, d) && value.n !in seen {
        TriedExtend(r, value);
        seen := seen + {value.n};
        r := r + [value];
      }
    }
    assert offered[..|offered|] == offered;
  }

  lemma {:induction false} TriedExtend(r: seq<Sentinel>, s: Sentinel)
    requires s.Int? || s.WholeFloat?
    ensures forall n :: Tried(r + [s], n) <==> Tried(r, n) || n == s.n
  {
    forall n
      ensures Tried(r + [s], n) <==> Tried(r, n) || n == s.n
    {
      if Tried(r, n) {
        var j :| 0 <= j < |r| && (r[j].Int? || r[j].WholeFloat?) && r[j].n == n;
        assert (r + [s])[j] == r[j];
      }
      assert (r + [s])[|r|] == s;
    }
  }

  /** The candidates all fit, and no two of them are stored alike. */
  lemma {:induction false} FirstsFit(offered: seq<Sentinel>, d: Dtype, r: seq<Sentinel>, k: nat)
    requires Firsts(offered, d, r) && k < |r|
    ensures FitsDtype(r[k], d) && !Tried(r[..k], r[k].n)
    decreases |offered|
  {
    var last, before := offered[|offered| - 1], offered[..|offered| - 1];
    if !(FitsDtype(last, d) && !Stored(before, d, last.n)) {
      FirstsFit(before, d, r, k);
    } else if k < |r| - 1 {
      FirstsFit(before, d, r[..|r| - 1], k);
      assert r[..|r| - 1][..k] == r[..k];
    } else {
      StoredIsTried(before, d, r[..k], last.n);
    }
  }

  /** `r` holds each storable offer whose stored value no earlier offer had, in the order offered. */
  ghost predicate Firsts(offered: seq<Sentinel>, d: Dtype, r: seq<Sentinel>)
    decreases |offered|
  {
    if offered == [] then r == []
    else
      var last, before := offered[|offered| - 1], offered[..|offered| - 1];
      if FitsDtype(last, d) && !Stored(before, d, last.n) then
        r != [] && r[|r| - 1] == last && Firsts(before, d, r[..|r| - 1])
      else Firsts(before, d, r)
  }

  /** Some storable offer has this stored value. */
  ghost predicate Stored(offered: seq<Sentinel>, d: Dtype, n: int) {
    exists i :: 0 <= i < |offered| && FitsDtype(offered[i], d) && offered[i].n == n
  }

  ghost predicate Tried(r: seq<Sentinel>, n: int) {
    exists j :: 0 <= j < |r| && (r[j].Int? || r[j].WholeFloat?) && r[j].n == n
  }

  lemma {:induction false} StoredIsTried(offered: seq<Sentinel>, d: Dtype, r: seq<Sentinel>, n: int)
    requires Firsts(offered, d, r)
    ensures Stored(offered, d, n) <==> Tried(r, n)
    decreases |offered|
  {
    if offered != [] {
      var last, before := offered[|offered| - 1], offered[..|offered| - 1];
      if FitsDtype(last, d) && !Stored(before, d, last.n) {
        StoredIsTried(before, d, r[..|r| - 1], n);
        assert r == r[..|r| - 1] + [last];
        if Tried(r[..|r| - 1], n) {
          var j :| 0 <= j < |r| - 1 && (r[j].Int? || r[j].WholeFloat?) && r[j].n == n;
          assert r[j].n == n;
        }
      } else {
        StoredIsTried(before, d, r, n);
      }
      if Stored(before, d, n) {
        var i :| 0 <= i < |before| && FitsDtype(before[i], d) && before[i].n == n;
        assert offered[i] == before[i];
      }
    }
  }

  lemma {:induction false} FirstsExtend(offered: seq<Sentinel>, value: Sentinel, d: Dtype, r: seq<Sentinel>)
    requires Firsts(offered, d, r)
    ensures FitsDtype(value, d) && !Tried(r, value.n) ==> Firsts(offered + [value], d, r + [value])
    ensures !FitsDtype(value, d) || Tried(r, value.n) ==> Firsts(offered + [value], d, r)
  {
    assert (offered + [value])[..|offered|] == offered && (r + [value])[..|r|] == r;
    if FitsDtype(value, d) {
      StoredIsTried(offered, d, r, value.n);
    }
  }

  // Surveying a narrow range

  /** The cast to a signed 64-bit integer, and its wrapping arithmetic. */
  function Wrap(x: int): int {
    if x >= TWO_63 then x - TWO_64 else x
  }

  /** Where a cell lands in the mask. */
  function Slot(x: int, floor: int): int {
    Wrap(Wrap(x) - floor)
  }

  ghost predicate Marks(values: seq<int>, floor: int, j: int) {
    exists i :: 0 <= i < |values| && Slot(values[i], floor) == j
  }

  /** The mask of the slots the data lands in, filled a slice at a time. */
  method ValuesPresentInRange(values: seq<int>, floor: int, span: nat, chunk: nat) returns (seen: array<bool>)
    requires chunk > 0
    ensures fresh(seen) && seen.Length == span
    ensures forall j :: 0 <= j < span ==> (seen[j] <==> Marks(values, floor, j))
  {
    seen := new bool[span](_ => false);
    var start := 0;
    while start < |values|
      invariant 0 <= start
      invariant forall j :: 0 <= j < span ==>
        (seen[j] <==> Marks(values[..if start < |values| then start else |values|], floor, j))
    {
      var stop := if start + chunk < |values| then start + chunk else |values|;
      for i := start to stop
        invariant forall j :: 0 <= j < span ==> (seen[j] <==> Marks(values[..i], floor, j))
      {
        var present := Slot(values[i], floor);
        ghost var before := seen[..];
        if 0 <= present < span {
          seen[present] := true;
        }
        forall j | 0 <= j < span
          ensures seen[j] <==> Marks(values[..i + 1], floor, j)
        {
          MarksNext(values, i, floor, j);
          assert before[j] <==> Marks(values[..i], floor, j);
        }
      }
      start := start + chunk;
    }
    assert values[..|values|] == values;
  }

  lemma {:induction false} MarksNext(values: seq<int>, i: nat, floor: int, j: int)
    requires i < |values|
    ensures Marks(values[..i + 1], floor, j) <==> Marks(values[..i], floor, j) || Slot(values[i], floor) == j
  {}

  /** `np.flatnonzero` of the mask's complement, from position `at` on. */
  function Unused(seen: seq<bool>, at: nat): (r: seq<nat>)
    requires at <= |seen|
    decreases |seen| - at
  {
    if at == |seen| then [] else (if seen[at] then [] else [at]) + Unused(seen, at + 1)
  }

  ghost predicate AllSeen(seen: seq<bool>, from: int, to: int) {
    forall j :: 0 <= j < |seen| && from <= j < to ==> seen[j]
  }

  lemma {:induction false} UnusedFirst(seen: seq<bool>, at: nat)
    requires at <= |seen|
    ensures Unused(seen, at) == [] ==> AllSeen(seen, at, |seen|)
    ensures Unused(seen, at) != [] ==>
      at <= Unused(seen, at)[0] < |seen| && !seen[Unused(seen, at)[0]] && AllSeen(seen, at, Unused(seen, at)[0])
    decreases |seen| - at
  {
    if at < |seen| {
      var rest := Unused(seen, at + 1);
      UnusedFirst(seen, at + 1);
      if seen[at] {
        assert Unused(seen, at) == rest;
      } else {
        assert Unused(seen, at)[0] == at;
      }
    }
  }

  lemma {:induction false} UnusedLast(seen: seq<bool>, at: nat)
    requires at <= |seen| && Unused(seen, at) != []
    ensures var last := Unused(seen, at)[|Unused(seen, at)| - 1];
      at <= last < |seen| && !seen[last] && AllSeen(seen, last + 1, |seen|)
    decreases |seen| - at
  {
    var rest := Unused(seen, at + 1);
    UnusedFirst(seen, at + 1);
    if rest != [] {
      UnusedLast(seen, at + 1);
      assert Unused(seen, at)[|Unused(seen, at)| - 1] == rest[|rest| - 1];
    }
  }

  /** The slots of the data in a dtype's range are the values it holds, unless the cells are unsigned
      64-bit ones past the signed range, which land on negative values. */
  lemma {:induction false} SlotsAreValues(values: seq<int>, held: Dtype, d: Dtype, n: int)
    requires Within(values, held) && d.Narrow() && d.Holds(n)
    ensures Marks(values, d.Low(), n - d.Low()) <==> n in values || n + TWO_64 in values
  {}

  /** Distance from the extreme the dtype prefers. */
  function Inward(d: Dtype, n: int): int {
    if d.Preferred() > d.Opposite() then d.Preferred() - n else n - d.Preferred()
  }

  ghost predicate Used(values: seq<int>, n: int) {
    n in values || n + TWO_64 in values
  }

  ghost predicate FirstUnused(d: Dtype, values: seq<int>, r: Option<int>) {
    && (r == None <==> !d.Narrow() || forall n :: d.Holds(n) ==> Used(values, n))
    && (r.Some? ==> d.Holds(r.value) && !Used(values, r.value))
    && (r.Some? ==> forall n :: d.Holds(n) && Inward(d, n) < Inward(d, r.value) ==> Used(values, n))
  }

  /** The unused value nearest the preferred extreme, when the range is small enough to survey. */
  method FirstUnusedInRange(d: Dtype, values: seq<int>, held: Dtype, chunk: nat) returns (r: Option<int>)
    requires chunk > 0 && Within(values, held)
    ensures FirstUnused(d, values, r)
  {
    var preferred, opposite := d.Preferred(), d.Opposite();
    var floor := if preferred < opposite then preferred else opposite;
    var span := (if preferred < opposite then opposite else preferred) - floor + 1;
    r := None;
    if span <= 65536 {
      var seen := ValuesPresentInRange(values, floor, span, chunk);
      var mask := seen[..];
      forall n | d.Holds(n)
        ensures mask[n - floor] <==> Used(values, n)
      {
        SlotsAreValues(values, held, d, n);
      }
      var unused := Unused(mask, 0);
      UnusedFirst(mask, 0);
      if unused != [] {
        UnusedLast(mask, 0);
        var index := if preferred > opposite then unused[|unused| - 1] else unused[0];
        r := Some(index + floor);
        assert !Used(values, r.value);
      }
      forall n | d.Holds(n) && unused == []
        ensures Used(values, n)
      {
        assert mask[n - floor];
      }
      forall n | d.Holds(n) && r.Some? && Inward(d, n) < Inward(d, r.value)
        ensures Used(values, n)
      {
        assert mask[n - floor];
      }
    }
  }

  // The search

  /** A storable offer the data does not hold. */
  ghost predicate Works(s: Sentinel, d: Dtype, values: seq<int>) {
    FitsDtype(s, d) && s.n !in values
  }

  /** What the search must answer: the first offer that works; failing all of them, in a narrow dtype
      the unused value nearest the preferred extreme; nothing when that is used up too. */
  ghost predicate IsAnswer(d: Dtype, candidates: seq<Sentinel>, values: seq<int>, r: Option<Sentinel>) {
    var offered := Offered(d, candidates);
    if exists i :: 0 <= i < |offered| && Works(offered[i], d, values) then
      exists i :: 0 <= i < |offered| && Works(offered[i], d, values) && r == Some(offered[i])
        && (forall j :: 0 <= j < i ==> !Works(offered[j], d, values))
    else if r == None then
      !d.Narrow() || forall n :: d.Holds(n) ==> n in values
    else
      && d.Narrow() && r.value.Int? && d.Holds(r.value.n) && r.value.n !in values
      && (forall n :: d.Holds(n) && Inward(d, n) < Inward(d, r.value.n) ==> n in values)
  }

  /** The first of the deduplicated candidates that works is the first offer that does. */
  lemma {:induction false} FirstTriedIsFirstOffered(offered: seq<Sentinel>, d: Dtype, r: seq<Sentinel>,
                                                    values: seq<int>, k: nat)
    requires Firsts(offered, d, r) && k < |r| && Works(r[k], d, values)
    requires forall j :: 0 <= j < k ==> !Works(r[j], d, values)
    ensures exists i :: 0 <= i < |offered| && offered[i] == r[k]
              && (forall j :: 0 <= j < i ==> !Works(offered[j], d, values))
    decreases |offered|
  {
    if offered != [] {
      var last, before := offered[|offered| - 1], offered[..|offered| - 1];
      var fresher := FitsDtype(last, d) && !Stored(before, d, last.n);
      var shorter := if fresher then r[..|r| - 1] else r;
      if k < |shorter| {
        FirstTriedIsFirstOffered(before, d, shorter, values, k);
        var i :| 0 <= i < |before| && before[i] == r[k] && (forall j :: 0 <= j < i ==> !Works(before[j], d, values));
        assert offered[i] == r[k];
      } else {
        forall j | 0 <= j < |before|
          ensures !Works(before[j], d, values)
        {
          if Works(before[j], d, values) {
            StoredIsTried(before, d, shorter, before[j].n);
          }
        }
        assert offered[|offered| - 1] == r[k];
      }
    }
  }

  lemma {:induction false} NoneTriedNoneOffered(offered: seq<Sentinel>, d: Dtype, r: seq<Sentinel>, values: seq<int>)
    requires Firsts(offered, d, r) && forall j :: 0 <= j < |r| ==> !Works(r[j], d, values)
    ensures forall i :: 0 <= i < |offered| ==> !Works(offered[i], d, values)
  {
    forall i | 0 <= i < |offered|
      ensures !Works(offered[i], d, values)
    {
      if Works(offered[i], d, values) {
        StoredIsTried(offered, d, r, offered[i].n);
      }
    }
  }

  /** Once both extremes are taken the wrapped cells are harmless: with unsigned 64-bit data the low
      extreme of a signed dtype can never be taken. */
  lemma {:induction false} UsedIsHeld(values: seq<int>, held: Dtype, d: Dtype, n: int)
    requires Within(values, held) && d.Holds(n) && d.Low() in values
    ensures Used(values, n) <==> n in values
  {}

  lemma {:induction false} AnswerByTrying(d: Dtype, candidates: seq<Sentinel>, list: seq<Sentinel>,
                                          values: seq<int>, k: nat)
    requires Firsts(Offered(d, candidates), d, list) && k < |list| && Works(list[k], d, values)
    requires forall j :: 0 <= j < k ==> !Works(list[j], d, values)
    ensures IsAnswer(d, candidates, values, Some(list[k]))
  {
    FirstTriedIsFirstOffered(Offered(d, candidates), d, list, values, k);
  }

  lemma {:induction false} ExtremesTaken(d: Dtype, candidates: seq<Sentinel>, values: seq<int>)
    requires forall i :: 0 <= i < |Offered(d, candidates)| ==> !Works(Offered(d, candidates)[i], d, values)
    ensures d.Low() in values
  {
    var offered := Offered(d, candidates);
    assert offered[|offered| - 2] == Int(d.Preferred()) && offered[|offered| - 1] == Int(d.Opposite());
  }

  lemma {:induction false} AnswerByUnused(d: Dtype, candidates: seq<Sentinel>, list: seq<Sentinel>,
                                          values: seq<int>, held: Dtype, n: Option<int>)
    requires Firsts(Offered(d, candidates), d, list) && Within(values, held) && FirstUnused(d, values, n)
    requires forall j :: 0 <= j < |list| ==> !Works(list[j], d, values)
    ensures IsAnswer(d, candidates, values, if n.Some? then Some(Int(n.value)) else None)
  {
    NoneTriedNoneOffered(Offered(d, candidates), d, list, values);
    ExtremesTaken(d, candidates, values);
    forall m | d.Holds(m)
      ensures Used(values, m) <==> m in values
    {
      UsedIsHeld(values, held, d, m);
    }
  }

  /** The first candidate that fits and does not occur, else an unused value. */
  method FreeNoData(d: Dtype, candidates: seq<Sentinel>, values: seq<int>, held: Dtype, chunk: nat)
    returns (r: Option<Sentinel>)
    requires chunk > 0 && Within(values, held)
    ensures IsAnswer(d, candidates, values, r)
  {
    r := None;
    var list := NoDataCandidates(d, candidates);
    for i := 0 to |list|
      invariant r == None
      invariant forall j :: 0 <= j < i ==> !Works(list[j], d, values)
    {
      FirstsFit(Offered(d, candidates), d, list, i);
      OccursExactly(values, held, list[i]);
      if !OccursIn(values, held, list[i]) {
        AnswerByTrying(d, candidates, list, values, i);
        return Some(list[i]);
      }
    }
    var n := FirstUnusedInRange(d, values, held, chunk);
    AnswerByUnused(d, candidates, list, values, held, n);
    if n.Some? {
      r := Some(Int(n.value));
    }
  }

  // What the answer guarantees

  /** There is one right answer: neither the slice size nor the data's dtype can change it. */
  lemma {:induction false} AnswerUnique(d: Dtype, candidates: seq<Sentinel>, values: seq<int>,
                                        r: Option<Sentinel>, s: Option<Sentinel>)
    requires IsAnswer(d, candidates, values, r) && IsAnswer(d, candidates, values, s)
    ensures r == s
  {}

  /** An answer is storable and absent from the data, so stamping it into any gaps and masking with
      it gives exactly those gaps back. */
  lemma {:induction false} AnswerMarksOnlyGaps(d: Dtype, candidates: seq<Sentinel>, values: seq<int>, s: Sentinel,
                                               gaps: seq<bool>)
    requires IsAnswer(d, candidates, values, Some(s)) && |gaps| == |values|
    ensures FitsDtype(s, d) && s.n !in values
    ensures IsStoredNoData(Stamp(values, gaps, s.n), d, s) == gaps
  {
    AnswerIsFree(d, candidates, values, s);
    MaskRecoversGaps(values, gaps, d, s);
  }

  lemma {:induction false} AnswerIsFree(d: Dtype, candidates: seq<Sentinel>, values: seq<int>, s: Sentinel)
    requires IsAnswer(d, candidates, values, Some(s))
    ensures FitsDtype(s, d) && s.n !in values
  {}

  /** In an 8- or 16-bit dtype the search fails exactly when the data uses every value there is; in a
      wider one, exactly when it holds every storable offer. */
  lemma {:induction false} AnswerNoneExactly(d: Dtype, candidates: seq<Sentinel>, values: seq<int>, r: Option<Sentinel>)
    requires IsAnswer(d, candidates, values, r)
    ensures d.Narrow() ==> (r == None <==> forall n :: d.Holds(n) ==> n in values)
    ensures !d.Narrow() ==>
      (r == None <==> forall i :: 0 <= i < |Offered(d, candidates)| ==> !Works(Offered(d, candidates)[i], d, values))
  {}

  /** Whose sentinel wins: the caller's first that works, else -9999, else the minimum of a signed dtype or
      the maximum of an unsigned one, else its other end. */
  lemma {:induction false} PreferenceOrder(d: Dtype, candidates: seq<Sentinel>, values: seq<int>, r: Option<Sentinel>)
    requires IsAnswer(d, candidates, values, r)
    ensures var (first, last) := if d.Low() < 0 then (d.Low(), d.High()) else (d.High(), d.Low());
      if exists i :: 0 <= i < |candidates| && Works(candidates[i], d, values) then
        exists i :: 0 <= i < |candidates| && Works(candidates[i], d, values) && r == Some(candidates[i])
          && forall j :: 0 <= j < i ==> !Works(candidates[j], d, values)
      else if d.Holds(-9999) && -9999 !in values then r == Some(Int(-9999))
      else if first !in values then r == Some(Int(first))
      else if last !in values then r == Some(Int(last))
      else r.Some? ==> d.Narrow()
  {
    var offered, n := Offered(d, candidates), |candidates|;
    assert forall i :: 0 <= i < n ==> offered[i] == candidates[i];
    assert offered[n] == Int(-9999) && offered[n + 1] == Int(d.Preferred()) && offered[n + 2] == Int(d.Opposite());
    assert |offered| == n + 3;
    if i :| 0 <= i < |offered| && Works(offered[i], d, values) {
      var a :| 0 <= a < |offered| && Works(offered[a], d, values) && r == Some(offered[a])
        && (forall j :: 0 <= j < a ==> !Works(offered[j], d, values));
      assert a < n || a == n || a == n + 1 || a == n + 2;
    }
  }

  /** When every offer is taken, the answer in a signed 8- or 16-bit dtype is the least value the data
      does not use, in an unsigned one the greatest. */
  lemma {:induction false} NarrowAnswer(d: Dtype, candidates: seq<Sentinel>, values: seq<int>, s: Sentinel)
    requires IsAnswer(d, candidates, values, Some(s))
    requires forall i :: 0 <= i < |Offered(d, candidates)| ==> !Works(Offered(d, candidates)[i], d, values)
    ensures s.Int? && s.n !in values && d.Low() <= s.n <= d.High()
    ensures d in {Int8, Int16, UInt8, UInt16}
    ensures d in {Int8, Int16} ==> forall n :: d.Low() <= n < s.n ==> n in values
    ensures d in {UInt8, UInt16} ==> forall n :: s.n < n <= d.High() ==> n in values
  {
    forall n | d.Holds(n) && (if d in {Int8, Int16} then n < s.n else n > s.n)
      ensures n in values
    {
      assert Inward(d, n) < Inward(d, s.n);
    }
  }
}
