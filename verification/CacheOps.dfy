/** Completed cache operations: the lock-held block, then the closes and the sweep that follow it,
    with no other thread in between.  The size promise of the cache is an invariant of these. */
module CacheOps {
  import opened Wrappers
  import opened CacheModel

  datatype Op =
    | Get(k: Key)
    | Set(k: Key, h: Handle)
    | Del(k: Key)
    | Reset
    | Hold(k: Key)
    | Unhold(k: Key)
    | Remove(k: Key)
    | Register(k: Key)
    | Finalize(k: Key)
    | Resize(n: nat)

  /** The cache afterwards and what was handed to `on_evict`, in order. */
  datatype Outcome = Outcome(cache: Cache, closed: seq<Entry>)

  /** `unpin` to its end: the parked handle closed, then the sweep when the cache is over. */
  function Unheld(c: Cache, k: Key): Outcome
    requires c.Valid()
  {
    var u := Unpin(c, k);
    var closed := Handed(k, u.deferred);
    if u.overLimit then
      UnpinKeepsValid(c, k);
      var t := Trim(u.cache, u.cache.maxsize);
      Outcome(t.cache, closed + t.evicted)
    else Outcome(u.cache, closed)
  }

  /** The `maxsize` setter; a limit below one is refused and changes nothing. */
  function Resized(c: Cache, n: nat): Outcome
    requires c.Valid()
  {
    if n < 1 then Outcome(c, [])
    else
      var t := Trim(c.(maxsize := n), n);
      Outcome(t.cache, t.evicted)
  }

  function Exec(c: Cache, op: Op): Outcome
    requires c.Valid()
  {
    match op
    case Get(k) => Outcome(Lookup(c, k).0, [])
    case Set(k, h) => var t := Insert(c, k, h); Outcome(t.cache, t.evicted)
    case Del(k) => Outcome(Delete(c, k), [])
    case Reset => var t := Clear(c); Outcome(t.cache, t.evicted)
    case Hold(k) => Outcome(Pin(c, k), [])
    case Unhold(k) => Unheld(c, k)
    case Remove(k) => var d := Discard(c, k); Outcome(d.0, Handed(k, d.1))
    case Register(k) => Outcome(Retain(c, k), [])
    case Finalize(k) => var r := Release(c, k); Outcome(r.0, Handed(k, r.1))
    case Resize(n) => Resized(c, n)
  }

  /** `acquire` to its end: a look-up, and on a miss the opener's handle inserted. */
  function Acquired(c: Cache, k: Key, opens: Handle): Trimmed
    requires c.Valid()
  {
    if k in c.slots then Trimmed(Lookup(c, k).0, []) else Insert(c, k, opens)
  }

  /** `acquire_context` up to its `yield`: the pin first, then the same. */
  function BlockEntered(c: Cache, k: Key, opens: Handle): Trimmed
    requires c.Valid()
  {
    Acquired(Pin(c, k), k, opens)
  }

  // Every block keeps the cache well formed

  lemma {:induction false} LookupKeepsValid(c: Cache, k: Key)
    requires c.Valid()
    ensures Lookup(c, k).0.Valid()
  {
    if k in c.slots {
      MoveToEndKeeps(c.order, k);
    }
  }

  /** The key just inserted is held, with its value, as the most recent one: an insert never
      evicts its own entry. */
  lemma {:induction false} InsertKeepsValid(c: Cache, k: Key, h: Handle)
    requires c.Valid()
    ensures var d := Insert(c, k, h).cache;
      && d.Valid()
      && k in d.slots && d.slots[k] == h
      && d.order != [] && d.order[|d.order| - 1] == k
  {
    if k in c.slots {
      MoveToEndKeeps(c.order, k);
      assert Keys(c.order) == c.slots[k := h].Keys;
    } else {
      assert Trim(c, c.maxsize - 1).cache.Valid() by {
        TrimWorks(c, c.maxsize - 1);
      }
      NewKeyKeepsValid(Trim(c, c.maxsize - 1).cache, k, h);
    }
  }

  lemma {:induction false} NewKeyKeepsValid(t: Cache, k: Key, h: Handle)
    requires t.Valid() && k !in t.slots
    ensures t.(order := t.order + [k], slots := t.slots[k := h]).Valid()
  {
    AppendNoDup(t.order, [k]);
    KeysAppend(t.order, [k]);
    assert t.slots[k := h].Keys == t.slots.Keys + {k};
  }

  lemma {:induction false} DeleteKeepsValid(c: Cache, k: Key)
    requires c.Valid()
    ensures Delete(c, k).Valid()
  {
    WithoutNoDup(c.order, {k});
    WithoutKeys(c.order, {k});
  }

  lemma {:induction false} UnpinKeepsValid(c: Cache, k: Key)
    requires c.Valid()
    ensures Unpin(c, k).cache.Valid()
  {}

  lemma {:induction false} DiscardKeepsValid(c: Cache, k: Key)
    requires c.Valid()
    ensures Discard(c, k).0.Valid()
  {
    DeleteKeepsValid(c, k);
  }

  lemma {:induction false} ReleaseKeepsValid(c: Cache, k: Key)
    requires c.Valid()
    ensures Release(c, k).0.Valid()
  {
    DiscardKeepsValid(c.(refs := c.refs - {k}), k);
  }

  // The size promise

  /** Fewer held keys, or more pins, never breaks the promise. */
  lemma {:induction false} ShrinkKeepsBounded(c: Cache, d: Cache)
    requires c.Valid() && d.Valid() && c.Bounded() && c.maxsize == d.maxsize
    requires Keys(d.order) <= Keys(c.order) && c.Busy() <= d.Busy()
    ensures d.Bounded()
  {
    KeysCount(c.order);
    KeysCount(d.order);
    Cardinality(Keys(d.order), Keys(c.order));
    WithoutNoDup(c.order, c.Busy());
    WithoutNoDup(d.order, d.Busy());
    Cardinality(Keys(d.order) - d.Busy(), Keys(c.order) - c.Busy());
  }

  /** A new key lands at the limit, or over it with nothing but the new key unpinned. */
  lemma {:induction false} NewKeyIsBounded(c: Cache, k: Key, h: Handle)
    requires c.Valid() && k !in c.slots
    ensures Insert(c, k, h).cache.Bounded()
  {
    TrimWorks(c, c.maxsize - 1);
    var t := Trim(c, c.maxsize - 1).cache;
    WithoutAppend(t.order, [k], c.Busy());
  }

  lemma {:induction false} InsertKeepsBounded(c: Cache, k: Key, h: Handle)
    requires c.Valid() && c.Bounded()
    ensures Insert(c, k, h).cache.Valid() && Insert(c, k, h).cache.Bounded()
  {
    InsertKeepsValid(c, k, h);
    if k in c.slots {
      assert Keys(Insert(c, k, h).cache.order) == Keys(c.order);
      ShrinkKeepsBounded(c, Insert(c, k, h).cache);
    } else {
      NewKeyIsBounded(c, k, h);
    }
  }

  lemma {:induction false} UnheldKeepsBounded(c: Cache, k: Key)
    requires c.Valid() && c.Bounded()
    ensures Unheld(c, k).cache.Valid() && Unheld(c, k).cache.Bounded()
  {
    UnpinKeepsValid(c, k);
    var u := Unpin(c, k);
    if u.overLimit {
      TrimWorks(u.cache, u.cache.maxsize);
    } else if k in c.pins && c.pins[k] > 1 {
      ShrinkKeepsBounded(c, u.cache);
    }
  }

  lemma {:induction false} ExecKeeps(c: Cache, op: Op)
    requires c.Valid() && c.Bounded()
    ensures Exec(c, op).cache.Valid() && Exec(c, op).cache.Bounded()
  {
    match op
    case Get(k) => LookupKeepsValid(c, k); ShrinkKeepsBounded(c, Lookup(c, k).0);
    case Set(k, h) => InsertKeepsBounded(c, k, h);
    case Del(k) => DeleteKeepsValid(c, k); ShrinkKeepsBounded(c, Delete(c, k));
    case Reset =>
    case Hold(k) => ShrinkKeepsBounded(c, Pin(c, k));
    case Unhold(k) => UnheldKeepsBounded(c, k);
    case Remove(k) => DiscardKeepsValid(c, k); ShrinkKeepsBounded(c, Discard(c, k).0);
    case Register(k) =>
    case Finalize(k) => ReleaseKeepsValid(c, k); ShrinkKeepsBounded(c, Release(c, k).0);
    case Resize(n) =>
      if n >= 1 {
        TrimWorks(c.(maxsize := n), n);
      }
  }

  /** What the promise means in numbers: the held keys are at most the limit, or one more than the
      pinned keys, whichever is larger. */
  lemma {:induction false} BoundedSize(c: Cache)
    requires c.Valid() && c.Bounded()
    ensures |c.order| <= c.maxsize || |c.order| <= 1 + |c.pins|
    ensures Keys(c.order) !! c.Busy() ==> |c.order| <= c.maxsize
  {
    WithoutNoDup(c.order, c.Busy());
    KeysCount(c.order);
    SplitCount(Keys(c.order), c.Busy(), c.pins.Keys);
  }

  lemma {:induction false} SplitCount(held: set<Key>, busy: set<Key>, pinned: set<Key>)
    requires busy <= pinned
    ensures |held| <= |held - busy| + |pinned|
    ensures held !! busy ==> |held - busy| == |held|
  {
    assert held == (held - busy) + held * busy;
    Cardinality(held * busy, pinned);
    if held !! busy {
      assert held - busy == held;
    }
  }

  ghost function Run(c: Cache, ops: seq<Op>): Cache
    requires c.Valid() && c.Bounded()
    ensures Run(c, ops).Valid() && Run(c, ops).Bounded()
    decreases |ops|
  {
    if ops == [] then c
    else
      ExecKeeps(c, ops[0]);
      Run(Exec(c, ops[0]).cache, ops[1..])
  }

  /** After any sequence of completed operations on a new cache, `clear` included. */
  lemma {:induction false} EveryRunIsBounded(maxsize: nat, ops: seq<Op>)
    requires 1 <= maxsize
    ensures var c := Run(New(maxsize), ops);
      && c.Bounded()
      && (|c.order| <= c.maxsize || |c.order| <= 1 + |c.pins|)
      && (Keys(c.order) !! c.Busy() ==> |c.order| <= c.maxsize)
  {
    BoundedSize(Run(New(maxsize), ops));
  }

  // Where the close promise fails

  const TWO_CLOSES: seq<Op> := [Hold(0), Set(0, 0), Remove(0), Hold(0), Unhold(0), Set(0, 1), Remove(0)]

  /** The cache of those operations: what is held, pinned and parked under the one key. */
  function OneKey(held: Option<Handle>, readers: nat, parked: Option<Handle>): Cache {
    Cache(if held.Some? then [0] else [], if held.Some? then map[0 := held.value] else map[], 2,
          if readers > 0 then map[0 := readers] else map[], map[],
          if parked.Some? then map[0 := parked.value] else map[])
  }

  /** Two closes of one key while reads overlap: a reader is in, `close` parks its handle 0, a second
      reader comes before the first leaves and opens handle 1, and `close` parks that over it.
      Handle 0 is then held nowhere and was never handed to `on_evict`. */
  lemma {:induction false} TwoClosesLoseAHandle()
    ensures Run(New(2), TWO_CLOSES) == OneKey(None, 1, Some(1))
    ensures ClosesOf(New(2), TWO_CLOSES) == []
  {
    var ops := TWO_CLOSES;
    assert New(2) == OneKey(None, 0, None);
    OneStep(New(2), ops, OneKey(None, 1, None));
    AssignAndRemove(0, None, ops[1..]);
    SecondReader(ops[3..]);
  }

  lemma {:induction false} SecondReader(ops: seq<Op>)
    requires ops == [Hold(0), Unhold(0), Set(0, 1), Remove(0)]
    ensures OneKey(None, 1, Some(0)).Valid() && OneKey(None, 1, Some(0)).Bounded()
    ensures Run(OneKey(None, 1, Some(0)), ops) == OneKey(None, 1, Some(1))
    ensures ClosesOf(OneKey(None, 1, Some(0)), ops) == []
  {
    OneStep(OneKey(None, 1, Some(0)), ops, OneKey(None, 2, Some(0)));
    OneStep(OneKey(None, 2, Some(0)), ops[1..], OneKey(None, 1, Some(0)));
    AssignAndRemove(1, Some(0), ops[2..]);
    assert ops[2..][2..] == [];
  }

  /** A reader's open and a `close` in its block: the handle ends up parked. */
  lemma {:induction false} AssignAndRemove(h: Handle, parked: Option<Handle>, ops: seq<Op>)
    requires |ops| >= 2 && ops[0] == Set(0, h) && ops[1] == Remove(0)
    ensures OneKey(None, 1, parked).Valid() && OneKey(None, 1, parked).Bounded()
    ensures OneKey(None, 1, Some(h)).Valid() && OneKey(None, 1, Some(h)).Bounded()
    ensures Run(OneKey(None, 1, parked), ops) == Run(OneKey(None, 1, Some(h)), ops[2..])
    ensures ClosesOf(OneKey(None, 1, parked), ops) == ClosesOf(OneKey(None, 1, Some(h)), ops[2..])
  {
    assert Trim(OneKey(None, 1, parked), 1).cache.slots == map[];
    OneStep(OneKey(None, 1, parked), ops, OneKey(Some(h), 1, parked));
    assert Without([0], {0}) == [];
    OneStep(OneKey(Some(h), 1, parked), ops[1..], OneKey(None, 1, Some(h)));
  }

  ghost function ClosesOf(c: Cache, ops: seq<Op>): seq<Entry>
    requires c.Valid() && c.Bounded()
    decreases |ops|
  {
    if ops == [] then []
    else
      ExecKeeps(c, ops[0]);
      var e := Exec(c, ops[0]);
      e.closed + ClosesOf(e.cache, ops[1..])
  }

  lemma {:induction false} OneStep(c: Cache, ops: seq<Op>, d: Cache)
    requires c.Valid() && c.Bounded() && ops != []
    requires Exec(c, ops[0]) == Outcome(d, [])
    ensures d.Valid() && d.Bounded()
    ensures Run(c, ops) == Run(d, ops[1..])
    ensures ClosesOf(c, ops) == ClosesOf(d, ops[1..])
  {
    ExecKeeps(c, ops[0]);
  }
}
