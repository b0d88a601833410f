/** What a completed operation does to the cache, told key by key: which keys are held, with which
    handles, and which of two held keys was used more recently. */
module CacheOrder {
  import opened Wrappers
  import opened CacheModel
  import opened CacheOps

  /** `a` comes before `b`, so `a` is evicted first. */
  predicate Sooner(order: seq<Key>, a: Key, b: Key) {
    order != [] && ((order[0] == a && b in Keys(order[1..])) || Sooner(order[1..], a, b))
  }

  lemma {:induction false} SoonerHolds(order: seq<Key>, a: Key, b: Key)
    requires Sooner(order, a, b)
    ensures a in Keys(order) && b in Keys(order)
  {
    if !(order[0] == a && b in Keys(order[1..])) {
      SoonerHolds(order[1..], a, b);
    }
  }

  /** Of two different held keys exactly one comes before the other. */
  lemma {:induction false} SoonerIsOrder(order: seq<Key>, a: Key, b: Key)
    requires NoDup(order) && a in Keys(order) && b in Keys(order)
    ensures a != b ==> (Sooner(order, a, b) <==> !Sooner(order, b, a))
    ensures !Sooner(order, a, a)
  {
    if Sooner(order[1..], a, b) {
      SoonerHolds(order[1..], a, b);
    }
    if Sooner(order[1..], b, a) {
      SoonerHolds(order[1..], b, a);
    }
    if Sooner(order[1..], a, a) {
      SoonerHolds(order[1..], a, a);
    }
    if a in Keys(order[1..]) {
      SoonerIsOrder(order[1..], a, if b in Keys(order[1..]) then b else a);
    }
  }

  lemma {:induction false} SoonerWithout(order: seq<Key>, gone: set<Key>, a: Key, b: Key)
    requires a !in gone && b !in gone
    ensures Sooner(Without(order, gone), a, b) <==> Sooner(order, a, b)
  {
    if order != [] {
      SoonerWithout(order[1..], gone, a, b);
      WithoutKeys(order[1..], gone);
      if order[0] !in gone {
        assert Without(order, gone)[1..] == Without(order[1..], gone);
      }
    }
  }

  lemma {:induction false} SoonerSnoc(order: seq<Key>, k: Key, a: Key, b: Key)
    ensures Sooner(order + [k], a, b) <==> Sooner(order, a, b) || (a in Keys(order) && b == k)
  {
    if order == [] {
      assert order + [k] == [k];
    } else {
      assert (order + [k])[1..] == order[1..] + [k];
      SoonerSnoc(order[1..], k, a, b);
      KeysAppend(order[1..], [k]);
    }
  }

  /** Moving a key to the end puts it after every other key and changes nothing between the others. */
  lemma {:induction false} MovedLast(order: seq<Key>, k: Key, a: Key, b: Key)
    requires a != k
    ensures b != k ==> (Sooner(MoveToEnd(order, k), a, b) <==> Sooner(order, a, b))
    ensures Sooner(MoveToEnd(order, k), a, k) <==> a in Keys(order)
    ensures !Sooner(MoveToEnd(order, k), k, a)
  {
    WithoutKeys(order, {k});
    SoonerSnoc(Without(order, {k}), k, a, b);
    SoonerSnoc(Without(order, {k}), k, a, k);
    SoonerSnoc(Without(order, {k}), k, k, a);
    if b != k {
      SoonerWithout(order, {k}, a, b);
    }
    if Sooner(Without(order, {k}), a, k) {
      SoonerHolds(Without(order, {k}), a, k);
    }
    if Sooner(Without(order, {k}), k, a) {
      SoonerHolds(Without(order, {k}), k, a);
    }
  }

  lemma {:induction false} SoonerAt(s: seq<Key>, i: nat, j: nat)
    requires NoDup(s) && i < j < |s|
    ensures Sooner(s, s[i], s[j])
  {
    if i == 0 {
      assert s[1..][j - 1] == s[j];
      KeysOfPrefix(s[1..], j - 1);
    } else {
      SoonerAt(s[1..], i - 1, j - 1);
    }
  }

  // Which key an operation uses

  /** A look-up or an assignment uses its key; nothing else counts as a use. */
  predicate Uses(op: Op, k: Key) {
    match op
    case Get(key) => key == k
    case Set(key, _) => key == k
    case _ => false
  }

  /** The key an operation is about; a sweep or a reset is about none. */
  function About(op: Op): Option<Key> {
    match op
    case Get(k) => Some(k)
    case Set(k, _) => Some(k)
    case Del(k) => Some(k)
    case Reset => None
    case Hold(k) => Some(k)
    case Unhold(k) => Some(k)
    case Remove(k) => Some(k)
    case Register(k) => Some(k)
    case Finalize(k) => Some(k)
    case Resize(_) => None
  }

  /** A used key that is held afterwards, pinned or not, is the most recent one. */
  lemma {:induction false} UsedIsLast(c: Cache, op: Op, k: Key, a: Key)
    requires c.Valid() && Uses(op, k) && k in Exec(c, op).cache.slots
    requires a in Exec(c, op).cache.slots && a != k
    ensures Sooner(Exec(c, op).cache.order, a, k) && !Sooner(Exec(c, op).cache.order, k, a)
  {
    if k in c.slots {
      MovedLast(c.order, k, a, k);
    } else if op.Set? {
      var t := Trim(c, c.maxsize - 1).cache;
      TrimWorks(c, c.maxsize - 1);
      SoonerSnoc(t.order, k, a, k);
      SoonerSnoc(t.order, k, k, a);
      if Sooner(t.order, k, a) {
        SoonerHolds(t.order, k, a);
      }
    }
  }

  lemma {:induction false} TrimKeepsOrder(c: Cache, target: nat, a: Key, b: Key)
    requires c.Valid() && a in Trim(c, target).cache.slots && b in Trim(c, target).cache.slots
    ensures a in c.slots && Trim(c, target).cache.slots[a] == c.slots[a]
    ensures Sooner(Trim(c, target).cache.order, a, b) <==> Sooner(c.order, a, b)
  {
    SoonerWithout(c.order, Keys(Victims(c, target)), a, b);
  }

  /** `a` and `b` were held before `d`, with the handles they have in it and in the same order. */
  predicate AsBefore(c: Cache, d: Cache, a: Key, b: Key) {
    && (a in d.slots ==> a in c.slots && d.slots[a] == c.slots[a])
    && (a in d.slots && b in d.slots ==> (Sooner(d.order, a, b) <==> Sooner(c.order, a, b)))
  }

  lemma {:induction false} SweepKeepsOrder(c: Cache, d: Cache, target: nat, a: Key, b: Key)
    requires c.Valid() && d.Valid() && d.order == c.order && d.slots == c.slots
    ensures AsBefore(c, Trim(d, target).cache, a, b)
  {
    var victims := Keys(Victims(d, target));
    if a !in victims && b !in victims {
      SoonerWithout(c.order, victims, a, b);
    }
  }

  lemma {:induction false} InsertKeepsOrder(c: Cache, k: Key, h: Handle, a: Key, b: Key)
    requires c.Valid() && a != k && b != k
    ensures AsBefore(c, Insert(c, k, h).cache, a, b)
  {
    if k in c.slots {
      MovedLast(c.order, k, a, b);
    } else {
      SweepKeepsOrder(c, c, c.maxsize - 1, a, b);
      SoonerSnoc(Trim(c, c.maxsize - 1).cache.order, k, a, b);
    }
  }

  lemma {:induction false} DeleteKeepsOrder(c: Cache, k: Key, a: Key, b: Key)
    ensures AsBefore(c, Delete(c, k), a, b)
  {
    if a != k && b != k {
      SoonerWithout(c.order, {k}, a, b);
    }
  }

  lemma {:induction false} ReleaseKeepsOrder(c: Cache, k: Key, a: Key, b: Key)
    ensures AsBefore(c, Release(c, k).0, a, b) && AsBefore(c, Discard(c, k).0, a, b)
  {
    DeleteKeepsOrder(c, k, a, b);
  }

  lemma {:induction false} UnholdKeepsOrder(c: Cache, k: Key, a: Key, b: Key)
    requires c.Valid()
    ensures AsBefore(c, Unheld(c, k).cache, a, b)
  {
    UnpinKeepsValid(c, k);
    SweepKeepsOrder(c, Unpin(c, k).cache, c.maxsize, a, b);
  }

  /** Two keys that are held afterwards and were not used were held before, in the same order. */
  lemma {:induction false} UnusedKeepOrder(c: Cache, op: Op, a: Key, b: Key)
    requires c.Valid() && !Uses(op, a) && !Uses(op, b)
    ensures AsBefore(c, Exec(c, op).cache, a, b)
  {
    match op
    case Get(k) => MovedLast(c.order, k, a, b);
    case Set(k, h) => InsertKeepsOrder(c, k, h, a, b);
    case Del(k) => DeleteKeepsOrder(c, k, a, b);
    case Unhold(k) => UnholdKeepsOrder(c, k, a, b);
    case Remove(k) => ReleaseKeepsOrder(c, k, a, b);
    case Finalize(k) => ReleaseKeepsOrder(c, k, a, b);
    case Resize(n) => SweepKeepsOrder(c, c.(maxsize := if n < 1 then c.maxsize else n), n, a, b);
    case _ =>
  }

  // What an operation leaves alone

  /** The counts and the parked handle of `a`, and its entry, unless it is handed to `on_evict`. */
  predicate LeftAlone(c: Cache, e: Outcome, a: Key) {
    && e.cache.PinCount(a) == c.PinCount(a) && e.cache.RefCount(a) == c.RefCount(a)
    && (a in e.cache.parked <==> a in c.parked)
    && (a in c.parked ==> e.cache.parked[a] == c.parked[a])
    && (a in e.cache.slots ==> a in c.slots && e.cache.slots[a] == c.slots[a])
    && (a in c.slots && a !in e.cache.slots ==> Entry(a, c.slots[a]) in e.closed)
  }

  /** A sweep after a block that left the key alone. */
  lemma {:induction false} SweepLeaves(c: Cache, d: Cache, closed: seq<Entry>, target: nat, a: Key)
    requires d.Valid() && d.slots == c.slots && LeftAlone(c, Outcome(d, closed), a)
    ensures LeftAlone(c, Outcome(Trim(d, target).cache, closed + Trim(d, target).evicted), a)
  {
    TakenIsHanded(d, target, a);
  }

  lemma {:induction false} SetLeaves(c: Cache, k: Key, h: Handle, a: Key)
    requires c.Valid() && a != k
    ensures LeftAlone(c, Exec(c, Set(k, h)), a)
  {
    if k !in c.slots {
      SweepLeaves(c, c, [], c.maxsize - 1, a);
    }
  }

  lemma {:induction false} UnpinLeaves(c: Cache, k: Key, closed: seq<Entry>, a: Key)
    requires a != k
    ensures LeftAlone(c, Outcome(Unpin(c, k).cache, closed), a) && Unpin(c, k).cache.slots == c.slots
  {}

  lemma {:induction false} UnholdLeaves(c: Cache, k: Key, a: Key)
    requires c.Valid() && a != k
    ensures LeftAlone(c, Unheld(c, k), a)
  {
    var u := Unpin(c, k);
    var closed := Handed(k, u.deferred);
    UnpinKeepsValid(c, k);
    UnpinLeaves(c, k, closed, a);
    SweepLeaves(c, u.cache, closed, u.cache.maxsize, a);
  }

  lemma {:induction false} ReleaseLeaves(c: Cache, k: Key, a: Key)
    requires a != k
    ensures LeftAlone(c, Outcome(Release(c, k).0, Handed(k, Release(c, k).1)), a)
    ensures LeftAlone(c, Outcome(Discard(c, k).0, Handed(k, Discard(c, k).1)), a)
  {}

  /** Every operation but a reset leaves the keys it is not about alone. */
  lemma {:induction false} OthersUntouched(c: Cache, op: Op, a: Key)
    requires c.Valid() && About(op) != Some(a) && !op.Reset?
    ensures LeftAlone(c, Exec(c, op), a)
  {
    match op
    case Set(k, h) => SetLeaves(c, k, h, a);
    case Unhold(k) => UnholdLeaves(c, k, a);
    case Remove(k) => ReleaseLeaves(c, k, a);
    case Finalize(k) => ReleaseLeaves(c, k, a);
    case Resize(n) =>
      if n >= 1 {
        SweepLeaves(c, c.(maxsize := n), [], n, a);
      }
    case _ =>
  }

  /** A sweep hands over exactly the entries it takes, each with its own handle, none pinned. */
  lemma {:induction false} TakenIsHanded(c: Cache, target: nat, a: Key)
    requires c.Valid()
    ensures var t := Trim(c, target);
      && (a in c.slots && a !in t.cache.slots ==> Entry(a, c.slots[a]) in t.evicted)
      && (forall h: Handle :: Entry(a, h) in t.evicted ==>
           a in c.slots && h == c.slots[a] && a !in t.cache.slots && !c.Pinned(a))
  {
    var victims := Victims(c, target);
    if a in Keys(victims) {
      EntryOf(victims, c.slots, a);
    }
    forall h: Handle | Entry(a, h) in Trim(c, target).evicted
      ensures a in Keys(victims) && h == c.slots[a]
    {
      KeyOf(victims, c.slots, Entry(a, h));
    }
  }

  lemma {:induction false} EntryOf(keys: seq<Key>, slots: map<Key, Handle>, a: Key)
    requires Keys(keys) <= slots.Keys && a in Keys(keys)
    ensures Entry(a, slots[a]) in Entries(keys, slots)
  {
    if a != keys[0] {
      EntryOf(keys[1..], slots, a);
    }
  }

  lemma {:induction false} KeyOf(keys: seq<Key>, slots: map<Key, Handle>, e: Entry)
    requires Keys(keys) <= slots.Keys && e in Entries(keys, slots)
    ensures e.key in Keys(keys) && e.handle == slots[e.key]
  {
    if e != Entry(keys[0], slots[keys[0]]) {
      assert e in Entries(keys[1..], slots);
      KeyOf(keys[1..], slots, e);
    }
  }

  lemma {:induction false} EntriesAt(keys: seq<Key>, slots: map<Key, Handle>, i: nat)
    requires Keys(keys) <= slots.Keys && i < |keys|
    ensures keys[i] in slots && Entries(keys, slots)[i] == Entry(keys[i], slots[keys[i]])
  {
    if i > 0 {
      EntriesAt(keys[1..], slots, i - 1);
    }
  }

  /** An entry that is swept is older than every unpinned entry that is not. */
  lemma {:induction false} SweptIsOlder(c: Cache, target: nat, out: Key, kept: Key)
    requires c.Valid() && out in c.slots && out !in Trim(c, target).cache.slots
    requires kept in Trim(c, target).cache.slots && !c.Pinned(kept)
    ensures Sooner(c.order, out, kept)
  {
    var candidates, n := Without(c.order, c.Busy()), |Victims(c, target)|;
    WithoutKeys(c.order, c.Busy());
    assert candidates == candidates[..n] + candidates[n..];
    KeysAppend(candidates[..n], candidates[n..]);
    assert kept in c.slots && kept !in c.Busy() && kept !in Keys(candidates[..n]);
    assert kept in Keys(candidates);
    assert out in Keys(candidates[..n]);
    SoonerAcross(candidates[..n], candidates[n..], out, kept);
    SoonerWithout(c.order, c.Busy(), out, kept);
  }

  lemma {:induction false} SoonerAcross(s: seq<Key>, t: seq<Key>, a: Key, b: Key)
    requires a in Keys(s) && b in Keys(t)
    ensures Sooner(s + t, a, b)
  {
    assert (s + t)[1..] == s[1..] + t;
    KeysAppend(s[1..], t);
    if a != s[0] {
      SoonerAcross(s[1..], t, a, b);
    }
  }

  /** The handed entries come in the order of their keys, least recently used first. */
  lemma {:induction false} HandedOldestFirst(c: Cache, target: nat, i: nat, j: nat)
    requires c.Valid() && i < j < |Trim(c, target).evicted|
    ensures Sooner(c.order, Trim(c, target).evicted[i].key, Trim(c, target).evicted[j].key)
  {
    var victims, candidates := Victims(c, target), Without(c.order, c.Busy());
    WithoutNoDup(c.order, c.Busy());
    EntriesAt(victims, c.slots, i);
    EntriesAt(victims, c.slots, j);
    SoonerAt(candidates, i, j);
    KeysOfPrefix(victims, i);
    KeysOfPrefix(victims, j);
    SoonerWithout(c.order, c.Busy(), victims[i], victims[j]);
  }

  // Each operation on its own key

  /** One count after an operation: `up` adds one, `down` takes one off but never below zero. */
  function Moved(n: nat, up: bool, down: bool): nat {
    if up then n + 1 else if down && n > 0 then n - 1 else n
  }

  predicate CountsMove(c: Cache, op: Op, d: Cache, k: Key) {
    && d.PinCount(k) == Moved(c.PinCount(k), op == Hold(k), op == Unhold(k))
    && d.RefCount(k) == Moved(c.RefCount(k), op == Register(k), op == Finalize(k))
    && d.maxsize == (if op.Resize? && op.n >= 1 then op.n else c.maxsize)
  }

  lemma {:induction false} UnholdCounts(c: Cache, key: Key, k: Key)
    requires c.Valid()
    ensures CountsMove(c, Unhold(key), Unheld(c, key).cache, k)
  {}

  lemma {:induction false} FinalizeCounts(c: Cache, key: Key, k: Key)
    ensures CountsMove(c, Finalize(key), Release(c, key).0, k)
  {}

  /** Pins go up by one at a pin and down by one at an unpin, references with their managers, and the
      limit moves at a resize only. */
  lemma {:induction false} CountsOf(c: Cache, op: Op, k: Key)
    requires c.Valid() && !op.Reset?
    ensures CountsMove(c, op, Exec(c, op).cache, k)
  {
    match op
    case Unhold(key) => UnholdCounts(c, key, k);
    case Finalize(key) => FinalizeCounts(c, key, k);
    case _ =>
  }

  /** A reset hands every held handle over once, oldest first, pinned or not; pins and references are
      gone, parked handles stay parked. */
  lemma {:induction false} ResetHandsAll(c: Cache)
    requires c.Valid()
    ensures var e := Exec(c, Reset);
      && e.cache == New(c.maxsize).(parked := c.parked)
      && |e.closed| == |c.slots|
      && (forall i: nat :: i < |e.closed| ==> InPlace(c, e.closed, i))
      && (forall a: Key :: a in c.slots ==> Entry(a, c.slots[a]) in e.closed)
  {
    var closed := Exec(c, Reset).closed;
    KeysCount(c.order);
    assert c.slots.Keys == Keys(c.order);
    forall i: nat | i < |closed|
      ensures InPlace(c, closed, i)
    {
      EntriesAt(c.order, c.slots, i);
    }
    forall a: Key | a in c.slots
      ensures Entry(a, c.slots[a]) in closed
    {
      EntryOf(c.order, c.slots, a);
    }
  }

  predicate InPlace(c: Cache, closed: seq<Entry>, i: nat) {
    && i < |closed| && i < |c.order| && c.order[i] in c.slots
    && closed[i] == Entry(c.order[i], c.slots[c.order[i]])
  }

  // `acquire` and `acquire_context`

  lemma {:induction false} EntryKeepsValid(c: Cache, k: Key, opens: Handle)
    requires c.Valid()
    ensures Acquired(c, k, opens).cache.Valid() && BlockEntered(c, k, opens).cache.Valid()
  {
    LookupKeepsValid(c, k);
    InsertKeepsValid(c, k, opens);
    LookupKeepsValid(Pin(c, k), k);
    InsertKeepsValid(Pin(c, k), k, opens);
  }

  /** However the key was found, pinned by other readers or not, it is the most recent one afterwards
      with the handle that is used; any two other held keys were held before in the same order, and
      what is gone was handed over and was not pinned. */
  lemma {:induction false} EnterRefreshes(c: Cache, k: Key, opens: Handle, a: Key, b: Key)
    requires c.Valid() && a != k && b != k
    ensures var e := BlockEntered(c, k, opens);
      && k in e.cache.slots && e.cache.slots[k] == (if k in c.slots then c.slots[k] else opens)
      && e.cache.PinCount(k) == c.PinCount(k) + 1
      && (a in e.cache.slots ==> Sooner(e.cache.order, a, k) && !Sooner(e.cache.order, k, a))
      && AsBefore(c, e.cache, a, b)
      && LeftAlone(c, Outcome(e.cache, e.evicted), a)
      && (c.Pinned(a) && a in c.slots ==> a in e.cache.slots)
  {
    var p := Pin(c, k);
    if k in c.slots {
      UsedOnce(p, Get(k), k, a, b);
    } else {
      UsedOnce(p, Set(k, opens), k, a, b);
      InsertKeepsValid(p, k, opens);
      TakenIsHanded(p, c.maxsize - 1, a);
    }
  }

  lemma {:induction false} UsedOnce(c: Cache, op: Op, k: Key, a: Key, b: Key)
    requires c.Valid() && Uses(op, k) && k in Exec(c, op).cache.slots && a != k && b != k
    ensures var e := Exec(c, op);
      && (a in e.cache.slots ==> Sooner(e.cache.order, a, k) && !Sooner(e.cache.order, k, a))
      && AsBefore(c, e.cache, a, b) && LeftAlone(c, e, a)
  {
    if a in Exec(c, op).cache.slots {
      UsedIsLast(c, op, k, a);
    }
    UnusedKeepOrder(c, op, a, b);
    OthersUntouched(c, op, a);
  }

  // Recency over whole runs

  lemma {:induction false} RunSnoc(c: Cache, ops: seq<Op>, op: Op)
    requires c.Valid() && c.Bounded()
    ensures Run(c, ops + [op]) == Exec(Run(c, ops), op).cache
    decreases |ops|
  {
    ExecKeeps(c, (ops + [op])[0]);
    if ops == [] {
      assert ops + [op] == [op] && [op][1..] == [];
    } else {
      assert (ops + [op])[1..] == ops[1..] + [op];
      RunSnoc(Exec(c, ops[0]).cache, ops[1..], op);
    }
  }

  /** The last operation that used `a` came before the last one that used `b`. */
  predicate UsedSooner(ops: seq<Op>, a: Key, b: Key) {
    if ops == [] then false
    else
      var last := ops[|ops| - 1];
      Uses(last, b) || (!Uses(last, a) && UsedSooner(ops[..|ops| - 1], a, b))
  }

  /** After any sequence of completed operations, with keys pinned, parked, dropped and reset along the
      way, two held keys stand in the order of their last uses. */
  lemma {:induction false} OrderIsLastUse(maxsize: nat, ops: seq<Op>, a: Key, b: Key)
    requires 1 <= maxsize && a != b
    requires a in Run(New(maxsize), ops).slots && b in Run(New(maxsize), ops).slots
    ensures Sooner(Run(New(maxsize), ops).order, a, b) <==> UsedSooner(ops, a, b)
    decreases |ops|
  {
    if ops != [] {
      var front, last := ops[..|ops| - 1], ops[|ops| - 1];
      assert ops == front + [last];
      RunSnoc(New(maxsize), front, last);
      var c := Run(New(maxsize), front);
      if Uses(last, a) {
        UsedIsLast(c, last, a, b);
      } else if Uses(last, b) {
        UsedIsLast(c, last, b, a);
      } else {
        UnusedKeepOrder(c, last, a, b);
        UnusedKeepOrder(c, last, b, a);
        OrderIsLastUse(maxsize, front, a, b);
      }
    }
  }
}
