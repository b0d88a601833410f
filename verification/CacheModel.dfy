/** The LRU file-handle cache as a value.

    Every function here is one lock-held block of `_LRUCache`: it takes the cache as the block
    finds it and gives the cache as the block leaves it, together with the entries the caller must
    hand to `on_evict` after dropping the lock.  The imperative cache (LruCache.dfy) and the
    multi-threaded protocol (HandleProtocol.dfy) are both built on these functions. */
module CacheModel {
  import opened Wrappers

  type Key = nat
  type Handle = nat

  /** A (key, value) pair on its way to `on_evict`. */
  datatype Entry = Entry(key: Key, handle: Handle)

  /** The keys of a recency order, as a set. */
  function Keys(s: seq<Key>): set<Key> {
    if s == [] then {} else {s[0]} + Keys(s[1..])
  }

  predicate NoDup(s: seq<Key>) {
    s == [] || (s[0] !in Keys(s[1..]) && NoDup(s[1..]))
  }

  datatype Cache = Cache(
    order: seq<Key>,          // recency order of the held keys, least recently used first
    slots: map<Key, Handle>,  // the value held under each key
    maxsize: nat,
    pins: map<Key, nat>,      // reads in flight on each key
    refs: map<Key, nat>,      // registered auto-release managers of each key
    parked: map<Key, Handle>  // removed while pinned, waiting for the last reader
  ) {
    ghost predicate Valid() {
      && NoDup(order)
      && Keys(order) == slots.Keys
      && 1 <= maxsize
    }

    predicate Pinned(k: Key) {
      k in pins && pins[k] > 0
    }

    /** The keys with a read in flight. */
    function Busy(): set<Key> {
      set k | k in pins && pins[k] > 0
    }

    function PinCount(k: Key): nat {
      if k in pins then pins[k] else 0
    }

    function RefCount(k: Key): nat {
      if k in refs then refs[k] else 0
    }

    /** The size promise: over the limit only because of reads in flight, up to one new entry. */
    predicate Bounded() {
      |order| <= maxsize || |Without(order, Busy())| <= 1
    }
  }

  /** `order` with the keys of `gone` taken out. */
  function Without(order: seq<Key>, gone: set<Key>): seq<Key> {
    if order == [] then []
    else if order[0] in gone then Without(order[1..], gone)
    else [order[0]] + Without(order[1..], gone)
  }

  function MoveToEnd(order: seq<Key>, k: Key): seq<Key> {
    Without(order, {k}) + [k]
  }

  function Entries(keys: seq<Key>, slots: map<Key, Handle>): (r: seq<Entry>)
    requires Keys(keys) <= slots.Keys
    ensures |r| == |keys|
  {
    if keys == [] then []
    else [Entry(keys[0], slots[keys[0]])] + Entries(keys[1..], slots)
  }

  /** A handle on its way to `on_evict`, when there is one. */
  function Handed(k: Key, h: Option<Handle>): seq<Entry> {
    if h.Some? then [Entry(k, h.value)] else []
  }

  function New(maxsize: nat): Cache {
    Cache([], map[], maxsize, map[], map[], map[])
  }

  /** The keys an eviction down to `target` takes: the oldest unpinned ones, as many as needed. */
  function Victims(c: Cache, target: nat): (r: seq<Key>)
    ensures Keys(r) <= Keys(c.order) - c.Busy()
  {
    var candidates := Without(c.order, c.Busy());
    var excess := if |c.order| > target then |c.order| - target else 0;
    var n := if excess <= |candidates| then excess else |candidates|;
    WithoutKeys(c.order, c.Busy());
    KeysOfPrefix(candidates, n);
    candidates[..n]
  }

  datatype Trimmed = Trimmed(cache: Cache, evicted: seq<Entry>)

  /** Pop least-recently-used, unpinned entries until at most `target` are left. */
  function Trim(c: Cache, target: nat): Trimmed
    requires c.Valid()
  {
    var victims := Victims(c, target);
    Trimmed(c.(order := Without(c.order, Keys(victims)), slots := c.slots - Keys(victims)),
            Entries(victims, c.slots))
  }

  /** `cache[key]`: the value, moved to the recent end; a missing key leaves the cache alone. */
  function Lookup(c: Cache, k: Key): (Cache, Option<Handle>) {
    if k in c.slots then (c.(order := MoveToEnd(c.order, k)), Some(c.slots[k])) else (c, None)
  }

  /** `cache[key] = value`. */
  function Insert(c: Cache, k: Key, h: Handle): Trimmed
    requires c.Valid()
  {
    if k in c.slots then
      var displaced := c.slots[k];
      Trimmed(c.(order := MoveToEnd(c.order, k), slots := c.slots[k := h]),
              if displaced != h && !c.Pinned(k) then [Entry(k, displaced)] else [])
    else
      var t := Trim(c, c.maxsize - 1);
      Trimmed(t.cache.(order := t.cache.order + [k], slots := t.cache.slots[k := h]), t.evicted)
  }

  /** `del cache[key]`, the missing key ignored. */
  function Delete(c: Cache, k: Key): Cache {
    c.(order := Without(c.order, {k}), slots := c.slots - {k})
  }

  function Pin(c: Cache, k: Key): Cache {
    c.(pins := c.pins[k := c.PinCount(k) + 1])
  }

  datatype Unpinning = Unpinning(cache: Cache, deferred: Option<Handle>, overLimit: bool)

  /** The lock-held block of `unpin`. */
  function Unpin(c: Cache, k: Key): Unpinning {
    if k !in c.pins then Unpinning(c, None, false)
    else if c.pins[k] > 1 then Unpinning(c.(pins := c.pins[k := c.pins[k] - 1]), None, false)
    else Unpinning(c.(pins := c.pins - {k}, parked := c.parked - {k}),
                   if k in c.parked then Some(c.parked[k]) else None,
                   |c.order| > c.maxsize)
  }

  /** Take the entry of `k` out: parked when pinned, handed back otherwise. */
  function Discard(c: Cache, k: Key): (Cache, Option<Handle>) {
    if k !in c.slots then (c, None)
    else if c.Pinned(k) then (Delete(c, k).(parked := c.parked[k := c.slots[k]]), None)
    else (Delete(c, k), Some(c.slots[k]))
  }

  function Retain(c: Cache, k: Key): Cache {
    c.(refs := c.refs[k := c.RefCount(k) + 1])
  }

  /** A finalizer's lock-held block: one referent fewer, the entry out with the last. */
  function Release(c: Cache, k: Key): (Cache, Option<Handle>) {
    if k !in c.refs then (c, None)
    else if c.refs[k] > 1 then (c.(refs := c.refs[k := c.refs[k] - 1]), None)
    else Discard(c.(refs := c.refs - {k}), k)
  }

  /** The hard reset: everything held goes to `on_evict`, pins and parked handles notwithstanding. */
  function Clear(c: Cache): Trimmed
    requires c.Valid()
  {
    Trimmed(c.(order := [], slots := map[], refs := map[], pins := map[]), Entries(c.order, c.slots))
  }

  // Facts about recency orders

  lemma {:induction false} KeysAppend(s: seq<Key>, t: seq<Key>)
    ensures Keys(s + t) == Keys(s) + Keys(t)
  {
    if s == [] {
      assert s + t == t;
    } else {
      assert (s + t)[1..] == s[1..] + t;
      KeysAppend(s[1..], t);
    }
  }

  lemma {:induction false} KeysOfPrefix(s: seq<Key>, n: nat)
    requires n <= |s|
    ensures Keys(s[..n]) <= Keys(s)
    ensures n < |s| ==> Keys(s[..n + 1]) == Keys(s[..n]) + {s[n]} && s[n] in Keys(s)
  {
    assert s == s[..n] + s[n..];
    KeysAppend(s[..n], s[n..]);
    if n < |s| {
      assert s[..n + 1] == s[..n] + [s[n]];
      KeysAppend(s[..n], [s[n]]);
    }
  }

  lemma {:induction false} KeysCount(s: seq<Key>)
    ensures |Keys(s)| <= |s|
    ensures NoDup(s) ==> |Keys(s)| == |s|
  {
    if s != [] {
      KeysCount(s[1..]);
    }
  }

  lemma {:induction false} AppendNoDup(s: seq<Key>, t: seq<Key>)
    ensures NoDup(s + t) <==> NoDup(s) && NoDup(t) && Keys(s) !! Keys(t)
  {
    if s == [] {
      assert s + t == t;
    } else {
      assert (s + t)[1..] == s[1..] + t;
      KeysAppend(s[1..], t);
      AppendNoDup(s[1..], t);
    }
  }

  lemma {:induction false} WithoutKeys(order: seq<Key>, gone: set<Key>)
    ensures Keys(Without(order, gone)) == Keys(order) - gone
  {
    if order != [] {
      WithoutKeys(order[1..], gone);
    }
  }

  lemma {:induction false} WithoutNoDup(order: seq<Key>, gone: set<Key>)
    requires NoDup(order)
    ensures NoDup(Without(order, gone))
    ensures |Without(order, gone)| == |Keys(order) - gone|
  {
    if order != [] {
      WithoutNoDup(order[1..], gone);
      WithoutKeys(order[1..], gone);
    }
    WithoutKeys(order, gone);
    KeysCount(Without(order, gone));
  }

  lemma {:induction false} WithoutAppend(s: seq<Key>, t: seq<Key>, gone: set<Key>)
    ensures Without(s + t, gone) == Without(s, gone) + Without(t, gone)
  {
    if s == [] {
      assert s + t == t;
    } else {
      assert (s + t)[1..] == s[1..] + t;
      WithoutAppend(s[1..], t, gone);
    }
  }

  lemma {:induction false} WithoutSame(order: seq<Key>, gone: set<Key>, fewer: set<Key>)
    requires Keys(order) * gone == Keys(order) * fewer
    ensures Without(order, gone) == Without(order, fewer)
  {
    if order != [] {
      var k, rest := order[0], order[1..];
      assert k in gone <==> k in Keys(order) * gone;
      assert k in fewer <==> k in Keys(order) * fewer;
      assert Keys(rest) * gone == Keys(rest) * (Keys(order) * gone);
      assert Keys(rest) * fewer == Keys(rest) * (Keys(order) * fewer);
      WithoutSame(rest, gone, fewer);
    }
  }

  lemma {:induction false} WithoutNothing(order: seq<Key>)
    ensures Without(order, {}) == order
  {
    if order != [] {
      WithoutNothing(order[1..]);
    }
  }

  lemma {:induction false} WithoutTwice(order: seq<Key>, first: set<Key>, second: set<Key>)
    ensures Without(Without(order, first), second) == Without(order, first + second)
  {
    if order != [] {
      WithoutTwice(order[1..], first, second);
    }
  }

  lemma {:induction false} MoveToEndKeeps(order: seq<Key>, k: Key)
    requires NoDup(order) && k in Keys(order)
    ensures NoDup(MoveToEnd(order, k)) && Keys(MoveToEnd(order, k)) == Keys(order)
    ensures |MoveToEnd(order, k)| == |order|
  {
    WithoutKeys(order, {k});
    WithoutNoDup(order, {k});
    KeysAppend(Without(order, {k}), [k]);
    AppendNoDup(Without(order, {k}), [k]);
    KeysCount(order);
    KeysCount(MoveToEnd(order, k));
  }

  lemma {:induction false} Cardinality(a: set<nat>, b: set<nat>)
    requires a <= b
    ensures |b| == |a| + |b - a|
    ensures |a| == |b| ==> a == b
  {
    assert b == a + (b - a);
  }

  // What a trim does

  /** An eviction sweep takes as many entries as it must, and stops either at the target or when
      only pinned keys are left. */
  lemma {:induction false} TrimWorks(c: Cache, target: nat)
    requires c.Valid()
    ensures var t := Trim(c, target);
      && t.cache.Valid()
      && NoDup(Victims(c, target))
      && |t.cache.order| == |c.order| - |t.evicted|
      && (|t.cache.order| <= target || Without(t.cache.order, c.Busy()) == [])
      && (t.evicted != [] ==> |t.cache.order| >= target)
  {
    var busy, candidates, victims := c.Busy(), Without(c.order, c.Busy()), Victims(c, target);
    var gone := Keys(victims);
    WithoutNoDup(c.order, busy);
    assert candidates == victims + candidates[|victims|..];
    AppendNoDup(victims, candidates[|victims|..]);
    KeysCount(victims);
    KeysCount(c.order);
    WithoutKeys(c.order, gone);
    WithoutNoDup(c.order, gone);
    Cardinality(gone, Keys(c.order));
    var t := Trim(c, target);
    if |t.cache.order| > target {
      assert victims == candidates;
      WithoutKeys(c.order, busy);
      WithoutKeys(t.cache.order, busy);
      assert Keys(Without(t.cache.order, busy)) == {};
    }
  }

  /** Eviction is least-recently-used: the victims are the unpinned keys among the oldest `n`. */
  lemma {:induction false} VictimsAreOldest(c: Cache, target: nat) returns (n: nat)
    ensures n <= |c.order| && Keys(Victims(c, target)) == Keys(c.order[..n]) - c.Busy()
  {
    n := PrefixOfWithout(c.order, c.Busy(), |Victims(c, target)|);
    WithoutKeys(c.order[..n], c.Busy());
  }

  lemma {:induction false} PrefixOfWithout(order: seq<Key>, gone: set<Key>, m: nat) returns (n: nat)
    requires m <= |Without(order, gone)|
    ensures n <= |order| && Without(order, gone)[..m] == Without(order[..n], gone)
  {
    if m == 0 {
      n := 0;
    } else if order[0] in gone {
      n := PrefixOfWithout(order[1..], gone, m);
      n := n + 1;
      assert order[..n][1..] == order[1..][..n - 1];
    } else {
      n := PrefixOfWithout(order[1..], gone, m - 1);
      n := n + 1;
      assert order[..n][1..] == order[1..][..n - 1];
    }
  }
}
