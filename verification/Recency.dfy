/** What the cache holds when calls run one after another, `acquire` and `acquire_context` mixed: the
    most recently used keys, as many as fit. */
module Recency {
  import opened Wrappers
  import opened CacheModel
  import opened CacheOps

  /** A request of a key: `acquire`, or a whole `acquire_context` block that ends normally. */
  datatype Request = Acquire(k: Key) | Block(k: Key)

  function Served(c: Cache, req: Request, opens: Handle): (r: Outcome)
    requires c.Valid()
    ensures r.cache.Valid()
  {
    LookupKeepsValid(c, req.k);
    InsertKeepsValid(c, req.k, opens);
    match req
    case Acquire(k) => Outcome(Acquired(c, k, opens).cache, Acquired(c, k, opens).evicted)
    case Block(k) =>
      LookupKeepsValid(Pin(c, k), k);
      InsertKeepsValid(Pin(c, k), k, opens);
      var e := BlockEntered(c, k, opens);
      var u := Unheld(e.cache, k);
      UnheldKeepsValid(e.cache, k);
      Outcome(u.cache, e.evicted + u.closed)
  }

  lemma {:induction false} UnheldKeepsValid(c: Cache, k: Key)
    requires c.Valid()
    ensures Unheld(c, k).cache.Valid()
  {
    UnpinKeepsValid(c, k);
    TrimWorks(Unpin(c, k).cache, c.maxsize);
  }

  /** The cache after a run of requests; request `i` would open handle `first + i`. */
  function Requested(c: Cache, reqs: seq<Request>, first: Handle): (d: Cache)
    requires c.Valid()
    ensures d.Valid()
  {
    if reqs == [] then c
    else Served(Requested(c, reqs[..|reqs| - 1], first), reqs[|reqs| - 1], first + (|reqs| - 1)).cache
  }

  /** The keys requested so far. */
  function Asked(reqs: seq<Request>): set<Key> {
    if reqs == [] then {} else Asked(reqs[..|reqs| - 1]) + {reqs[|reqs| - 1].k}
  }

  /** Every key requested so far, once each, the most recently requested last. */
  function ByLastUse(reqs: seq<Request>): seq<Key> {
    if reqs == [] then []
    else MoveToEnd(ByLastUse(reqs[..|reqs| - 1]), reqs[|reqs| - 1].k)
  }

  function LastOf(s: seq<Key>, n: nat): seq<Key> {
    if |s| <= n then s else s[|s| - n..]
  }

  lemma {:induction false} MovedKeys(s: seq<Key>, k: Key)
    requires NoDup(s)
    ensures NoDup(MoveToEnd(s, k)) && Keys(MoveToEnd(s, k)) == Keys(s) + {k}
  {
    WithoutKeys(s, {k});
    WithoutNoDup(s, {k});
    AppendNoDup(Without(s, {k}), [k]);
    KeysAppend(Without(s, {k}), [k]);
  }

  lemma {:induction false} ByLastUseKeys(reqs: seq<Request>)
    ensures NoDup(ByLastUse(reqs)) && Keys(ByLastUse(reqs)) == Asked(reqs)
  {
    if reqs != [] {
      ByLastUseKeys(reqs[..|reqs| - 1]);
      MovedKeys(ByLastUse(reqs[..|reqs| - 1]), reqs[|reqs| - 1].k);
    }
  }

  /** No pin and no parked handle left over, and no more keys than fit. */
  ghost predicate Quiet(c: Cache) {
    c.Valid() && c.pins == map[] && c.parked == map[] && |c.order| <= c.maxsize
  }

  lemma {:induction false} AcquireKeepsQuiet(c: Cache, k: Key, opens: Handle)
    requires Quiet(c)
    ensures Quiet(Acquired(c, k, opens).cache)
  {
    LookupKeepsValid(c, k);
    InsertKeepsValid(c, k, opens);
    if k in c.slots {
      MoveToEndKeeps(c.order, k);
    } else {
      TrimKeepsRecent(c, c.maxsize - 1);
    }
  }

  /** With no other read in flight a whole block does what `acquire` does, to the cache and to
      `on_evict`: its own pin neither keeps the key's recency back nor spares another entry. */
  lemma {:induction false} BlockIsAcquire(c: Cache, k: Key, opens: Handle)
    requires Quiet(c)
    ensures Served(c, Block(k), opens) == Served(c, Acquire(k), opens)
    ensures Quiet(Served(c, Acquire(k), opens).cache)
  {
    var p, d := Pin(c, k), Acquired(c, k, opens);
    AcquireKeepsQuiet(c, k, opens);
    if k !in c.slots {
      PinnedElsewhere(c, k);
    }
    assert BlockEntered(c, k, opens) == Trimmed(d.cache.(pins := p.pins), d.evicted);
    OwnPinOnly(d.cache, k, p.pins);
    assert d.evicted + [] == d.evicted;
  }

  lemma {:induction false} OwnPinOnly(d: Cache, k: Key, pins: map<Key, nat>)
    requires Quiet(d) && pins == map[k := 1]
    ensures Unheld(d.(pins := pins), k) == Outcome(d, [])
  {
    assert pins - {k} == map[];
    assert d.parked - {k} == map[];
  }

  lemma {:induction false} PinnedElsewhere(c: Cache, k: Key)
    requires c.Valid() && c.pins == map[] && k !in c.slots
    ensures var t, u := Trim(c, c.maxsize - 1), Trim(Pin(c, k), c.maxsize - 1);
      u == Trimmed(t.cache.(pins := Pin(c, k).pins), t.evicted)
  {
    assert Keys(c.order) * c.Busy() == Keys(c.order) * Pin(c, k).Busy();
    WithoutSame(c.order, c.Busy(), Pin(c, k).Busy());
  }

  /** Without pins, trimming keeps the recent end. */
  lemma {:induction false} TrimKeepsRecent(c: Cache, target: nat)
    requires c.Valid() && c.pins == map[]
    ensures Trim(c, target).cache.order == LastOf(c.order, target)
  {
    assert c.Busy() == {};
    WithoutNothing(c.order);
    var n := |Victims(c, target)|;
    assert Victims(c, target) == c.order[..n];
    DropsPrefix(c.order, n);
  }

  lemma {:induction false} DropsPrefix(order: seq<Key>, n: nat)
    requires NoDup(order) && n <= |order|
    ensures Without(order, Keys(order[..n])) == order[n..]
  {
    var a, b := order[..n], order[n..];
    assert order == a + b;
    AppendNoDup(a, b);
    WithoutAppend(a, b, Keys(a));
    WithoutSame(b, Keys(a), {});
    WithoutNothing(b);
    WithoutKeys(a, Keys(a));
  }

  /** Where the last `n` of a sequence begin. */
  predicate IsTail(front: seq<Key>, tail: seq<Key>, n: nat) {
    |tail| == n || (front == [] && |tail| <= n)
  }

  lemma {:induction false} LastOfTail(front: seq<Key>, tail: seq<Key>, n: nat)
    requires IsTail(front, tail, n)
    ensures LastOf(front + tail, n) == tail
  {}

  lemma {:induction false} LastOfSnoc(front: seq<Key>, tail: seq<Key>, k: Key, n: nat)
    requires IsTail(front, tail, n) && 1 <= n
    ensures LastOf(front + tail + [k], n) == LastOf(tail, n - 1) + [k]
  {}

  lemma {:induction false} SplitTail(s: seq<Key>, n: nat) returns (front: seq<Key>)
    ensures s == front + LastOf(s, n) && IsTail(front, LastOf(s, n), n)
  {
    front := s[..|s| - |LastOf(s, n)|];
  }

  /** Moving a key to the end and then keeping the last `n` is keeping the last `n` first, when the
      key is among them. */
  lemma {:induction false} MoveWithinLast(s: seq<Key>, n: nat, k: Key)
    requires NoDup(s) && k in Keys(LastOf(s, n))
    ensures MoveToEnd(LastOf(s, n), k) == LastOf(MoveToEnd(s, k), n)
  {
    var tail := LastOf(s, n);
    var front := SplitTail(s, n);
    AppendNoDup(front, tail);
    WithoutAppend(front, tail, {k});
    assert Keys(front) * {k} == Keys(front) * {};
    WithoutSame(front, {k}, {});
    WithoutNothing(front);
    MoveToEndKeeps(tail, k);
    assert MoveToEnd(s, k) == front + MoveToEnd(tail, k);
    LastOfTail(front, MoveToEnd(tail, k), n);
  }

  /** A key outside the last `n` joins them, the oldest of them making room. */
  lemma {:induction false} JoinLast(s: seq<Key>, n: nat, k: Key)
    requires k !in Keys(LastOf(s, n)) && 1 <= n
    ensures LastOf(LastOf(s, n), n - 1) + [k] == LastOf(MoveToEnd(s, k), n)
  {
    var tail := LastOf(s, n);
    var front := SplitTail(s, n);
    WithoutAppend(front, tail, {k});
    assert Keys(tail) * {k} == Keys(tail) * {};
    WithoutSame(tail, {k}, {});
    WithoutNothing(tail);
    assert MoveToEnd(s, k) == Without(front, {k}) + tail + [k];
    LastOfSnoc(Without(front, {k}), tail, k, n);
  }

  /** On any run of requests to an empty cache, `acquire` calls and whole blocks in any order, exactly
      the most recently used keys are held, up to the limit, in recency order. */
  lemma {:induction false} HoldsMostRecent(maxsize: nat, reqs: seq<Request>, first: Handle)
    requires 1 <= maxsize
    ensures var c := Requested(New(maxsize), reqs, first);
      c.order == LastOf(ByLastUse(reqs), maxsize) && Quiet(c) && c.maxsize == maxsize
  {
    if reqs != [] {
      var front, k := reqs[..|reqs| - 1], reqs[|reqs| - 1].k;
      var c, s := Requested(New(maxsize), front, first), ByLastUse(front);
      HoldsMostRecent(maxsize, front, first);
      ByLastUseKeys(front);
      BlockIsAcquire(c, k, first + (|reqs| - 1));
      if k in c.slots {
        MoveWithinLast(s, maxsize, k);
      } else {
        TrimKeepsRecent(c, maxsize - 1);
        JoinLast(s, maxsize, k);
      }
    }
  }

  lemma {:induction false} LastOfLast(s: seq<Key>, small: nat, large: nat)
    requires small <= large
    ensures LastOf(LastOf(s, large), small) == LastOf(s, small)
    ensures Keys(LastOf(s, small)) <= Keys(LastOf(s, large))
  {
    var tail := LastOf(s, large);
    var front := SplitTail(tail, small);
    KeysAppend(front, LastOf(tail, small));
  }

  /** On the same requests, whatever a smaller cache holds a larger one holds too, at the same end
      of its recency order. */
  lemma {:induction false} SmallerWithinLarger(small: nat, large: nat, reqs: seq<Request>, first: Handle)
    requires 1 <= small <= large
    ensures var a, b := Requested(New(small), reqs, first), Requested(New(large), reqs, first);
      a.order == LastOf(b.order, small) && a.slots.Keys <= b.slots.Keys
  {
    HoldsMostRecent(small, reqs, first);
    HoldsMostRecent(large, reqs, first);
    LastOfLast(ByLastUse(reqs), small, large);
  }

  // When the next request hits

  /** The distinct keys requested since `k` was last requested. */
  function Since(reqs: seq<Request>, k: Key): set<Key> {
    if reqs == [] || reqs[|reqs| - 1].k == k then {}
    else Since(reqs[..|reqs| - 1], k) + {reqs[|reqs| - 1].k}
  }

  /** Moving another key to the end adds it to what comes after a key. */
  lemma {:induction false} AfterMove(s: seq<Key>, j: nat, last: Key) returns (i: nat)
    requires j < |s| && s[j] != last
    ensures i < |MoveToEnd(s, last)| && MoveToEnd(s, last)[i] == s[j]
    ensures Keys(MoveToEnd(s, last)[i + 1..]) == Keys(s[j + 1..]) + {last}
  {
    var a, b := s[..j], s[j + 1..];
    assert s == a + ([s[j]] + b);
    WithoutAppend(a, [s[j]] + b, {last});
    WithoutAppend([s[j]], b, {last});
    i := |Without(a, {last})|;
    assert Without([s[j]], {last}) == [s[j]];
    assert MoveToEnd(s, last)[i + 1..] == Without(b, {last}) + [last];
    WithoutKeys(b, {last});
    KeysAppend(Without(b, {last}), [last]);
  }

  /** In recency order, what comes after a key is what was requested since. */
  lemma {:induction false} AfterIsSince(reqs: seq<Request>, k: Key) returns (i: nat)
    requires k in Asked(reqs)
    ensures i < |ByLastUse(reqs)| && ByLastUse(reqs)[i] == k
    ensures Keys(ByLastUse(reqs)[i + 1..]) == Since(reqs, k)
  {
    var front, last := reqs[..|reqs| - 1], reqs[|reqs| - 1].k;
    if last == k {
      i := |ByLastUse(reqs)| - 1;
    } else {
      var j := AfterIsSince(front, k);
      i := AfterMove(ByLastUse(front), j, last);
    }
  }

  /** Element `i` is among the last `n` exactly when fewer than `n` come after it. */
  lemma {:induction false} AmongLast(s: seq<Key>, n: nat, i: nat)
    requires NoDup(s) && i < |s|
    ensures s[i] in Keys(LastOf(s, n)) <==> |Keys(s[i + 1..])| < n
  {
    TailCount(s, i + 1);
    KeyInTail(s, if |s| <= n then 0 else |s| - n, i);
  }

  /** The next request of a key is a hit exactly when the key has been requested before and fewer
      than `maxsize` distinct other keys have been requested since. */
  lemma {:induction false} HitExactlyWhen(maxsize: nat, reqs: seq<Request>, first: Handle, k: Key)
    requires 1 <= maxsize
    ensures k in Requested(New(maxsize), reqs, first).slots
        <==> k in Asked(reqs) && |Since(reqs, k)| < maxsize
  {
    var s := ByLastUse(reqs);
    HoldsMostRecent(maxsize, reqs, first);
    ByLastUseKeys(reqs);
    LastOfLast(s, maxsize, |s| + maxsize);
    if k in Asked(reqs) {
      var i := AfterIsSince(reqs, k);
      AmongLast(s, maxsize, i);
    }
  }

  lemma {:induction false} TailCount(s: seq<Key>, i: nat)
    requires NoDup(s) && i <= |s|
    ensures |Keys(s[i..])| == |s| - i
  {
    assert s == s[..i] + s[i..];
    AppendNoDup(s[..i], s[i..]);
    KeysCount(s[i..]);
  }

  lemma {:induction false} KeyInTail(s: seq<Key>, cut: nat, i: nat)
    requires NoDup(s) && cut <= |s| && i < |s|
    ensures s[i] in Keys(s[cut..]) <==> i >= cut
  {
    assert s == s[..cut] + s[cut..];
    AppendNoDup(s[..cut], s[cut..]);
    if i < cut {
      KeyAt(s[..cut], i);
    } else {
      KeyAt(s[cut..], i - cut);
    }
  }

  lemma {:induction false} KeyAt(s: seq<Key>, i: nat)
    requires i < |s|
    ensures s[i] in Keys(s)
  {
    KeysOfPrefix(s, i);
  }
}
