/** What holds in every state some interleaving can reach. */
module HandleSafety {
  import opened Wrappers
  import opened CacheModel
  import opened CacheOps
  import opened HandleProtocol
  import opened HandlePlaces
  import opened HandleInvariants

  /** The world after a run of atomic steps, `None` when one of them could not be taken. */
  ghost function After(w: World, steps: seq<Step>): (r: Option<World>)
    requires w.cache.Valid()
    ensures r.Some? ==> r.value.cache.Valid()
    decreases |steps|
  {
    if steps == [] then Some(w)
    else if !Enabled(w, steps[0]) then None
    else
      ValidKept(w, steps[0]);
      After(Do(w, steps[0]), steps[1..])
  }

  /** `w` is what some interleaving of the threads makes of an empty cache. */
  ghost predicate Reachable(w: World) {
    exists maxsize, steps :: 1 <= maxsize && After(Init(maxsize), steps) == Some(w)
  }

  lemma {:induction false} RunKeeps(w: World, where: map<Handle, Place>, steps: seq<Step>)
    returns (where': map<Handle, Place>)
    requires Inv(w, where) && After(w, steps).Some?
    ensures Inv(After(w, steps).value, where')
    decreases |steps|
  {
    if steps == [] {
      where' := where;
    } else {
      StepKeeps(w, where, steps[0]);
      where' := RunKeeps(Do(w, steps[0]), Rehoused(w, where, steps[0]), steps[1..]);
    }
  }

  lemma {:induction false} InitHolds(maxsize: nat)
    requires 1 <= maxsize
    ensures Inv(Init(maxsize), map[])
  {}

  lemma {:induction false} Invariant(w: World) returns (where: map<Handle, Place>)
    requires Reachable(w)
    ensures Inv(w, where)
  {
    var maxsize, steps :| 1 <= maxsize && After(Init(maxsize), steps) == Some(w);
    InitHolds(maxsize);
    where := RunKeeps(Init(maxsize), map[], steps);
  }

  // No use after close

  /** The handle a reader inside `acquire_context` goes through is not closed, and is on no thread's
      list of handles about to be closed. */
  lemma {:induction false} NoUseAfterClose(w: World, t: Tid)
    requires Reachable(w) && t in w.threads && InUse(w.threads[t]).Some?
    ensures var h := InUse(w.threads[t]).value.handle;
      h !in w.closed && forall u, i :: At(w, Queue(u, i)) != Some(h)
  {
    var where := Invariant(w);
    var e := InUse(w.threads[t]).value;
    assert Covered(where, e);
    forall i | 0 <= i < |w.closed|
      ensures w.closed[i] != e.handle
    {
      assert At(w, Shut(i)) == Some(w.closed[i]);
    }
  }

  /** `_pins[k]` is the number of threads between pin and unpin on `k`, `_refcounts[k]` the number
      of auto-release managers of `k` whose finalizer has not fired. */
  lemma {:induction false} CountsAreExact(w: World, k: Key)
    requires Reachable(w)
    ensures w.cache.PinCount(k) == |Pinners(w.threads, k)|
    ensures w.cache.RefCount(k) == |Owners(w.managers, k)|
  {
    var where := Invariant(w);
  }

  // Conservation

  /** Every handle opened so far is in exactly one place, and nothing else is anywhere. */
  lemma {:induction false} ExactlyOnePlace(w: World, h: Handle)
    requires Reachable(w)
    ensures h < w.minted ==> exists p :: At(w, p) == Some(h)
    ensures forall p, q :: At(w, p) == Some(h) && At(w, q) == Some(h) ==> p == q && h < w.minted
  {
    var where := Invariant(w);
    if h < w.minted {
      assert At(w, where[h]) == Some(h);
    }
    forall p, q | At(w, p) == Some(h) && At(w, q) == Some(h)
      ensures p == q && h < w.minted
    {
      assert where[h] == p;
    }
  }

  /** No handle is closed twice, and none that was closed is abandoned. */
  lemma {:induction false} ClosedOnce(w: World)
    requires Reachable(w)
    ensures forall i, j :: 0 <= i < j < |w.closed| ==> w.closed[i] != w.closed[j]
    ensures forall h :: h in w.closed ==> h !in w.orphans
  {
    forall i, j | 0 <= i < j < |w.closed|
      ensures w.closed[i] != w.closed[j]
    {
      ExactlyOnePlace(w, w.closed[i]);
      assert At(w, Shut(i)) == Some(w.closed[i]) && At(w, Shut(j)) == Some(w.closed[j]);
    }
    forall h | h in w.closed
      ensures h !in w.orphans
    {
      ExactlyOnePlace(w, h);
      var i :| 0 <= i < |w.closed| && w.closed[i] == h;
      assert At(w, Shut(i)) == Some(h);
      forall j | 0 <= j < |w.orphans|
        ensures w.orphans[j] != h
      {
        assert At(w, Orphan(j)) == Some(w.orphans[j]);
      }
    }
  }

  /** The four ways a handle is abandoned: a pinned value displaced by an insert, an occupied
      parking place parked over (by `close` or by the last finalizer), a reader's failed block
      dropping its slot, and a close that raises with more of its list to go. */
  predicate Abandoning(w: World, s: Step)
    requires Enabled(w, s)
  {
    match s
    case Install(t) => var p := w.threads[t]; p.k in w.cache.slots && w.cache.slots[p.k] != p.h && w.cache.Pinned(p.k)
    case BeginClose(t, k) => ParksOver(w.cache, k)
    case Collect(t, m) => var k := w.managers[m]; w.cache.RefCount(k) == 1 && ParksOver(w.cache, k)
    case FailRead(t) => !w.threads[t].wasCached && w.threads[t].k in w.cache.slots
    case CloseRaises(t) => w.threads[t].next + 1 < |w.threads[t].list|
    case _ => false
  }

  predicate ParksOver(c: Cache, k: Key) {
    k in c.slots && c.Pinned(k) && k in c.parked
  }

  /** A step abandons a handle exactly when it is one of those, and never takes one back. */
  lemma {:induction false} OrphanedOnlyBy(w: World, s: Step)
    requires Reachable(w) && Enabled(w, s)
    ensures w.cache.Valid()
    ensures w.orphans <= Do(w, s).orphans
    ensures Do(w, s).orphans == w.orphans <==> !Abandoning(w, s)
  {
    var where := Invariant(w);
    if Abandoning(w, s) {
      AbandoningGrows(w, s);
    } else {
      NotAbandoning(w, where, s);
    }
  }

  lemma {:induction false} AbandoningGrows(w: World, s: Step)
    requires Enabled(w, s) && w.cache.Valid() && Abandoning(w, s)
    ensures w.orphans < Do(w, s).orphans
  {
    if s.CloseRaises? {
      var p := w.threads[s.t];
      assert |Handles(p.list[p.next + 1..])| > 0;
    }
  }

  // A slot dropped under another reader

  lemma {:induction false} AfterSnoc(w: World, steps: seq<Step>, s: Step)
    requires w.cache.Valid() && After(w, steps).Some? && Enabled(After(w, steps).value, s)
    ensures After(w, steps + [s]) == Some(Do(After(w, steps).value, s))
    decreases |steps|
  {
    if steps == [] {
      ValidKept(w, s);
      assert (steps + [s])[1..] == [];
    } else {
      ValidKept(w, steps[0]);
      assert (steps + [s])[1..] == steps[1..] + [s];
      AfterSnoc(Do(w, steps[0]), steps[1..], s);
    }
  }

  lemma {:induction false} OneMore(w: World, s: Step) returns (w': World)
    requires Reachable(w) && Enabled(w, s)
    ensures w.cache.Valid() && Reachable(w') && w' == Do(w, s)
  {
    var maxsize, steps :| 1 <= maxsize && After(Init(maxsize), steps) == Some(w);
    AfterSnoc(Init(maxsize), steps, s);
    w' := Do(w, s);
  }

  /** Two readers of key 0 and what its slot holds. */
  function TwoReaders(held: Option<Handle>, a: Phase, b: Phase, minted: nat, orphans: seq<Handle>): World {
    World(Cache(if held.Some? then [0] else [], if held.Some? then map[0 := held.value] else map[], 2,
                map[0 := 2], map[], map[]),
          map[0 := a, 1 := b], map[], minted, [], orphans)
  }

  lemma {:induction false} ReadersChange(held: Option<Handle>, a: Phase, b: Phase, minted: nat, orphans: seq<Handle>,
                                         p: Phase)
    ensures var w := TwoReaders(held, a, b, minted, orphans);
      && w.threads[0 := p] == TwoReaders(held, p, b, minted, orphans).threads
      && w.threads[1 := p] == TwoReaders(held, a, p, minted, orphans).threads
  {}

  lemma {:induction false} BothEntered() returns (w: World)
    ensures Reachable(w) && w == TwoReaders(None, Entered(0), Entered(0), 0, [])
  {
    w := Init(2);
    assert After(w, []) == Some(w);
    w := OneMore(w, BeginRead(0, 0));
    w := OneMore(w, BeginRead(1, 0));
    assert w.cache.pins == map[0 := 2] && w.threads == map[0 := Entered(0), 1 := Entered(0)];
  }

  lemma {:induction false} BothMissed() returns (w: World)
    ensures Reachable(w) && w == TwoReaders(None, Missed(0, true), Missed(0, true), 0, [])
  {
    w := BothEntered();
    w := OneMore(w, Find(0));
    ReadersChange(None, Entered(0), Entered(0), 0, [], Missed(0, true));
    w := OneMore(w, Find(1));
    ReadersChange(None, Missed(0, true), Entered(0), 0, [], Missed(0, true));
  }

  lemma {:induction false} BothOpened() returns (w: World)
    ensures Reachable(w) && w == TwoReaders(None, Opened(0, 0, true), Opened(0, 1, true), 2, [])
  {
    w := BothMissed();
    w := OneMore(w, OpenWorks(0));
    ReadersChange(None, Missed(0, true), Missed(0, true), 0, [], Opened(0, 0, true));
    w := OneMore(w, OpenWorks(1));
    ReadersChange(None, Opened(0, 0, true), Missed(0, true), 1, [], Opened(0, 1, true));
  }

  lemma {:induction false} FirstInstalled() returns (w: World)
    ensures Reachable(w) && w == TwoReaders(Some(0), Closing([], 0, Use(0, 0)), Opened(0, 1, true), 2, [])
  {
    w := BothOpened();
    var i := Insert(w.cache, 0, 0);
    assert i.evicted == [] && i.cache.order == [0] && i.cache.slots == map[0 := 0];
    ReadersChange(None, Opened(0, 0, true), Opened(0, 1, true), 2, [], Closing([], 0, Use(0, 0)));
    w := OneMore(w, Install(0));
  }

  lemma {:induction false} FirstReads() returns (w: World)
    ensures Reachable(w) && w == TwoReaders(Some(0), Reading(0, 0, false), Opened(0, 1, true), 2, [])
  {
    w := FirstInstalled();
    ReadersChange(Some(0), Closing([], 0, Use(0, 0)), Opened(0, 1, true), 2, [], Reading(0, 0, false));
    w := OneMore(w, ClosesDone(0));
  }

  /** The second install displaces the first reader's handle, which is pinned. */
  lemma {:induction false} Displacing(w: World)
    requires w == TwoReaders(Some(0), Reading(0, 0, false), Opened(0, 1, true), 2, []) && w.cache.Valid()
    ensures Insert(w.cache, 0, 1) == Trimmed(TwoReaders(Some(1), Leaving(0), Leaving(0), 2, []).cache, [])
    ensures Displaced(w.cache, 0, 1) == [0]
  {
    assert MoveToEnd([0], 0) == [0];
  }

  lemma {:induction false} SecondInstalled() returns (w: World)
    ensures Reachable(w) && w == TwoReaders(Some(1), Reading(0, 0, false), Closing([], 0, Use(0, 1)), 2, [0])
  {
    w := FirstReads();
    var where := Invariant(w);
    Displacing(w);
    ReadersChange(Some(0), Reading(0, 0, false), Opened(0, 1, true), 2, [], Closing([], 0, Use(0, 1)));
    w := OneMore(w, Install(1));
  }

  lemma {:induction false} BothRead() returns (w: World)
    ensures Reachable(w) && w == TwoReaders(Some(1), Reading(0, 0, false), Reading(0, 1, false), 2, [0])
  {
    w := SecondInstalled();
    ReadersChange(Some(1), Reading(0, 0, false), Closing([], 0, Use(0, 1)), 2, [0], Reading(0, 1, false));
    w := OneMore(w, ClosesDone(1));
  }

  /** With the manager's lock off, two readers can both miss and both open.  When the block of the
      first then raises, the slot it drops holds the handle the second is reading. */
  lemma {:induction false} DropsAnothersSlot() returns (w: World)
    ensures Reachable(w) && Enabled(w, FailRead(0)) && 1 in w.threads
    ensures InUse(w.threads[0]) == Some(Entry(0, 0)) && InUse(w.threads[1]) == Some(Entry(0, 1))
    ensures 0 in w.cache.slots && w.cache.slots[0] == 1
    ensures 0 !in DoFailRead(w, 0).cache.slots && 1 in DoFailRead(w, 0).orphans
  {
    w := BothRead();
    assert DoFailRead(w, 0).orphans == [0, 1];
  }

  // Parking

  /** A parked handle has a reader of its key to wait for. */
  lemma {:induction false} ParkedHasReader(w: World, k: Key)
    requires Reachable(w) && k in w.cache.parked
    ensures exists t :: t in w.threads && PinOf(w.threads[t]) == Some(k)
  {
    var where := Invariant(w);
    assert w.cache.PinCount(k) == |Pinners(w.threads, k)| > 0;
    var t :| t in Pinners(w.threads, k);
  }

  /** The last reader to leave takes the parked handle off to be closed; any other leaves it. */
  lemma {:induction false} LastReaderCloses(w: World, t: Tid)
    requires Reachable(w) && Enabled(w, Leave(t)) && w.threads[t].k in w.cache.parked
    ensures var k, w' := w.threads[t].k, DoLeave(w, t);
      if Pinners(w.threads, k) == {t} then
        k !in w'.cache.parked && w'.threads[t].list == [Entry(k, w.cache.parked[k])]
      else
        w'.cache.parked == w.cache.parked && w'.threads[t].list == []
  {
    var k := w.threads[t].k;
    var where := Invariant(w);
    assert PinIn(w.threads, t) == Some(k);
    LeaverCounted(w, t);
    assert t in Pinners(w.threads, k) && w.cache.PinCount(k) == |Pinners(w.threads, k)|;
    if Pinners(w.threads, k) != {t} {
      var u :| u in Pinners(w.threads, k) && u != t;
      TwoPinners(w, t, u, k);
    }
  }

  // Finalizers

  lemma {:induction false} SharedReleases(c: Cache, k: Key)
    requires c.RefCount(k) >= 2
    ensures var r := Release(c, k); r.0.slots == c.slots && r.0.parked == c.parked && r.1 == None
  {}

  lemma {:induction false} LastReleases(c: Cache, k: Key)
    requires c.RefCount(k) == 1
    ensures var r := Release(c, k);
      && r.0.slots == c.slots - {k}
      && r.1 == (if k in c.slots && !c.Pinned(k) then Some(c.slots[k]) else None)
      && r.0.parked == if k in c.slots && c.Pinned(k) then c.parked[k := c.slots[k]] else c.parked
  {}

  /** A manager is alone on its key exactly when the key's reference count is one. */
  lemma {:induction false} SharersCounted(w: World, m: Mid)
    requires RefsCounted(w) && m in w.managers
    ensures var k := w.managers[m];
      && w.cache.RefCount(k) >= 1
      && (w.cache.RefCount(k) >= 2 <==> exists n :: n in w.managers && n != m && w.managers[n] == k)
  {
    var k := w.managers[m];
    var owners := Owners(w.managers, k);
    assert w.cache.RefCount(k) == |owners| && m in owners;
    if n :| n in w.managers && n != m && w.managers[n] == k {
      assert {m, n} <= owners;
      Cardinality({m, n}, owners);
    } else {
      assert owners == {m};
    }
  }

  /** A finalizer leaves a slot another auto-release manager shares alone; the last one empties it,
      its handle listed for closing, or parked while somebody reads. */
  lemma {:induction false} FinalizerSharesOrReleases(w: World, t: Tid, m: Mid)
    requires Reachable(w) && Enabled(w, Collect(t, m))
    ensures var k, c, w' := w.managers[m], w.cache, DoCollect(w, t, m);
      if exists n :: n in w.managers && n != m && w.managers[n] == k then
        w'.cache.slots == c.slots && w'.cache.parked == c.parked && w'.threads[t].list == []
      else
        && w'.cache.slots == c.slots - {k}
        && (k in c.slots && !c.Pinned(k) ==> w'.threads[t].list == [Entry(k, c.slots[k])])
        && (k in c.slots && c.Pinned(k) ==> k in w'.cache.parked && w'.cache.parked[k] == c.slots[k])
  {
    var where := Invariant(w);
    var k := w.managers[m];
    SharersCounted(w, m);
    if w.cache.RefCount(k) >= 2 {
      SharedReleases(w.cache, k);
    } else {
      LastReleases(w.cache, k);
    }
  }

  // Size

  /** Unless some thread still owes a sweep, the cache holds at most its limit, or one more than
      the pinned keys. */
  lemma {:induction false} SizeWithoutDebt(w: World)
    requires Reachable(w)
    requires forall t :: t in w.threads ==> !OwesSweep(w.threads[t], w.cache.maxsize)
    ensures |w.cache.order| <= w.cache.maxsize || |w.cache.order| <= 1 + |w.cache.pins|
  {
    var where := Invariant(w);
    BoundedSize(w.cache);
  }

  // At rest

  /** When no thread is in the middle of anything: nothing is parked, the cache is within its
      limit, and every handle is held, closed or abandoned. */
  lemma {:induction false} AtRest(w: World)
    requires Reachable(w) && w.threads == map[]
    ensures w.cache.parked == map[]
    ensures |w.cache.order| <= w.cache.maxsize
    ensures forall h: Handle :: h < w.minted ==> h in w.cache.slots.Values || h in w.closed || h in w.orphans
  {
    var where := Invariant(w);
    assert forall k :: Pinners(w.threads, k) == {};
    forall k
      ensures !w.cache.Pinned(k) && k !in w.cache.parked
    {
      assert w.cache.PinCount(k) == |Pinners(w.threads, k)|;
    }
    assert w.cache.Busy() == {};
    BoundedSize(w.cache);
    forall h: Handle | h < w.minted
      ensures h in w.cache.slots.Values || h in w.closed || h in w.orphans
    {
      assert At(w, where[h]) == Some(h);
    }
  }

  /** No step of the run abandons a handle. */
  ghost predicate Clean(w: World, steps: seq<Step>)
    requires w.cache.Valid() && After(w, steps).Some?
    decreases |steps|
  {
    steps == [] ||
    (!Abandoning(w, steps[0]) &&
     (ValidKept(w, steps[0]); Clean(Do(w, steps[0]), steps[1..])))
  }

  /** A run with none of the four abandoning steps leaks nothing: at rest, every handle ever opened
      is in the cache or has been closed once. */
  lemma {:induction false} CleanRunsLeakNothing(maxsize: nat, steps: seq<Step>)
    requires 1 <= maxsize && After(Init(maxsize), steps).Some? && Clean(Init(maxsize), steps)
    requires After(Init(maxsize), steps).value.threads == map[]
    ensures var w := After(Init(maxsize), steps).value;
      forall h: Handle :: h < w.minted ==> h in w.cache.slots.Values || h in w.closed
  {
    var w := After(Init(maxsize), steps).value;
    InitHolds(maxsize);
    CleanOrphans(Init(maxsize), map[], steps);
    AtRest(w);
  }

  lemma {:induction false} CleanOrphans(w: World, where: map<Handle, Place>, steps: seq<Step>)
    requires Inv(w, where) && After(w, steps).Some? && Clean(w, steps)
    ensures After(w, steps).value.orphans == w.orphans
    decreases |steps|
  {
    if steps != [] {
      var w', where' := Do(w, steps[0]), Rehoused(w, where, steps[0]);
      assert w'.orphans == w.orphans by {
        NotAbandoning(w, where, steps[0]);
      }
      assert Inv(w', where') by {
        StepKeeps(w, where, steps[0]);
      }
      CleanOrphans(w', where', steps[1..]);
    }
  }

  lemma {:induction false} NotAbandoning(w: World, where: map<Handle, Place>, s: Step)
    requires Inv(w, where) && Enabled(w, s) && !Abandoning(w, s)
    ensures Do(w, s).orphans == w.orphans
  {
    if s.Collect? {
      var k := w.managers[s.m];
      assert s.m in Owners(w.managers, k);
      assert w.cache.RefCount(k) == |Owners(w.managers, k)|;
    }
  }
}
