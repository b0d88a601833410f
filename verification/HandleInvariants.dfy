/** What every atomic step keeps, apart from the places of HandlePlaces. */
module HandleInvariants {
  import opened Wrappers
  import opened CacheModel
  import opened CacheOps
  import opened HandleProtocol
  import opened HandlePlaces

  // Pins count readers

  /** The thread a step runs on, if any. */
  function Actor(s: Step): Option<Tid> {
    match s
    case NewManager(_, _) => None
    case BeginRead(t, _) => Some(t)
    case BeginAcquire(t, _) => Some(t)
    case Find(t) => Some(t)
    case OpenWorks(t) => Some(t)
    case OpenFails(t) => Some(t)
    case Install(t) => Some(t)
    case CloseNext(t) => Some(t)
    case CloseRaises(t) => Some(t)
    case ClosesDone(t) => Some(t)
    case EndRead(t) => Some(t)
    case FailRead(t) => Some(t)
    case Leave(t) => Some(t)
    case ReadLimit(t) => Some(t)
    case DoSweep(t) => Some(t)
    case BeginResize(t, _) => Some(t)
    case BeginClose(t, _) => Some(t)
    case Collect(t, _) => Some(t)
  }

  function PinIn(threads: map<Tid, Phase>, t: Tid): Option<Key> {
    if t in threads then PinOf(threads[t]) else None
  }

  lemma {:induction false} OthersUntouched(w: World, s: Step, u: Tid)
    requires Enabled(w, s) && w.cache.Valid() && Actor(s) != Some(u)
    ensures u in Do(w, s).threads <==> u in w.threads
    ensures u in w.threads ==> Do(w, s).threads[u] == w.threads[u]
  {}

  predicate SameCounts(w: World, w': World) {
    && w'.cache.pins == w.cache.pins && w'.cache.refs == w.cache.refs
    && w'.cache.maxsize == w.cache.maxsize && w'.managers == w.managers
  }

  /** The steps that change a count: pins, references, or the limit. */
  predicate Counts(s: Step) {
    s.BeginRead? || s.Leave? || s.BeginResize? || s.NewManager? || s.Collect?
  }

  /** The steps that do not take the cache lock. */
  predicate Lockless(s: Step) {
    s.OpenWorks? || s.OpenFails? || s.CloseNext? || s.CloseRaises? || s.ClosesDone? || s.EndRead? || s.ReadLimit?
  }

  /** Only entering and leaving `acquire_context` change which key a thread keeps pinned. */
  lemma {:induction false} PinChange(w: World, s: Step)
    requires Enabled(w, s) && w.cache.Valid() && Actor(s).Some?
    ensures var t := Actor(s).value; var before, after := PinIn(w.threads, t), PinIn(Do(w, s).threads, t);
      && (s.BeginRead? ==> before == None && after == Some(s.k))
      && (s.Leave? ==> before == Some(w.threads[t].k) && after == None)
      && (!s.BeginRead? && !s.Leave? ==> before == after)
  {
    if Lockless(s) {
      PinStays(w, s);
    }
  }

  lemma {:induction false} PinStays(w: World, s: Step)
    requires Enabled(w, s) && w.cache.Valid() && Lockless(s)
    ensures Actor(s).Some? && PinIn(w.threads, Actor(s).value) == PinIn(Do(w, s).threads, Actor(s).value)
  {}

  lemma {:induction false} LocklessSame(w: World, s: Step)
    requires Enabled(w, s) && w.cache.Valid() && Lockless(s)
    ensures Do(w, s).cache == w.cache && Do(w, s).managers == w.managers
  {}

  lemma {:induction false} LookingSame(w: World, s: Step)
    requires Enabled(w, s) && w.cache.Valid() && (s.BeginAcquire? || s.Find? || s.FailRead?)
    ensures SameCounts(w, Do(w, s))
  {}

  lemma {:induction false} TakingSame(w: World, s: Step)
    requires Enabled(w, s) && w.cache.Valid() && (s.Install? || s.DoSweep? || s.BeginClose?)
    ensures SameCounts(w, Do(w, s))
  {}

  lemma {:induction false} CountsSame(w: World, s: Step)
    requires Enabled(w, s) && w.cache.Valid() && !Counts(s)
    ensures SameCounts(w, Do(w, s))
  {
    if Lockless(s) {
      LocklessSame(w, s);
    } else if s.BeginAcquire? || s.Find? || s.FailRead? {
      LookingSame(w, s);
    } else {
      TakingSame(w, s);
    }
  }

  lemma {:induction false} PinCountChange(w: World, s: Step, k: Key)
    requires Enabled(w, s) && w.cache.Valid()
    ensures !s.BeginRead? && !s.Leave? ==> Do(w, s).cache.pins == w.cache.pins
    ensures s.BeginRead? ==>
      Do(w, s).cache.PinCount(k) == w.cache.PinCount(k) + if k == s.k then 1 else 0
    ensures s.Leave? && w.cache.PinCount(w.threads[s.t].k) >= 1 ==>
      Do(w, s).cache.PinCount(k) == w.cache.PinCount(k) - if k == w.threads[s.t].k then 1 else 0
  {
    if !Counts(s) {
      CountsSame(w, s);
    }
  }

  /** Changing one thread changes the readers of a key by that thread only. */
  lemma {:induction false} PinnersChange(a: map<Tid, Phase>, b: map<Tid, Phase>, t: Tid, k: Key)
    requires forall u :: u != t ==> (u in a <==> u in b) && (u in a ==> a[u] == b[u])
    ensures |Pinners(b, k)| - (if PinIn(b, t) == Some(k) then 1 else 0)
         == |Pinners(a, k)| - (if PinIn(a, t) == Some(k) then 1 else 0)
  {
    SameBut(Pinners(a, k), Pinners(b, k), t);
    assert t in Pinners(a, k) <==> PinIn(a, t) == Some(k);
    assert t in Pinners(b, k) <==> PinIn(b, t) == Some(k);
  }

  lemma {:induction false} SameBut(a: set<Tid>, b: set<Tid>, t: Tid)
    requires forall u :: u != t ==> (u in a <==> u in b)
    ensures |b| - (if t in b then 1 else 0) == |a| - (if t in a then 1 else 0)
  {
    var others := a - {t};
    assert others == b - {t};
    assert a == if t in a then others + {t} else others;
    assert b == if t in b then others + {t} else others;
  }

  lemma {:induction false} LeaverCounted(w: World, t: Tid)
    requires PinsCounted(w) && PinIn(w.threads, t).Some?
    ensures w.cache.PinCount(PinIn(w.threads, t).value) >= 1 && w.cache.Pinned(PinIn(w.threads, t).value)
  {
    var k := PinIn(w.threads, t).value;
    assert t in Pinners(w.threads, k);
    assert w.cache.PinCount(k) == |Pinners(w.threads, k)|;
  }

  /** A step keeps `_pins[k]` equal to the number of threads between pin and unpin on `k`. */
  lemma {:induction false} PinsKept(w: World, s: Step)
    requires Enabled(w, s) && w.cache.Valid() && PinsCounted(w)
    ensures PinsCounted(Do(w, s))
  {
    var w' := Do(w, s);
    forall k
      ensures w'.cache.PinCount(k) == |Pinners(w'.threads, k)|
    {
      PinCountChange(w, s, k);
      assert w.cache.PinCount(k) == |Pinners(w.threads, k)|;
      if Actor(s).Some? {
        var t := Actor(s).value;
        PinChange(w, s);
        if s.Leave? {
          LeaverCounted(w, t);
        }
        forall u | u != t
          ensures (u in w.threads <==> u in w'.threads) && (u in w.threads ==> w.threads[u] == w'.threads[u])
        {
          OthersUntouched(w, s, u);
        }
        PinnersChange(w.threads, w'.threads, t, k);
      }
    }
  }

  // Reference counts count registered managers

  lemma {:induction false} RefsKept(w: World, s: Step)
    requires Enabled(w, s) && w.cache.Valid() && RefsCounted(w)
    ensures RefsCounted(Do(w, s))
  {
    var w' := Do(w, s);
    forall k
      ensures w'.cache.RefCount(k) == |Owners(w'.managers, k)|
    {
      match s
      case NewManager(m, key) => RetainCounts(w, m, key, k);
      case Collect(t, m) => ReleaseCounts(w, t, m, k);
      case _ => RefsUntouched(w, s);
    }
  }

  lemma {:induction false} OwnersAdd(managers: map<Mid, Key>, m: Mid, key: Key, k: Key)
    requires m !in managers
    ensures |Owners(managers[m := key], k)| == |Owners(managers, k)| + if k == key then 1 else 0
  {
    var was := Owners(managers, k);
    assert Owners(managers[m := key], k) == if k == key then was + {m} else was;
  }

  lemma {:induction false} OwnersDrop(managers: map<Mid, Key>, m: Mid, k: Key)
    requires m in managers
    ensures |Owners(managers - {m}, k)| == |Owners(managers, k)| - if k == managers[m] then 1 else 0
  {
    var was := Owners(managers, k);
    assert Owners(managers - {m}, k) == if k == managers[m] then was - {m} else was;
  }

  lemma {:induction false} RetainCounts(w: World, m: Mid, key: Key, k: Key)
    requires RefsCounted(w) && m !in w.managers
    ensures Retain(w.cache, key).RefCount(k) == |Owners(w.managers[m := key], k)|
  {
    OwnersAdd(w.managers, m, key, k);
    assert w.cache.RefCount(k) == |Owners(w.managers, k)|;
  }

  lemma {:induction false} ReleaseCounts(w: World, t: Tid, m: Mid, k: Key)
    requires RefsCounted(w) && Enabled(w, Collect(t, m))
    ensures Release(w.cache, w.managers[m]).0.RefCount(k) == |Owners(w.managers - {m}, k)|
  {
    var key := w.managers[m];
    OwnersDrop(w.managers, m, k);
    assert w.cache.RefCount(k) == |Owners(w.managers, k)|;
    assert m in Owners(w.managers, key) && w.cache.RefCount(key) == |Owners(w.managers, key)|;
  }

  lemma {:induction false} RefsUntouched(w: World, s: Step)
    requires Enabled(w, s) && w.cache.Valid() && !s.NewManager? && !s.Collect?
    ensures Do(w, s).cache.refs == w.cache.refs && Do(w, s).managers == w.managers
  {
    if !Counts(s) {
      CountsSame(w, s);
    }
  }

  // A parked handle is waiting for a reader

  lemma {:induction false} ParkedKept(w: World, s: Step)
    requires Enabled(w, s) && w.cache.Valid() && ParkedArePinned(w)
    ensures ParkedArePinned(Do(w, s))
  {
    if Lockless(s) {
      LocklessSame(w, s);
    } else if Counts(s) {
      ParkedKeptCounting(w, s);
    } else {
      ParkedKeptLocked(w, s);
    }
  }

  lemma {:induction false} ParkedKeptCounting(w: World, s: Step)
    requires Enabled(w, s) && w.cache.Valid() && ParkedArePinned(w) && Counts(s)
    ensures ParkedArePinned(Do(w, s))
  {
    forall k | k in Do(w, s).cache.parked
      ensures Do(w, s).cache.Pinned(k)
    {
      assert k in w.cache.parked ==> w.cache.Pinned(k);
    }
  }

  lemma {:induction false} ParkedKeptLocked(w: World, s: Step)
    requires Enabled(w, s) && w.cache.Valid() && ParkedArePinned(w) && !Counts(s) && !Lockless(s)
    ensures ParkedArePinned(Do(w, s))
  {
    CountsSame(w, s);
    forall k | k in Do(w, s).cache.parked
      ensures Do(w, s).cache.Pinned(k)
    {
      assert k in w.cache.parked ==> w.cache.Pinned(k);
    }
  }

  // Whatever a reader goes through is covered

  /** A handle in use only moves to where it stays covered: no step lists it for closing. */
  lemma {:induction false} UserKept(w: World, where: map<Handle, Place>, s: Step, u: Tid)
    requires Inv(w, where) && Enabled(w, s) && Actor(s) != Some(u)
    requires u in w.threads && InUse(w.threads[u]).Some?
    ensures Covered(Rehoused(w, where, s), InUse(w.threads[u]).value)
  {
    var e := InUse(w.threads[u]).value;
    assert Covered(where, e) && At(w, where[e.handle]) == Some(e.handle);
    assert PinIn(w.threads, u) == Some(e.key);
    LeaverCounted(w, u);
    if s.Leave? {
      LeaveCovers(w, where, s.t, u, e);
    } else {
      PinnedCovers(w, where, s, e);
    }
  }

  lemma {:induction false} PinnedCovers(w: World, where: map<Handle, Place>, s: Step, e: Entry)
    requires Inv(w, where) && Enabled(w, s) && Covered(where, e) && w.cache.Pinned(e.key) && !s.Leave?
    ensures Covered(Rehoused(w, where, s), e)
  {
    match s
    case Install(t) => InstallCovers(w, where, t, e);
    case CloseRaises(t) => CloseCovers(w, where, t, e);
    case CloseNext(t) => CloseCovers(w, where, t, e);
    case BeginClose(t, k) => TakingOutCovers(w, where, t, k, e);
    case Collect(t, m) => TakingOutCovers(w, where, t, w.managers[m], e);
    case _ => OtherCovers(w, where, s, e);
  }

  lemma {:induction false} OtherCovers(w: World, where: map<Handle, Place>, s: Step, e: Entry)
    requires Inv(w, where) && Enabled(w, s) && Covered(where, e) && w.cache.Pinned(e.key)
    requires !s.Install? && !s.CloseRaises? && !s.CloseNext? && !s.Leave? && !s.BeginClose? && !s.Collect?
    ensures Covered(Rehoused(w, where, s), e)
  {
    assert At(w, where[e.handle]) == Some(e.handle);
  }

  lemma {:induction false} InstallCovers(w: World, where: map<Handle, Place>, t: Tid, e: Entry)
    requires Inv(w, where) && Enabled(w, Install(t)) && Covered(where, e) && w.cache.Pinned(e.key)
    ensures Covered(Installing(w, where, t), e)
  {
    var p := w.threads[t];
    assert At(w, where[e.handle]) == Some(e.handle);
    assert At(w, Local(t)) == Some(p.h);
    if p.k in w.cache.slots {
      assert At(w, Slot(p.k)) == Some(w.cache.slots[p.k]);
    }
  }

  lemma {:induction false} CloseCovers(w: World, where: map<Handle, Place>, t: Tid, e: Entry)
    requires Inv(w, where) && CanClose(w, t) && Covered(where, e)
    ensures Covered(Rehoused(w, where, CloseNext(t)), e)
    ensures Covered(Rehoused(w, where, CloseRaises(t)), e)
  {
    var next := w.threads[t].next;
    assert At(w, Queue(t, next)) == Some(w.threads[t].list[next].handle);
  }

  lemma {:induction false} LeaveCovers(w: World, where: map<Handle, Place>, t: Tid, u: Tid, e: Entry)
    requires Inv(w, where) && Enabled(w, Leave(t)) && Covered(where, e)
    requires t != u && PinIn(w.threads, u) == Some(e.key)
    ensures Covered(Rehoused(w, where, Leave(t)), e)
  {
    var k := w.threads[t].k;
    if k == e.key {
      TwoPinners(w, t, u, k);
    } else if Unpin(w.cache, k).deferred.Some? {
      assert At(w, Parking(k)) == Some(w.cache.parked[k]);
    }
  }

  /** With a second reader on the key, leaving hands nothing over. */
  lemma {:induction false} TwoPinners(w: World, t: Tid, u: Tid, k: Key)
    requires PinsCounted(w) && t != u
    requires PinIn(w.threads, t) == Some(k) && PinIn(w.threads, u) == Some(k)
    ensures w.cache.PinCount(k) >= 2 && Unpin(w.cache, k).deferred.None?
  {
    assert {t, u} <= Pinners(w.threads, k);
    Cardinality({t, u}, Pinners(w.threads, k));
    assert w.cache.PinCount(k) == |Pinners(w.threads, k)|;
  }

  lemma {:induction false} TakingOutCovers(w: World, where: map<Handle, Place>, t: Tid, k: Key, e: Entry)
    requires Tracks(w, where) && Covered(where, e) && w.cache.Pinned(e.key)
    ensures Covered(TakingOut(w, where, t, k), e)
  {
    if k in w.cache.slots {
      assert At(w, Slot(k)) == Some(w.cache.slots[k]);
      if k in w.cache.parked {
        assert At(w, Parking(k)) == Some(w.cache.parked[k]);
      }
    }
  }

  /** A handle a step starts using is covered too. */
  lemma {:induction false} ActorCovered(w: World, where: map<Handle, Place>, s: Step)
    requires Inv(w, where) && Enabled(w, s) && Actor(s).Some?
    requires var t := Actor(s).value; t in Do(w, s).threads && InUse(Do(w, s).threads[t]).Some?
    ensures Covered(Rehoused(w, where, s), InUse(Do(w, s).threads[Actor(s).value]).value)
  {
    var t := Actor(s).value;
    var e := InUse(Do(w, s).threads[t]).value;
    match s
    case Find(_) => assert At(w, Slot(e.key)) == Some(e.handle);
    case Install(_) => assert At(w, Local(t)) == Some(e.handle);
    case CloseNext(_) =>
      assert Covered(where, e);
      CloseCovers(w, where, t, e);
    case ClosesDone(_) => assert Covered(where, e);
    case _ => NoOtherUse(w, s);
  }

  lemma {:induction false} NoOtherUse(w: World, s: Step)
    requires Enabled(w, s) && w.cache.Valid() && Actor(s).Some?
    requires !s.Find? && !s.Install? && !s.CloseNext? && !s.ClosesDone?
    ensures var t := Actor(s).value; t in Do(w, s).threads ==> InUse(Do(w, s).threads[t]).None?
  {}

  lemma {:induction false} UsersKept(w: World, where: map<Handle, Place>, s: Step)
    requires Inv(w, where) && Enabled(w, s)
    ensures UsersCovered(Do(w, s), Rehoused(w, where, s))
  {
    var w' := Do(w, s);
    forall u | u in w'.threads && InUse(w'.threads[u]).Some?
      ensures Covered(Rehoused(w, where, s), InUse(w'.threads[u]).value)
    {
      if Actor(s) == Some(u) {
        ActorCovered(w, where, s);
      } else {
        OthersUntouched(w, s, u);
        UserKept(w, where, s, u);
      }
    }
  }

  // The size promise, or a sweep still owed

  /** The phase of a thread owing a sweep leads to the sweep, and the sweep restores the promise. */
  lemma {:induction false} DebtorMovesOn(w: World, s: Step, t: Tid)
    requires Enabled(w, s) && w.cache.Valid() && Actor(s) == Some(t)
    requires t in w.threads && OwesSweep(w.threads[t], w.cache.maxsize)
    ensures SizeOrDebt(Do(w, s))
  {
    if s.DoSweep? {
      TrimWorks(w.cache, w.threads[t].target);
    } else {
      assert t in Do(w, s).threads && OwesSweep(Do(w, s).threads[t], Do(w, s).cache.maxsize);
    }
  }

  lemma {:induction false} BoundedStep(w: World, s: Step)
    requires Enabled(w, s) && w.cache.Valid() && w.cache.Bounded()
    ensures SizeOrDebt(Do(w, s))
  {
    var c := w.cache;
    match s
    case BeginRead(t, k) => ShrinkKeepsBounded(c, Pin(c, k));
    case BeginAcquire(t, k) => LookupBounded(c, k);
    case Find(t) => LookupBounded(c, w.threads[t].k);
    case Install(t) => InsertKeepsBounded(c, w.threads[t].k, w.threads[t].h);
    case FailRead(t) => DeleteBounded(c, w.threads[t].k);
    case Leave(t) => LeaveBounded(w, t);
    case DoSweep(t) => TrimBounded(c, w.threads[t].target);
    case BeginResize(t, n) => assert OwesSweep(Do(w, s).threads[t], n);
    case BeginClose(t, k) => DiscardBounded(c, k);
    case Collect(t, m) => ReleaseBounded(c, w.managers[m]);
    case NewManager(_, _) =>
    case _ => assert Do(w, s).cache == c;
  }

  lemma {:induction false} LookupBounded(c: Cache, k: Key)
    requires c.Valid() && c.Bounded()
    ensures Lookup(c, k).0.Bounded()
  {
    LookupKeepsValid(c, k);
    ShrinkKeepsBounded(c, Lookup(c, k).0);
  }

  lemma {:induction false} DeleteBounded(c: Cache, k: Key)
    requires c.Valid() && c.Bounded()
    ensures Delete(c, k).Bounded()
  {
    DeleteKeepsValid(c, k);
    ShrinkKeepsBounded(c, Delete(c, k));
  }

  lemma {:induction false} TrimBounded(c: Cache, target: nat)
    requires c.Valid() && c.Bounded()
    ensures Trim(c, target).cache.Bounded()
  {
    TrimWorks(c, target);
    ShrinkKeepsBounded(c, Trim(c, target).cache);
  }

  lemma {:induction false} DiscardBounded(c: Cache, k: Key)
    requires c.Valid() && c.Bounded()
    ensures Discard(c, k).0.Bounded()
  {
    DiscardKeepsValid(c, k);
    ShrinkKeepsBounded(c, Discard(c, k).0);
  }

  lemma {:induction false} ReleaseBounded(c: Cache, k: Key)
    requires c.Valid() && c.Bounded()
    ensures Release(c, k).0.Bounded()
  {
    ReleaseKeepsValid(c, k);
    ShrinkKeepsBounded(c, Release(c, k).0);
  }

  lemma {:induction false} LeaveBounded(w: World, t: Tid)
    requires Enabled(w, Leave(t)) && w.cache.Valid() && w.cache.Bounded()
    ensures SizeOrDebt(DoLeave(w, t))
  {
    var w', k := DoLeave(w, t), w.threads[t].k;
    if Unpin(w.cache, k).overLimit {
      assert OwesSweep(w'.threads[t], w'.cache.maxsize);
    } else if k in w.cache.pins && w.cache.pins[k] > 1 {
      ShrinkKeepsBounded(w.cache, w'.cache);
    }
  }

  lemma {:induction false} MaxsizeKept(w: World, s: Step)
    requires Enabled(w, s) && w.cache.Valid() && !s.BeginResize?
    ensures Do(w, s).cache.maxsize == w.cache.maxsize
  {
    if !Counts(s) {
      CountsSame(w, s);
    }
  }

  lemma {:induction false} DebtKept(w: World, s: Step)
    requires Enabled(w, s) && w.cache.Valid() && SizeOrDebt(w)
    ensures SizeOrDebt(Do(w, s))
  {
    if w.cache.Bounded() {
      BoundedStep(w, s);
    } else if s.BeginResize? {
      assert OwesSweep(Do(w, s).threads[s.t], s.n);
    } else {
      var d :| d in w.threads && OwesSweep(w.threads[d], w.cache.maxsize);
      if Actor(s) == Some(d) {
        DebtorMovesOn(w, s, d);
      } else {
        OthersUntouched(w, s, d);
        MaxsizeKept(w, s);
        assert OwesSweep(Do(w, s).threads[d], Do(w, s).cache.maxsize);
      }
    }
  }

  // All together

  lemma {:induction false} ValidKept(w: World, s: Step)
    requires Enabled(w, s) && w.cache.Valid()
    ensures Do(w, s).cache.Valid()
  {
    var c := w.cache;
    match s
    case BeginAcquire(t, k) => LookupKeepsValid(c, k);
    case Find(t) => LookupKeepsValid(c, w.threads[t].k);
    case Install(t) => InsertKeepsValid(c, w.threads[t].k, w.threads[t].h);
    case FailRead(t) => DeleteKeepsValid(c, w.threads[t].k);
    case Leave(t) => UnpinKeepsValid(c, w.threads[t].k);
    case DoSweep(t) => TrimWorks(c, w.threads[t].target);
    case BeginClose(t, k) => DiscardKeepsValid(c, k);
    case Collect(t, m) => ReleaseKeepsValid(c, w.managers[m]);
    case _ =>
  }

  /** Every atomic step of every thread keeps every invariant. */
  lemma {:induction false} StepKeeps(w: World, where: map<Handle, Place>, s: Step)
    requires Inv(w, where) && Enabled(w, s)
    ensures Inv(Do(w, s), Rehoused(w, where, s))
  {
    ValidKept(w, s);
    PinsKept(w, s);
    RefsKept(w, s);
    ParkedKept(w, s);
    StepMoves(w, where, s);
    UsersKept(w, where, s);
    DebtKept(w, s);
  }
}
