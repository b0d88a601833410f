/** Every handle is always in exactly one place: where each step moves the handles it touches. */
module HandlePlaces {
  import opened Wrappers
  import opened CacheModel
  import opened HandleProtocol

  // Three shapes of move

  lemma {:induction false} Unmoved(w: World, where: map<Handle, Place>, w': World)
    requires Tracks(w, where) && w'.minted == w.minted
    requires forall p :: At(w', p) == At(w, p)
    ensures Tracks(w', where)
  {}

  /** One handle goes from `a` to the empty place `b`. */
  lemma {:induction false} Moved(w: World, where: map<Handle, Place>, w': World, a: Place, b: Place)
    requires Tracks(w, where) && w'.minted == w.minted
    requires At(w, a).Some? && At(w, b).None? && At(w', a).None? && At(w', b) == At(w, a)
    requires forall p :: p != a && p != b ==> At(w', p) == At(w, p)
    ensures Tracks(w', where[At(w, a).value := b])
  {}

  /** One handle goes from `a` to the empty place `b`, another follows from `c` to `a`. */
  lemma {:induction false} Followed(w: World, where: map<Handle, Place>, w': World, c: Place, a: Place, b: Place)
    requires Tracks(w, where) && w'.minted == w.minted && c != a
    requires At(w, a).Some? && At(w, b).None? && At(w, c).Some?
    requires At(w', c).None? && At(w', a) == At(w, c) && At(w', b) == At(w, a)
    requires forall p :: p != a && p != b && p != c ==> At(w', p) == At(w, p)
    ensures Tracks(w', where[At(w, a).value := b][At(w, c).value := a])
  {
    assert At(w, a) != At(w, c);
  }

  // Where each step leaves the handles

  function IndexOf(keys: seq<Key>, k: Key): (i: nat)
    requires k in Keys(keys)
    ensures i < |keys| && keys[i] == k
  {
    if keys[0] == k then 0 else 1 + IndexOf(keys[1..], k)
  }

  /** The evicted handles go to the evicting thread's list. */
  function Evicting(where: map<Handle, Place>, victims: seq<Key>, t: Tid): (r: map<Handle, Place>)
    ensures forall h :: h in r <==> h in where
  {
    map h | h in where ::
      if where[h].Slot? && where[h].k in Keys(victims) then Queue(t, IndexOf(victims, where[h].k))
      else where[h]
  }

  /** The rest of a list after a close that raised: abandoned. */
  function Orphaning(base: nat, where: map<Handle, Place>, t: Tid, from: nat): (r: map<Handle, Place>)
    ensures forall h :: h in r <==> h in where
  {
    map h | h in where ::
      if where[h].Queue? && where[h].t == t && where[h].i >= from then
        Orphan(base + (where[h].i - from))
      else where[h]
  }

  /** An entry taken out: to its parking place when pinned, else to the thread's list. */
  function TakingOut(w: World, where: map<Handle, Place>, t: Tid, k: Key): map<Handle, Place> {
    if k !in w.cache.slots then where
    else if !w.cache.Pinned(k) then where[w.cache.slots[k] := Queue(t, 0)]
    else if k in w.cache.parked then
      where[w.cache.parked[k] := Orphan(|w.orphans|)][w.cache.slots[k] := Parking(k)]
    else where[w.cache.slots[k] := Parking(k)]
  }

  function Rehoused(w: World, where: map<Handle, Place>, s: Step): map<Handle, Place>
    requires Enabled(w, s)
  {
    match s
    case OpenWorks(t) => where[w.minted := Local(t)]
    case Install(t) => Installing(w, where, t)
    case CloseNext(t) => where[w.threads[t].list[w.threads[t].next].handle := Shut(|w.closed|)]
    case CloseRaises(t) =>
      var next := w.threads[t].next;
      Orphaning(|w.orphans|, where[w.threads[t].list[next].handle := Shut(|w.closed|)], t, next + 1)
    case FailRead(t) =>
      var p := w.threads[t];
      if !p.wasCached && p.k in w.cache.slots then where[w.cache.slots[p.k] := Orphan(|w.orphans|)] else where
    case Leave(t) =>
      var k := w.threads[t].k;
      if Unpin(w.cache, k).deferred.Some? then where[w.cache.parked[k] := Queue(t, 0)] else where
    case DoSweep(t) => Evicting(where, Victims(w.cache, w.threads[t].target), t)
    case BeginClose(t, k) => TakingOut(w, where, t, k)
    case Collect(t, m) =>
      var k := w.managers[m];
      if k in w.cache.refs && w.cache.refs[k] <= 1 then TakingOut(w, where, t, k) else where
    case _ => where
  }

  function Installing(w: World, where: map<Handle, Place>, t: Tid): map<Handle, Place>
    requires Enabled(w, Install(t))
  {
    var p := w.threads[t];
    if p.k !in w.cache.slots then
      Evicting(where, Victims(w.cache, if w.cache.maxsize > 0 then w.cache.maxsize - 1 else 0), t)[p.h := Slot(p.k)]
    else if w.cache.Pinned(p.k) then
      where[w.cache.slots[p.k] := Orphan(|w.orphans|)][p.h := Slot(p.k)]
    else where[w.cache.slots[p.k] := Queue(t, 0)][p.h := Slot(p.k)]
  }

  // Each step's move is the one above

  lemma {:induction false} OpenWorksMoves(w: World, where: map<Handle, Place>, t: Tid)
    requires Enabled(w, OpenWorks(t)) && Tracks(w, where)
    ensures Tracks(DoOpenWorks(w, t), where[w.minted := Local(t)])
  {
    var w' := DoOpenWorks(w, t);
    assert forall p :: p != Local(t) ==> At(w', p) == At(w, p);
    assert At(w', Local(t)) == Some(w.minted);
  }

  lemma {:induction false} CloseNextMoves(w: World, where: map<Handle, Place>, t: Tid)
    requires CanClose(w, t) && Tracks(w, where)
    ensures Tracks(DoCloseNext(w, t), Rehoused(w, where, CloseNext(t)))
  {
    var w', next := DoCloseNext(w, t), w.threads[t].next;
    Moved(w, where, w', Queue(t, next), Shut(|w.closed|));
  }

  /** The list a thread has left is abandoned: seen from one place, and from one handle. */
  lemma {:induction false} AbandonBack(w: World, where: map<Handle, Place>, t: Tid, w': World, p: Place)
    requires Tracks(w, where) && Abandons(w, t, w') && At(w', p).Some?
    ensures var where' := Orphaning(|w.orphans|, where, t, w.threads[t].next);
      At(w', p).value in where' && where'[At(w', p).value] == p
  {
    var n := |w.orphans|;
    if p.Orphan? && p.i >= n {
      assert At(w', p) == At(w, Queue(t, w.threads[t].next + (p.i - n)));
    } else {
      assert At(w, p) == At(w', p);
    }
  }

  lemma {:induction false} AbandonForth(w: World, where: map<Handle, Place>, t: Tid, w': World, h: Handle)
    requires Tracks(w, where) && Abandons(w, t, w') && h in where
    ensures At(w', Orphaning(|w.orphans|, where, t, w.threads[t].next)[h]) == Some(h)
  {
    assert At(w, where[h]) == Some(h);
    if where[h].Queue? && where[h].t == t {
      ListedForth(w, t, w', where[h].i, h);
    } else {
      ElsewhereForth(w, t, w', where[h]);
    }
  }

  lemma {:induction false} ListedForth(w: World, t: Tid, w': World, i: nat, h: Handle)
    requires Abandons(w, t, w') && At(w, Queue(t, i)) == Some(h)
    ensures w.threads[t].next <= i && At(w', Orphan(|w.orphans| + (i - w.threads[t].next))) == Some(h)
  {}

  lemma {:induction false} ElsewhereForth(w: World, t: Tid, w': World, p: Place)
    requires Abandons(w, t, w') && At(w, p).Some? && !(p.Queue? && p.t == t)
    ensures At(w', p) == At(w, p)
  {}

  ghost predicate Abandons(w: World, t: Tid, w': World) {
    && t in w.threads && w.threads[t].Closing? && w.threads[t].next <= |w.threads[t].list|
    && (t in w'.threads ==> !w'.threads[t].Closing? && !w'.threads[t].Opened?)
    && w'.cache == w.cache && w'.minted == w.minted && w'.closed == w.closed
    && w'.orphans == w.orphans + Handles(w.threads[t].list[w.threads[t].next..])
    && (forall u :: u != t ==> (u in w'.threads <==> u in w.threads))
    && (forall u :: u != t && u in w.threads ==> w'.threads[u] == w.threads[u])
  }

  lemma {:induction false} AbandonMoves(w: World, where: map<Handle, Place>, t: Tid, w': World)
    requires Tracks(w, where) && Abandons(w, t, w')
    ensures Tracks(w', Orphaning(|w.orphans|, where, t, w.threads[t].next))
  {
    forall p | At(w', p).Some?
      ensures var where' := Orphaning(|w.orphans|, where, t, w.threads[t].next);
        At(w', p).value in where' && where'[At(w', p).value] == p
    {
      AbandonBack(w, where, t, w', p);
    }
    forall h | h in where
      ensures At(w', Orphaning(|w.orphans|, where, t, w.threads[t].next)[h]) == Some(h)
    {
      AbandonForth(w, where, t, w', h);
    }
  }

  lemma {:induction false} RaisesAbandons(w: World, t: Tid)
    requires CanClose(w, t)
    ensures Abandons(DoCloseNext(w, t), t, DoCloseRaises(w, t))
  {}

  lemma {:induction false} CloseRaisesMoves(w: World, where: map<Handle, Place>, t: Tid)
    requires CanClose(w, t) && Tracks(w, where)
    ensures Tracks(DoCloseRaises(w, t), Rehoused(w, where, CloseRaises(t)))
  {
    var w1, where1 := DoCloseNext(w, t), Rehoused(w, where, CloseNext(t));
    assert Rehoused(w, where, CloseRaises(t)) == Orphaning(|w1.orphans|, where1, t, w1.threads[t].next);
    CloseNextMoves(w, where, t);
    RaisesAbandons(w, t);
    AbandonMoves(w1, where1, t, DoCloseRaises(w, t));
  }

  /** The handle of slot `k` is abandoned, thread `t` going to a phase that holds nothing. */
  lemma {:induction false} DropMoves(w: World, where: map<Handle, Place>, t: Tid, k: Key, w': World)
    requires Tracks(w, where) && w'.minted == w.minted && w'.closed == w.closed
    requires t in w.threads && EmptyHanded(w, t) && EmptyHanded(w', t)
    requires t in w'.threads && w'.threads == w.threads[t := w'.threads[t]]
    requires k in w.cache.slots && w'.cache.slots == w.cache.slots - {k}
    requires w'.cache.parked == w.cache.parked && w'.orphans == w.orphans + [w.cache.slots[k]]
    ensures Tracks(w', where[w.cache.slots[k] := Orphan(|w.orphans|)])
  {
    Moved(w, where, w', Slot(k), Orphan(|w.orphans|));
  }

  lemma {:induction false} FailReadMoves(w: World, where: map<Handle, Place>, t: Tid)
    requires Enabled(w, FailRead(t)) && Tracks(w, where)
    ensures Tracks(DoFailRead(w, t), Rehoused(w, where, FailRead(t)))
  {
    var w', p := DoFailRead(w, t), w.threads[t];
    if !p.wasCached && p.k in w.cache.slots {
      DropMoves(w, where, t, p.k, w');
    } else {
      QuietThread(w, where, t, w');
    }
  }

  /** The parked handle of `k` goes to the list of the thread that drops the last pin. */
  lemma {:induction false} DeferredMoves(w: World, where: map<Handle, Place>, t: Tid, k: Key, w': World)
    requires Tracks(w, where) && w'.minted == w.minted && w'.closed == w.closed && w'.orphans == w.orphans
    requires t in w.threads && EmptyHanded(w, t)
    requires t in w'.threads && w'.threads == w.threads[t := w'.threads[t]]
    requires k in w.cache.parked && w'.cache.parked == w.cache.parked - {k}
    requires w'.cache.slots == w.cache.slots
    requires w'.threads[t].Closing? && w'.threads[t].next == 0
    requires w'.threads[t].list == [Entry(k, w.cache.parked[k])]
    ensures Tracks(w', where[w.cache.parked[k] := Queue(t, 0)])
  {
    Moved(w, where, w', Parking(k), Queue(t, 0));
  }

  lemma {:induction false} LeaveMoves(w: World, where: map<Handle, Place>, t: Tid)
    requires Enabled(w, Leave(t)) && Tracks(w, where)
    ensures Tracks(DoLeave(w, t), Rehoused(w, where, Leave(t)))
  {
    var w', k := DoLeave(w, t), w.threads[t].k;
    if Unpin(w.cache, k).deferred.Some? {
      DeferredMoves(w, where, t, k, w');
    } else {
      assert w'.cache.parked == w.cache.parked;
      QuietThread(w, where, t, w');
    }
  }

  /** `BeginClose` and the last referent's `Collect` both end in this world, seen by place. */
  lemma {:induction false} TakingOutMoves(w: World, where: map<Handle, Place>, t: Tid, k: Key, w': World)
    requires Tracks(w, where) && t !in w.threads && w'.minted == w.minted && w'.closed == w.closed
    requires w'.threads == w.threads[t := Closing(Handed(k, Discard(w.cache, k).1), 0, Stop)]
    requires w'.cache.slots == w.cache.slots - {k}
    requires w'.cache.parked == Discard(w.cache, k).0.parked
    requires w'.orphans == w.orphans + Overparked(w.cache, k)
    ensures Tracks(w', TakingOut(w, where, t, k))
  {
    if k !in w.cache.slots {
      Unmoved(w, where, w');
    } else if !w.cache.Pinned(k) {
      ListingMoves(w, where, t, k, w');
    } else {
      ParkingMoves(w, where, t, k, w');
    }
  }

  lemma {:induction false} ListingMoves(w: World, where: map<Handle, Place>, t: Tid, k: Key, w': World)
    requires Tracks(w, where) && t !in w.threads && w'.minted == w.minted && w'.closed == w.closed
    requires k in w.cache.slots && !w.cache.Pinned(k)
    requires w'.threads == w.threads[t := Closing([Entry(k, w.cache.slots[k])], 0, Stop)]
    requires w'.cache.slots == w.cache.slots - {k} && w'.cache.parked == w.cache.parked && w'.orphans == w.orphans
    ensures Tracks(w', TakingOut(w, where, t, k))
  {
    Moved(w, where, w', Slot(k), Queue(t, 0));
  }

  lemma {:induction false} ParkingMoves(w: World, where: map<Handle, Place>, t: Tid, k: Key, w': World)
    requires Tracks(w, where) && t !in w.threads && w'.minted == w.minted && w'.closed == w.closed
    requires k in w.cache.slots && w.cache.Pinned(k)
    requires w'.threads == w.threads[t := Closing([], 0, Stop)]
    requires w'.cache.slots == w.cache.slots - {k}
    requires w'.cache.parked == w.cache.parked[k := w.cache.slots[k]]
    requires w'.orphans == w.orphans + Overparked(w.cache, k)
    ensures Tracks(w', TakingOut(w, where, t, k))
  {
    if k in w.cache.parked {
      Followed(w, where, w', Slot(k), Parking(k), Orphan(|w.orphans|));
    } else {
      Moved(w, where, w', Slot(k), Parking(k));
    }
  }

  lemma {:induction false} BeginCloseMoves(w: World, where: map<Handle, Place>, t: Tid, k: Key)
    requires Enabled(w, BeginClose(t, k)) && Tracks(w, where)
    ensures Tracks(DoBeginClose(w, t, k), TakingOut(w, where, t, k))
  {
    assert Discard(w.cache, k).0.slots == w.cache.slots - {k};
    TakingOutMoves(w, where, t, k, DoBeginClose(w, t, k));
  }

  lemma {:induction false} ReleaseDiscards(c: Cache, k: Key)
    ensures k in c.refs && c.refs[k] <= 1 ==>
      && Release(c, k).1 == Discard(c, k).1 && Release(c, k).0.slots == c.slots - {k}
      && Release(c, k).0.parked == Discard(c, k).0.parked
    ensures !(k in c.refs && c.refs[k] <= 1) ==>
      Release(c, k).1 == None && Release(c, k).0.slots == c.slots && Release(c, k).0.parked == c.parked
  {}

  lemma {:induction false} CollectMoves(w: World, where: map<Handle, Place>, t: Tid, m: Mid)
    requires Enabled(w, Collect(t, m)) && Tracks(w, where)
    ensures Tracks(DoCollect(w, t, m), Rehoused(w, where, Collect(t, m)))
  {
    var w', k := DoCollect(w, t, m), w.managers[m];
    ReleaseDiscards(w.cache, k);
    if k in w.cache.refs && w.cache.refs[k] <= 1 {
      TakingOutMoves(w, where, t, k, w');
    } else {
      QuietThread(w, where, t, w');
    }
  }

  lemma {:induction false} EntryAt(keys: seq<Key>, slots: map<Key, Handle>, i: nat)
    requires Keys(keys) <= slots.Keys && i < |keys|
    ensures keys[i] in Keys(keys)
    ensures Entries(keys, slots)[i] == Entry(keys[i], slots[keys[i]])
    ensures NoDup(keys) ==> IndexOf(keys, keys[i]) == i
  {
    if i > 0 {
      EntryAt(keys[1..], slots, i - 1);
    }
  }

  /** A sweep's evicted entries, seen by place: entry `i` of the list came from the slot of victim
      `i`; the slots that are not victims' keep their handles. */
  ghost predicate Evicts(c: Cache, victims: seq<Key>, list: seq<Entry>, slots: map<Key, Handle>) {
    && Keys(victims) <= c.slots.Keys
    && |list| == |victims|
    && (forall i :: 0 <= i < |victims| ==>
          victims[i] in Keys(victims) && list[i].handle == c.slots[victims[i]] && IndexOf(victims, victims[i]) == i)
    && slots == c.slots - Keys(victims)
  }

  lemma {:induction false} TrimEvicts(c: Cache, target: nat)
    requires c.Valid()
    ensures var t := Trim(c, target); Evicts(c, Victims(c, target), t.evicted, t.cache.slots)
  {
    var victims := Victims(c, target);
    assert NoDup(victims) by {
      TrimWorks(c, target);
    }
    forall i | 0 <= i < |victims|
      ensures victims[i] in Keys(victims)
      ensures Trim(c, target).evicted[i].handle == c.slots[victims[i]] && IndexOf(victims, victims[i]) == i
    {
      EntryAt(victims, c.slots, i);
    }
  }

  /** A thread takes on a list of evicted entries, seen by place. */
  ghost predicate TakesOn(w: World, t: Tid, victims: seq<Key>, w': World) {
    && w'.minted == w.minted && w'.closed == w.closed && w'.orphans == w.orphans
    && w'.cache.parked == w.cache.parked
    && t in w.threads && !w.threads[t].Closing?
    && t in w'.threads && w'.threads == w.threads[t := w'.threads[t]]
    && w'.threads[t].Closing? && w'.threads[t].next == 0
    && Evicts(w.cache, victims, w'.threads[t].list, w.cache.slots - Keys(victims))
  }

  lemma {:induction false} EvictionBack(w: World, where: map<Handle, Place>, t: Tid, victims: seq<Key>,
                                        w': World, p: Place)
    requires Tracks(w, where) && TakesOn(w, t, victims, w') && At(w', p).Some?
    requires p.Slot? ==> p.k in w.cache.slots && p.k !in Keys(victims) && At(w', p) == At(w, p)
    ensures var where' := Evicting(where, victims, t);
      At(w', p).value in where' && where'[At(w', p).value] == p
  {
    if p.Queue? && p.t == t {
      assert At(w, Slot(victims[p.i])).Some?;
    } else {
      assert At(w, p) == At(w', p);
    }
  }

  lemma {:induction false} EvictionForth(w: World, where: map<Handle, Place>, t: Tid, victims: seq<Key>,
                                         w': World, h: Handle)
    requires Tracks(w, where) && TakesOn(w, t, victims, w') && h in where
    requires where[h] != Local(t)
    requires forall k :: k in w.cache.slots && k !in Keys(victims) ==> At(w', Slot(k)) == At(w, Slot(k))
    ensures At(w', Evicting(where, victims, t)[h]) == Some(h)
  {
    assert At(w, where[h]) == Some(h);
  }

  lemma {:induction false} EvictionMoves(w: World, where: map<Handle, Place>, t: Tid, victims: seq<Key>, w': World)
    requires Tracks(w, where) && TakesOn(w, t, victims, w') && !w.threads[t].Opened?
    requires w'.cache.slots == w.cache.slots - Keys(victims)
    ensures Tracks(w', Evicting(where, victims, t))
  {
    forall p | At(w', p).Some?
      ensures var where' := Evicting(where, victims, t);
        At(w', p).value in where' && where'[At(w', p).value] == p
    {
      EvictionBack(w, where, t, victims, w', p);
    }
    forall h | h in where
      ensures At(w', Evicting(where, victims, t)[h]) == Some(h)
    {
      assert At(w, where[h]) == Some(h);
      EvictionForth(w, where, t, victims, w', h);
    }
  }

  lemma {:induction false} DoSweepMoves(w: World, where: map<Handle, Place>, t: Tid)
    requires Enabled(w, DoSweep(t)) && w.cache.Valid() && Tracks(w, where)
    ensures Tracks(DoDoSweep(w, t), Rehoused(w, where, DoSweep(t)))
  {
    var target := w.threads[t].target;
    TrimEvicts(w.cache, target);
    EvictionMoves(w, where, t, Victims(w.cache, target), DoDoSweep(w, t));
  }

  lemma {:induction false} InstallTakesOn(w: World, t: Tid)
    requires Enabled(w, Install(t)) && w.cache.Valid() && w.threads[t].k !in w.cache.slots
    ensures TakesOn(w, t, Victims(w.cache, w.cache.maxsize - 1), DoInstall(w, t))
  {
    TrimEvicts(w.cache, w.cache.maxsize - 1);
  }

  /** Inserting a new key: the victims go to the list, the opened handle to its slot. */
  lemma {:induction false} InstallNewMoves(w: World, where: map<Handle, Place>, t: Tid)
    requires Enabled(w, Install(t)) && w.cache.Valid() && Tracks(w, where)
    requires w.threads[t].k !in w.cache.slots
    ensures Tracks(DoInstall(w, t), Installing(w, where, t))
  {
    var victims, w' := Victims(w.cache, w.cache.maxsize - 1), DoInstall(w, t);
    InstallTakesOn(w, t);
    assert w'.cache.slots == (w.cache.slots - Keys(victims))[w.threads[t].k := w.threads[t].h];
    NewMoves(w, where, t, victims, w');
  }

  lemma {:induction false} NewMoves(w: World, where: map<Handle, Place>, t: Tid, victims: seq<Key>, w': World)
    requires Tracks(w, where) && TakesOn(w, t, victims, w')
    requires w.threads[t].Opened? && w.threads[t].k !in w.cache.slots
    requires w'.cache.slots == (w.cache.slots - Keys(victims))[w.threads[t].k := w.threads[t].h]
    ensures Tracks(w', Evicting(where, victims, t)[w.threads[t].h := Slot(w.threads[t].k)])
  {
    var k, x := w.threads[t].k, w.threads[t].h;
    var where' := Evicting(where, victims, t)[x := Slot(k)];
    assert At(w, Local(t)) == Some(x);
    assert At(w', Slot(k)) == Some(x);
    forall p | At(w', p).Some?
      ensures At(w', p).value in where' && where'[At(w', p).value] == p
    {
      if p != Slot(k) {
        EvictionBack(w, where, t, victims, w', p);
        NotInHand(w, where, t, victims, p, At(w', p).value);
      }
    }
    forall h | h in where
      ensures At(w', where'[h]) == Some(h)
    {
      if h != x {
        assert where[h] != Local(t) by {
          assert At(w, where[h]) == Some(h);
        }
        EvictionForth(w, where, t, victims, w', h);
      }
    }
  }

  /** The handle in a thread's hands is nowhere else. */
  lemma {:induction false} NotInHand(w: World, where: map<Handle, Place>, t: Tid, victims: seq<Key>, p: Place,
                                     h: Handle)
    requires Tracks(w, where) && t in w.threads && w.threads[t].Opened?
    requires h in where && Evicting(where, victims, t)[h] == p && p != Local(t)
    ensures h != w.threads[t].h
  {
    assert At(w, Local(t)) == Some(w.threads[t].h);
  }

  lemma {:induction false} OverMoves(w: World, where: map<Handle, Place>, t: Tid, k: Key, h: Handle, to: Place,
                                     w': World)
    requires Tracks(w, where) && w'.minted == w.minted && w'.closed == w.closed
    requires t in w.threads && w.threads[t].Opened? && w.threads[t].k == k && w.threads[t].h == h
    requires t in w'.threads && w'.threads == w.threads[t := w'.threads[t]]
    requires w'.threads[t].Closing? && w'.threads[t].next == 0
    requires k in w.cache.slots && w'.cache.slots == w.cache.slots[k := h]
    requires w'.cache.parked == w.cache.parked
    requires
      || (to == Orphan(|w.orphans|) && w'.orphans == w.orphans + [w.cache.slots[k]] && w'.threads[t].list == [])
      || (to == Queue(t, 0) && w'.orphans == w.orphans && w'.threads[t].list == [Entry(k, w.cache.slots[k])])
    ensures Tracks(w', where[w.cache.slots[k] := to][h := Slot(k)])
  {
    Followed(w, where, w', Local(t), Slot(k), to);
  }

  lemma {:induction false} InstallOverMoves(w: World, where: map<Handle, Place>, t: Tid)
    requires Enabled(w, Install(t)) && w.cache.Valid() && Tracks(w, where)
    requires w.threads[t].k in w.cache.slots
    ensures Tracks(DoInstall(w, t), Rehoused(w, where, Install(t)))
  {
    var p := w.threads[t];
    assert p.h != w.cache.slots[p.k] by {
      assert At(w, Local(t)) == Some(p.h) && At(w, Slot(p.k)) == Some(w.cache.slots[p.k]);
    }
    OverMoves(w, where, t, p.k, p.h, if w.cache.Pinned(p.k) then Orphan(|w.orphans|) else Queue(t, 0),
              DoInstall(w, t));
  }

  /** Whatever the step, it leaves every handle in exactly one place, and says which. */
  lemma {:induction false} StepMoves(w: World, where: map<Handle, Place>, s: Step)
    requires Enabled(w, s) && w.cache.Valid() && Tracks(w, where)
    ensures Tracks(Do(w, s), Rehoused(w, where, s))
  {
    if s.OpenWorks? || s.CloseNext? || s.CloseRaises? {
      LocalMoves(w, where, s);
    } else if s.Install? {
      InstallMoves(w, where, s.t);
    } else if s.FailRead? || s.Leave? || s.DoSweep? || s.BeginClose? || s.Collect? {
      LockedMoves(w, where, s);
    } else {
      QuietMoves(w, where, s);
    }
  }

  lemma {:induction false} LocalMoves(w: World, where: map<Handle, Place>, s: Step)
    requires Enabled(w, s) && w.cache.Valid() && Tracks(w, where)
    requires s.OpenWorks? || s.CloseNext? || s.CloseRaises?
    ensures Tracks(Do(w, s), Rehoused(w, where, s))
  {
    match s
    case OpenWorks(t) => OpenWorksMoves(w, where, t);
    case CloseNext(t) => CloseNextMoves(w, where, t);
    case CloseRaises(t) => CloseRaisesMoves(w, where, t);
  }

  lemma {:induction false} InstallMoves(w: World, where: map<Handle, Place>, t: Tid)
    requires Enabled(w, Install(t)) && w.cache.Valid() && Tracks(w, where)
    ensures Tracks(DoInstall(w, t), Rehoused(w, where, Install(t)))
  {
    if w.threads[t].k in w.cache.slots {
      InstallOverMoves(w, where, t);
    } else {
      InstallNewMoves(w, where, t);
    }
  }

  lemma {:induction false} LockedMoves(w: World, where: map<Handle, Place>, s: Step)
    requires Enabled(w, s) && w.cache.Valid() && Tracks(w, where)
    requires s.FailRead? || s.Leave? || s.DoSweep? || s.BeginClose? || s.Collect?
    ensures Tracks(Do(w, s), Rehoused(w, where, s))
  {
    match s
    case FailRead(t) => FailReadMoves(w, where, t);
    case Leave(t) => LeaveMoves(w, where, t);
    case DoSweep(t) => DoSweepMoves(w, where, t);
    case BeginClose(t, k) => BeginCloseMoves(w, where, t, k);
    case Collect(t, m) => CollectMoves(w, where, t, m);
  }

  /** The steps that move no handle. */
  lemma {:induction false} QuietMoves(w: World, where: map<Handle, Place>, s: Step)
    requires Enabled(w, s) && w.cache.Valid() && Tracks(w, where)
    requires s.BeginRead? || s.BeginAcquire? || s.Find? || s.OpenFails? || s.ClosesDone? || s.EndRead?
      || s.ReadLimit? || s.BeginResize? || s.NewManager?
    ensures Tracks(Do(w, s), where)
  {
    if s.NewManager? {
      Unmoved(w, where, Do(w, s));
    } else if s.BeginAcquire? || s.Find? {
      QuietLookup(w, where, s);
    } else if s.BeginRead? || s.BeginResize? {
      QuietEntry(w, where, s);
    } else {
      QuietPhase(w, where, s);
    }
  }

  lemma {:induction false} QuietEntry(w: World, where: map<Handle, Place>, s: Step)
    requires Enabled(w, s) && w.cache.Valid() && Tracks(w, where)
    requires s.BeginRead? || s.BeginResize?
    ensures Tracks(Do(w, s), where)
  {
    QuietThread(w, where, s.t, Do(w, s));
  }

  lemma {:induction false} QuietLookup(w: World, where: map<Handle, Place>, s: Step)
    requires Enabled(w, s) && w.cache.Valid() && Tracks(w, where)
    requires s.BeginAcquire? || s.Find?
    ensures Tracks(Do(w, s), where)
  {
    QuietThread(w, where, s.t, Do(w, s));
  }

  lemma {:induction false} QuietPhase(w: World, where: map<Handle, Place>, s: Step)
    requires Enabled(w, s) && w.cache.Valid() && Tracks(w, where)
    requires s.OpenFails? || s.ClosesDone? || s.EndRead? || s.ReadLimit?
    ensures Tracks(Do(w, s), where)
  {
    QuietThread(w, where, s.t, Do(w, s));
  }

  predicate EmptyHanded(w: World, t: Tid) {
    t in w.threads ==>
      !w.threads[t].Opened? && (w.threads[t].Closing? ==> w.threads[t].next >= |w.threads[t].list|)
  }

  lemma {:induction false} QuietThread(w: World, where: map<Handle, Place>, t: Tid, w': World)
    requires Tracks(w, where) && w'.minted == w.minted && w'.closed == w.closed && w'.orphans == w.orphans
    requires w'.cache.slots == w.cache.slots && w'.cache.parked == w.cache.parked
    requires EmptyHanded(w, t) && EmptyHanded(w', t)
    requires w'.threads - {t} == w.threads - {t}
    ensures Tracks(w', where)
  {
    forall p
      ensures At(w', p) == At(w, p)
    {
      match p
      case Local(u) => assert u != t ==> (u in w.threads - {t} <==> u in w'.threads - {t});
      case Queue(u, _) => assert u != t ==> (u in w.threads - {t} <==> u in w'.threads - {t});
      case _ =>
    }
    Unmoved(w, where, w');
  }
}
