/** A call of the per-thread manager that nothing interrupts: the atomic steps of the protocol, taken
    by one thread to the end, add up to the completed call of the class. */
module ThreadLocalRefinement {
  import opened Wrappers
  import opened CacheModel
  import opened ThreadLocal
  import opened ThreadLocalProtocol

  /** No other thread is inside a block of the list lock. */
  predicate Free(w: World, t: Tid) {
    w.holder == if Scans(w, t) then Some(t) else None
  }

  /** The next step of a thread in the middle of a call, when opens succeed and no close raises. */
  function NextStep(w: World, t: Tid): (s: Step)
    requires t in w.phases && Free(w, t)
    ensures Enabled(w, s) && s.t == t && Free(Do(w, s), t)
  {
    match w.phases[t]
    case Missing => BeginReap(t)
    case Scanning(next, _, _) => if next < |w.handles| then AskNext(t) else EndReap(t)
    case Reaping(list, next) => if next < |list| then CloseNext(t) else OpenWorks(t)
    case Opening(_) => Register(t)
    case Tracked(_, _) => Return(t)
    case Closing(list, next) => if next < |list| then CloseNext(t) else EndClose(t)
  }

  function Rank(w: World, t: Tid): nat {
    if t !in w.phases then 0
    else match w.phases[t]
      case Missing => 6
      case Scanning(_, _, _) => 5
      case Reaping(_, _) => 4
      case Opening(_) => 3
      case Tracked(_, _) => 2
      case Closing(_, _) => 1
  }

  function Left(w: World, t: Tid): nat {
    if t !in w.phases then 0
    else match w.phases[t]
      case Scanning(next, _, _) => if next < |w.handles| then |w.handles| - next else 0
      case Reaping(list, next) => if next < |list| then |list| - next else 0
      case Closing(list, next) => if next < |list| then |list| - next else 0
      case _ => 0
  }

  /** Thread `t` runs by itself until its call is over. */
  function Alone(w: World, t: Tid): World
    requires Free(w, t)
    decreases Rank(w, t), Left(w, t)
  {
    if t !in w.phases then w else Alone(Do(w, NextStep(w, t)), t)
  }

  // The scan

  /** The entries of the threads alive, whether or not other threads are counted in. */
  lemma {:induction false} SameSplit(handles: seq<Owned>, kept: set<Tid>, alive: set<Tid>)
    requires Owners(handles) * kept == Owners(handles) * alive
    ensures LiveEntries(handles, kept) == LiveEntries(handles, alive)
    ensures DeadEntries(handles, kept) == DeadEntries(handles, alive)
  {
    if handles != [] {
      var owner, rest := handles[0].owner, handles[1..];
      assert owner in kept <==> owner in Owners(handles) * kept;
      assert owner in alive <==> owner in Owners(handles) * alive;
      assert Owners(rest) * kept == Owners(rest) * (Owners(handles) * kept);
      assert Owners(rest) * alive == Owners(rest) * (Owners(handles) * alive);
      SameSplit(rest, kept, alive);
    }
  }

  /** The world once the scan is over: the threads not alive have lost their entries. */
  function Reaped(w: World, t: Tid): World {
    Goes(w.(handles := LiveEntries(w.handles, LiveThreads(w)), holder := None), t,
         Reaping(HandlesOf(DeadEntries(w.handles, LiveThreads(w))), 0))
  }

  lemma {:induction false} ScanAlone(w: World, t: Tid)
    requires Free(w, t) && Scans(w, t) && w.phases[t].next <= |w.handles|
    requires w.phases[t].kept == Owners(w.handles[..w.phases[t].next]) * LiveThreads(w)
    ensures Alone(w, t) == Alone(Reaped(w, t), t)
    decreases Left(w, t)
  {
    var p := w.phases[t];
    if p.next < |w.handles| {
      var w1 := DoAskNext(w, t);
      OwnersPrefix(w.handles, p.next);
      ScanAlone(w1, t);
      assert w1.phases[t := Reaped(w1, t).phases[t]] == w.phases[t := Reaped(w1, t).phases[t]];
    } else {
      assert w.handles[..p.next] == w.handles;
      SameSplit(w.handles, p.kept, LiveThreads(w));
      assert DoEndReap(w, t) == Reaped(w, t);
    }
  }

  // The closes

  /** A thread's phase once its list is closed. */
  function Emptied(p: Phase): Phase {
    match p
    case Reaping(list, _) => Reaping(list, |list|)
    case Closing(list, _) => Closing(list, |list|)
    case _ => p
  }

  /** The world once a thread has closed its list. */
  function ClosedRest(w: World, t: Tid): World
    requires Lists(w, t) && w.phases[t].next <= |w.phases[t].list|
  {
    Goes(w.(closed := w.closed + w.phases[t].list[w.phases[t].next..]), t, Emptied(w.phases[t]))
  }

  lemma {:induction false} AloneStep(w: World, t: Tid, w': World)
    requires Free(w, t) && t in w.phases && w' == Do(w, NextStep(w, t))
    ensures Free(w', t) && Alone(w, t) == Alone(w', t)
  {}

  lemma {:induction false} RestAfterOne(w: World, t: Tid)
    requires CanClose(w, t)
    ensures Lists(DoCloseNext(w, t), t) && ClosedRest(DoCloseNext(w, t), t) == ClosedRest(w, t)
  {
    var p, w1 := w.phases[t], DoCloseNext(w, t);
    assert p.list[p.next..] == [p.list[p.next]] + p.list[p.next + 1..];
    assert w.closed + [p.list[p.next]] + p.list[p.next + 1..] == w.closed + p.list[p.next..];
    assert w1.phases[t := Emptied(p)] == w.phases[t := Emptied(p)];
  }

  lemma {:induction false} NothingLeft(w: World, t: Tid)
    requires Lists(w, t) && w.phases[t].next == |w.phases[t].list|
    ensures ClosedRest(w, t) == w
  {
    assert w.closed + w.phases[t].list[w.phases[t].next..] == w.closed;
    assert w.phases[t := w.phases[t]] == w.phases;
  }

  lemma {:induction false} ClosesAlone(w: World, t: Tid)
    requires Free(w, t) && Lists(w, t) && w.phases[t].next <= |w.phases[t].list|
    ensures Free(ClosedRest(w, t), t) && Alone(w, t) == Alone(ClosedRest(w, t), t)
    decreases Left(w, t)
  {
    if CanClose(w, t) {
      AloneStep(w, t, DoCloseNext(w, t));
      ClosesAlone(DoCloseNext(w, t), t);
      RestAfterOne(w, t);
    } else {
      NothingLeft(w, t);
    }
  }

  // Each call, run alone, is the completed call

  lemma {:induction false} OpenAlone(w: World, t: Tid)
    requires Free(w, t) && AtEnd(w, t)
    ensures Alone(w, t) == Rests(w.(minted := w.minted + 1, handles := w.handles + [Owned(t, w.minted)],
                                   local := w.local[t := Remembered(w.minted, w.generation)]), t)
  {
    var w1 := Do(w, OpenWorks(t));
    var w2 := Do(w1, Register(t));
    var w3 := Do(w2, Return(t));
    AloneStep(w, t, w1);
    AloneStep(w1, t, w2);
    AloneStep(w2, t, w3);
    assert w3.phases == w.phases - {t};
  }

  lemma {:induction false} MissAlone(w: World, t: Tid)
    requires w.Idle(t) && !w.Current(t) && w.holder.None?
    ensures Alone(Do(w, Miss(t)), t) == Alone(Reaped(w, t), t)
  {
    var w0 := Goes(w, t, Missing);
    var w1 := Do(w0, BeginReap(t));
    assert w1.handles[..0] == [];
    AloneStep(w0, t, w1);
    ScanAlone(w1, t);
    assert Reaped(w1, t).phases == Reaped(w, t).phases;
  }

  /** From the miss to the end of the closes. */
  lemma {:induction false} ReapAlone(w: World, t: Tid, w': World)
    requires w.Idle(t) && !w.Current(t) && w.holder.None?
    requires var list := HandlesOf(DeadEntries(w.handles, LiveThreads(w)));
      w' == Goes(w.(handles := LiveEntries(w.handles, LiveThreads(w)), closed := w.closed + list), t,
                 Reaping(list, |list|))
    ensures Free(w', t) && Alone(Do(w, Miss(t)), t) == Alone(w', t)
  {
    var w1 := Reaped(w, t);
    MissAlone(w, t);
    ClosesAlone(w1, t);
    assert w1.phases[t].list[0..] == w1.phases[t].list;
    assert ClosedRest(w1, t).phases == w'.phases;
  }

  /** `acquire` with no current entry: the exited threads' handles closed in order, then one handle more,
      tracked last and remembered in the current generation; nobody else's state is touched. */
  lemma {:induction false} AcquireAlone(w: World, t: Tid)
    requires w.Idle(t) && !w.Current(t) && w.holder.None?
    ensures var alive := LiveThreads(w);
      Alone(Do(w, Miss(t)), t) == w.(
        handles := LiveEntries(w.handles, alive) + [Owned(t, w.minted)],
        closed := w.closed + HandlesOf(DeadEntries(w.handles, alive)),
        local := w.local[t := Remembered(w.minted, w.generation)],
        minted := w.minted + 1)
  {
    var alive := LiveThreads(w);
    var list := HandlesOf(DeadEntries(w.handles, alive));
    var w1 := Goes(w.(handles := LiveEntries(w.handles, alive), closed := w.closed + list), t,
                   Reaping(list, |list|));
    ReapAlone(w, t, w1);
    OpenAlone(w1, t);
    assert w1.phases - {t} == w.phases;
  }

  /** `acquire` when the opener raises: the exited threads' handles are closed all the same. */
  lemma {:induction false} FailedOpenAlone(w: World, t: Tid)
    requires w.Idle(t) && !w.Current(t) && w.holder.None?
    ensures var alive := LiveThreads(w);
      var list := HandlesOf(DeadEntries(w.handles, alive));
      var reaped := Goes(w.(handles := LiveEntries(w.handles, alive), closed := w.closed + list), t,
                         Reaping(list, |list|));
      && Free(reaped, t) && Alone(Do(w, Miss(t)), t) == Alone(reaped, t)
      && Enabled(reaped, OpenFails(t))
      && Do(reaped, OpenFails(t)) == w.(handles := LiveEntries(w.handles, alive), closed := w.closed + list)
  {
    var alive := LiveThreads(w);
    var list := HandlesOf(DeadEntries(w.handles, alive));
    var w1 := Goes(w.(handles := LiveEntries(w.handles, alive), closed := w.closed + list), t,
                   Reaping(list, |list|));
    ReapAlone(w, t, w1);
    assert w1.phases - {t} == w.phases;
  }

  /** `acquire` with a current entry changes nothing. */
  lemma {:induction false} HitAlone(w: World, t: Tid)
    requires w.Idle(t) && w.Current(t)
    ensures Enabled(w, Hit(t)) && !Enabled(w, Miss(t)) && Do(w, Hit(t)) == w
  {}

  /** `close`: every tracked handle closed in order, a new generation, and the caller's entry gone. */
  lemma {:induction false} CloseAlone(w: World, t: Tid)
    requires w.Idle(t) && w.holder.None?
    ensures Alone(Do(w, BeginClose(t)), t) == w.(
      handles := [],
      generation := w.generation + 1,
      closed := w.closed + HandlesOf(w.handles),
      local := w.local - {t})
  {
    var w0 := Do(w, BeginClose(t));
    ClosesAlone(w0, t);
    var w1 := ClosedRest(w0, t);
    assert w0.phases[t].list[0..] == w0.phases[t].list;
    AloneStep(w1, t, Do(w1, EndClose(t)));
    assert w1.phases - {t} == w.phases;
  }
}
