/** A call that nothing interrupts: the atomic steps of the protocol, taken by one thread to the end,
    add up to the completed call of the classes. */
module HandleRefinement {
  import opened Wrappers
  import opened CacheModel
  import opened CacheOps
  import opened HandleProtocol
  import opened HandleInvariants
  import HandleSafety

  /** The next step of a thread in the middle of a call, when opens succeed and no close raises. */
  function NextStep(w: World, t: Tid): (s: Step)
    requires t in w.threads && !w.threads[t].Reading?
    ensures Enabled(w, s) && Actor(s) == Some(t)
  {
    match w.threads[t]
    case Entered(_) => Find(t)
    case Missed(_, _) => OpenWorks(t)
    case Opened(_, _, _) => Install(t)
    case Closing(list, next, _) => if next < |list| then CloseNext(t) else ClosesDone(t)
    case Leaving(_) => Leave(t)
    case SweepDue => ReadLimit(t)
    case SweepTo(_) => DoSweep(t)
  }

  function Rank(w: World, t: Tid): nat {
    if t !in w.threads then 0
    else match w.threads[t]
      case Entered(_) => 10
      case Missed(_, _) => 9
      case Opened(_, _, _) => 8
      case Closing(_, _, Use(_, _)) => 7
      case Reading(_, _, _) => 6
      case Leaving(_) => 5
      case Closing(_, _, Sweep) => 4
      case SweepDue => 3
      case SweepTo(_) => 2
      case Closing(_, _, Stop) => 1
  }

  function Remaining(w: World, t: Tid): nat {
    if t in w.threads && w.threads[t].Closing? && w.threads[t].next < |w.threads[t].list|
    then |w.threads[t].list| - w.threads[t].next else 0
  }

  /** Thread `t` runs by itself until it is between calls or inside its `with` block. */
  ghost function Alone(w: World, t: Tid): (w': World)
    requires w.cache.Valid()
    ensures w'.cache.Valid()
    decreases Rank(w, t), Remaining(w, t)
  {
    if t !in w.threads || w.threads[t].Reading? then w
    else
      ValidKept(w, NextStep(w, t));
      RankFalls(w, t);
      Alone(Do(w, NextStep(w, t)), t)
  }

  lemma {:induction false} AloneStep(w: World, t: Tid, w': World)
    requires w.cache.Valid() && t in w.threads && !w.threads[t].Reading?
    requires w' == Do(w, NextStep(w, t))
    ensures w'.cache.Valid() && Alone(w, t) == Alone(w', t)
  {
    ValidKept(w, NextStep(w, t));
  }

  /** Running alone is one of the runs of the protocol. */
  lemma {:induction false} AloneIsRun(w: World, t: Tid) returns (steps: seq<Step>)
    requires w.cache.Valid()
    ensures HandleSafety.After(w, steps) == Some(Alone(w, t))
    decreases Rank(w, t), Remaining(w, t)
  {
    if t !in w.threads || w.threads[t].Reading? {
      steps := [];
    } else {
      var s := NextStep(w, t);
      ValidKept(w, s);
      RankFalls(w, t);
      var rest := AloneIsRun(Do(w, s), t);
      steps := [s] + rest;
      assert steps[1..] == rest;
    }
  }

  lemma {:induction false} RankFalls(w: World, t: Tid)
    requires w.cache.Valid() && t in w.threads && !w.threads[t].Reading?
    ensures var w' := Do(w, NextStep(w, t));
      Rank(w', t) < Rank(w, t) || (Rank(w', t) == Rank(w, t) && Remaining(w', t) < Remaining(w, t))
  {}

  // The closes at the end of a call

  /** The world once a thread has closed the rest of its list. */
  function ClosedRest(w: World, t: Tid): World
    requires t in w.threads && w.threads[t].Closing? && w.threads[t].next <= |w.threads[t].list|
  {
    var p := w.threads[t];
    Goes(w.(closed := w.closed + Handles(p.list[p.next..])), t, p.(next := |p.list|))
  }

  lemma {:induction false} ClosesAlone(w: World, t: Tid)
    requires w.cache.Valid() && t in w.threads && w.threads[t].Closing? && w.threads[t].next <= |w.threads[t].list|
    ensures Alone(w, t) == Alone(ClosedRest(w, t), t)
    decreases Remaining(w, t)
  {
    if CanClose(w, t) {
      AloneStep(w, t, DoCloseNext(w, t));
      ClosesAlone(DoCloseNext(w, t), t);
      RestAfterOne(w, t);
    } else {
      NothingLeft(w, t);
    }
  }

  lemma {:induction false} NothingLeft(w: World, t: Tid)
    requires t in w.threads && w.threads[t].Closing? && w.threads[t].next == |w.threads[t].list|
    ensures ClosedRest(w, t) == w
  {
    var p := w.threads[t];
    assert w.closed + Handles(p.list[p.next..]) == w.closed;
    assert w.threads[t := p] == w.threads;
  }

  lemma {:induction false} RestAfterOne(w: World, t: Tid)
    requires CanClose(w, t)
    ensures ClosedRest(DoCloseNext(w, t), t) == ClosedRest(w, t)
  {
    var p, w1 := w.threads[t], DoCloseNext(w, t);
    assert p.list[p.next..] == [p.list[p.next]] + p.list[p.next + 1..];
    HandlesAppend([p.list[p.next]], p.list[p.next + 1..]);
    assert Handles([p.list[p.next]]) == [p.list[p.next].handle];
    ClosedTwice(w.closed, [p.list[p.next]], p.list[p.next + 1..]);
    assert w1.threads[t := p.(next := |p.list|)] == w.threads[t := p.(next := |p.list|)];
  }

  lemma {:induction false} HandlesAppend(a: seq<Entry>, b: seq<Entry>)
    ensures Handles(a + b) == Handles(a) + Handles(b)
  {}

  lemma {:induction false} ClosedTwice(closed: seq<Handle>, a: seq<Entry>, b: seq<Entry>)
    ensures closed + Handles(a) + Handles(b) == closed + Handles(a + b)
  {
    HandlesAppend(a, b);
    assert closed + Handles(a) + Handles(b) == closed + (Handles(a) + Handles(b));
  }

  /** The closes of `list`, then whatever comes after them. */
  lemma {:induction false} ListAlone(w: World, t: Tid, list: seq<Entry>, then_: Then)
    requires w.cache.Valid() && t in w.threads && w.threads[t] == Closing(list, 0, then_)
    ensures var w1 := w.(closed := w.closed + Handles(list));
      Alone(w, t) == match then_
        case Stop => Rests(w1, t)
        case Use(k, h) => Goes(w1, t, Reading(k, h, false))
        case Sweep => Alone(Goes(w1, t, SweepDue), t)
  {
    var c := ClosedRest(w, t);
    var w1 := w.(closed := w.closed + Handles(list));
    ClosesAlone(w, t);
    assert list[0..] == list;
    var d := DoClosesDone(c, t);
    AloneStep(c, t, d);
    assert c.threads - {t} == w.threads - {t};
    match then_
    case Stop => assert d == Rests(w1, t);
    case Use(k, h) => assert d.threads == w.threads[t := Reading(k, h, false)];
    case Sweep => assert d.threads == w.threads[t := SweepDue];
  }

  // Each call, run alone, is the completed call

  /** A world after a completed call: the cache, and what the call closed and abandoned. */
  function Completed(w: World, cache: Cache, closed: seq<Entry>, orphans: seq<Handle>): World {
    w.(cache := cache, closed := w.closed + Handles(closed), orphans := w.orphans + orphans)
  }

  lemma {:induction false} BackAtRest(threads: map<Tid, Phase>, t: Tid, p: Phase)
    requires t !in threads
    ensures threads[t := p] - {t} == threads
  {}

  lemma {:induction false} SweepAlone(w: World, t: Tid)
    requires w.cache.Valid() && t in w.threads && w.threads[t].SweepTo?
    ensures var s := Trim(w.cache, w.threads[t].target);
      Alone(w, t) == Rests(Completed(w, s.cache, s.evicted, []), t)
  {
    var w1 := DoDoSweep(w, t);
    AloneStep(w, t, w1);
    ListAlone(w1, t, w1.threads[t].list, Stop);
    assert w1.threads - {t} == w.threads - {t};
    assert w.orphans + [] == w.orphans;
  }

  lemma {:induction false} DueAlone(w: World, t: Tid)
    requires w.cache.Valid() && t in w.threads && w.threads[t].SweepDue?
    ensures var s := Trim(w.cache, w.cache.maxsize);
      Alone(w, t) == Rests(Completed(w, s.cache, s.evicted, []), t)
  {
    var w1 := Goes(w, t, SweepTo(w.cache.maxsize));
    AloneStep(w, t, w1);
    SweepAlone(w1, t);
    assert w1.threads - {t} == w.threads - {t};
  }

  lemma {:induction false} ListAndSweepAlone(w: World, t: Tid, list: seq<Entry>)
    requires w.cache.Valid() && t in w.threads && w.threads[t] == Closing(list, 0, Sweep)
    ensures var s := Trim(w.cache, w.cache.maxsize);
      Alone(w, t) == Rests(Completed(w, s.cache, list + s.evicted, []), t)
  {
    var s := Trim(w.cache, w.cache.maxsize);
    var w1 := Goes(w.(closed := w.closed + Handles(list)), t, SweepDue);
    ListAlone(w, t, list, Sweep);
    DueAlone(w1, t);
    ClosedTwice(w.closed, list, s.evicted);
    assert w1.threads - {t} == w.threads - {t};
  }

  /** Leaving `acquire_context`. */
  lemma {:induction false} LeaveAlone(w: World, t: Tid)
    requires w.cache.Valid() && t in w.threads && w.threads[t].Leaving?
    ensures var e := Unheld(w.cache, w.threads[t].k);
      Alone(w, t) == Rests(Completed(w, e.cache, e.closed, []), t)
  {
    var k := w.threads[t].k;
    var u := Unpin(w.cache, k);
    var w1, list := DoLeave(w, t), Handed(k, u.deferred);
    UnpinKeepsValid(w.cache, k);
    AloneStep(w, t, w1);
    if u.overLimit {
      ListAndSweepAlone(w1, t, list);
    } else {
      ListAlone(w1, t, list, Stop);
      assert w.orphans + [] == w.orphans;
    }
    assert w1.threads - {t} == w.threads - {t};
  }

  /** What a close that raises leaves: the handle is gone, the rest of the list is abandoned. */
  function Broken(w: World, t: Tid): World
    requires CanClose(w, t)
  {
    var p := w.threads[t];
    w.(closed := w.closed + [p.list[p.next].handle], orphans := w.orphans + Handles(p.list[p.next + 1..]))
  }

  /** A close that raises ends the call, but an `acquire_context` on its way to the `yield` still takes
      its pin back, and an `unpin` still sweeps. */
  lemma {:induction false} RaisingCloseAlone(w: World, t: Tid)
    requires w.cache.Valid() && CanClose(w, t)
    ensures var w1 := Broken(w, t);
      && DoCloseRaises(w, t).cache.Valid()
      && Alone(DoCloseRaises(w, t), t) == match w.threads[t].then_
        case Stop => Rests(w1, t)
        case Use(k, _) => var e := Unheld(w.cache, k); Rests(Completed(w1, e.cache, e.closed, []), t)
        case Sweep =>
          var s := Trim(w.cache, w.cache.maxsize);
          Rests(Completed(w1, s.cache, s.evicted, []), t)
  {
    var w1, d := Broken(w, t), DoCloseRaises(w, t);
    match w.threads[t].then_
    case Stop =>
    case Use(k, _) =>
      assert d == Goes(w1, t, Leaving(k));
      LeaveAlone(d, t);
      assert d.threads - {t} == w1.threads - {t};
    case Sweep =>
      assert d == Goes(w1, t, SweepDue);
      DueAlone(d, t);
      assert d.threads - {t} == w1.threads - {t};
  }

  /** From the open to the end of `acquire`, or to the `yield` of `acquire_context`. */
  lemma {:induction false} InstallAlone(w: World, t: Tid)
    requires w.cache.Valid() && t in w.threads && w.threads[t].Opened?
    ensures var p := w.threads[t];
      var i := Insert(w.cache, p.k, p.h);
      var w' := Completed(w, i.cache, i.evicted, Displaced(w.cache, p.k, p.h));
      Alone(w, t) == if p.pinned then Goes(w', t, Reading(p.k, p.h, false)) else Rests(w', t)
  {
    var p := w.threads[t];
    var w1 := DoInstall(w, t);
    AloneStep(w, t, w1);
    ListAlone(w1, t, w1.threads[t].list, w1.threads[t].then_);
    assert w1.threads - {t} == w.threads - {t};
    assert w1.threads[t := Reading(p.k, p.h, false)] == w.threads[t := Reading(p.k, p.h, false)];
  }

  lemma {:induction false} OpenAlone(w: World, t: Tid)
    requires w.cache.Valid() && t in w.threads && w.threads[t].Missed? && w.threads[t].k !in w.cache.slots
    ensures var p := w.threads[t];
      var i := Insert(w.cache, p.k, w.minted);
      var w' := Completed(w.(minted := w.minted + 1), i.cache, i.evicted, []);
      Alone(w, t) == if p.pinned then Goes(w', t, Reading(p.k, w.minted, false)) else Rests(w', t)
  {
    var p := w.threads[t];
    var w1 := DoOpenWorks(w, t);
    AloneStep(w, t, w1);
    InstallAlone(w1, t);
    assert w1.threads - {t} == w.threads - {t};
    assert w1.threads[t := Reading(p.k, w.minted, false)] == w.threads[t := Reading(p.k, w.minted, false)];
  }

  /** `acquire`: the world is the same but for the completed call's cache and closes, and one handle
      more opened on a miss. */
  lemma {:induction false} AcquireAlone(w: World, t: Tid, k: Key)
    requires w.cache.Valid() && t !in w.threads
    ensures DoBeginAcquire(w, t, k).cache.Valid()
    ensures Alone(DoBeginAcquire(w, t, k), t) ==
      if k in w.cache.slots then w.(cache := Acquired(w.cache, k, w.minted).cache)
      else Completed(w.(minted := w.minted + 1), Acquired(w.cache, k, w.minted).cache,
                     Insert(w.cache, k, w.minted).evicted, [])
  {
    LookupKeepsValid(w.cache, k);
    if k !in w.cache.slots {
      var w1 := Goes(w, t, Missed(k, false));
      OpenAlone(w1, t);
      BackAtRest(w.threads, t, Missed(k, false));
    }
  }

  /** `acquire_context` up to its `yield`. */
  lemma {:induction false} EnterAlone(w: World, t: Tid, k: Key)
    requires w.cache.Valid() && t !in w.threads
    ensures var entered := BlockEntered(w.cache, k, w.minted);
      var w0 := Do(w, BeginRead(t, k));
      && w0.cache.Valid()
      && Alone(w0, t) ==
        if k in w.cache.slots then
          Goes(w.(cache := entered.cache), t, Reading(k, w.cache.slots[k], true))
        else
          Goes(Completed(w.(minted := w.minted + 1), entered.cache, entered.evicted, []), t,
               Reading(k, w.minted, false))
  {
    var w0 := Goes(w.(cache := Pin(w.cache, k)), t, Entered(k));
    var w1 := DoFind(w0, t);
    assert w0.cache.Valid();
    AloneStep(w0, t, w1);
    if k in w.cache.slots {
      assert w1.threads == w.threads[t := Reading(k, w.cache.slots[k], true)];
    } else {
      OpenAlone(w1, t);
      assert w1.threads[t := Reading(k, w.minted, false)] == w.threads[t := Reading(k, w.minted, false)];
    }
  }

  /** An open that raises: `acquire` leaves everything as it was, `acquire_context` takes its pin back
      with the closes and the sweep that follow. */
  lemma {:induction false} FailedOpenAlone(w: World, t: Tid, k: Key)
    requires w.cache.Valid() && t !in w.threads && k !in w.cache.slots
    ensures var missed := DoBeginAcquire(w, t, k);
      Enabled(missed, OpenFails(t)) && DoOpenFails(missed, t) == w
    ensures var entered := Do(w, BeginRead(t, k));
      var e := Unheld(Pin(w.cache, k), k);
      && Enabled(entered, Find(t)) && Enabled(DoFind(entered, t), OpenFails(t))
      && var failed := DoOpenFails(DoFind(entered, t), t);
      && failed.cache.Valid() && Alone(failed, t) == Completed(w, e.cache, e.closed, [])
  {
    BackAtRest(w.threads, t, Missed(k, false));
    var failed := Goes(w.(cache := Pin(w.cache, k)), t, Leaving(k));
    var entered := Do(w, BeginRead(t, k));
    assert DoOpenFails(DoFind(entered, t), t) == failed by {
      assert w.threads[t := Entered(k)][t := Missed(k, true)][t := Leaving(k)] == w.threads[t := Leaving(k)];
    }
    LeaveAlone(failed, t);
    BackAtRest(w.threads, t, Leaving(k));
  }

  /** The end of the `with` block. */
  lemma {:induction false} ExitAlone(w: World, t: Tid)
    requires w.cache.Valid() && t in w.threads && w.threads[t].Reading?
    ensures var e := Unheld(w.cache, w.threads[t].k);
      Alone(Do(w, EndRead(t)), t) == Rests(Completed(w, e.cache, e.closed, []), t)
  {
    var w1 := Goes(w, t, Leaving(w.threads[t].k));
    LeaveAlone(w1, t);
    assert w1.threads - {t} == w.threads - {t};
  }

  /** The `with` block raises: the slot is dropped when this reader opened it, and then the pin. */
  lemma {:induction false} RaiseAlone(w: World, t: Tid)
    requires w.cache.Valid() && t in w.threads && w.threads[t].Reading?
    ensures DoFailRead(w, t).cache.Valid()
    ensures var p := w.threads[t];
      var was := if p.wasCached then w.cache else Delete(w.cache, p.k);
      && was.Valid()
      && var e := Unheld(was, p.k);
      Alone(DoFailRead(w, t), t)
        == Rests(Completed(w, e.cache, e.closed, if p.wasCached then [] else Dropped(w.cache, p.k)), t)
  {
    DeleteKeepsValid(w.cache, w.threads[t].k);
    var w1 := DoFailRead(w, t);
    LeaveAlone(w1, t);
    assert w1.threads - {t} == w.threads - {t};
    assert w1.orphans + [] == w1.orphans && w.orphans + [] == w.orphans;
  }

  /** `close`. */
  lemma {:induction false} CloseAlone(w: World, t: Tid, k: Key)
    requires w.cache.Valid() && t !in w.threads
    ensures DoBeginClose(w, t, k).cache.Valid()
    ensures var e := Exec(w.cache, Remove(k));
      Alone(DoBeginClose(w, t, k), t) == Completed(w, e.cache, e.closed, Overparked(w.cache, k))
  {
    DiscardKeepsValid(w.cache, k);
    var w1 := DoBeginClose(w, t, k);
    ListAlone(w1, t, w1.threads[t].list, Stop);
    BackAtRest(w.threads, t, w1.threads[t]);
  }

  /** A finalizer. */
  lemma {:induction false} FinalizeAlone(w: World, t: Tid, m: Mid)
    requires w.cache.Valid() && Enabled(w, Step.Collect(t, m))
    ensures DoCollect(w, t, m).cache.Valid()
    ensures var k := w.managers[m];
      var e := Exec(w.cache, Finalize(k));
      Alone(DoCollect(w, t, m), t) == Completed(w.(managers := w.managers - {m}), e.cache, e.closed,
        if k in w.cache.refs && w.cache.refs[k] <= 1 then Overparked(w.cache, k) else [])
  {
    ReleaseKeepsValid(w.cache, w.managers[m]);
    var w1 := DoCollect(w, t, m);
    ListAlone(w1, t, w1.threads[t].list, Stop);
    BackAtRest(w.threads, t, w1.threads[t]);
  }

  /** Setting `maxsize`. */
  lemma {:induction false} ResizeAlone(w: World, t: Tid, n: nat)
    requires w.cache.Valid() && Enabled(w, BeginResize(t, n))
    ensures var e := Exec(w.cache, Resize(n));
      var w0 := Do(w, BeginResize(t, n));
      w0.cache.Valid() && Alone(w0, t) == Completed(w, e.cache, e.closed, [])
  {
    var w0 := Do(w, BeginResize(t, n));
    SweepAlone(w0, t);
    BackAtRest(w.threads, t, SweepTo(n));
  }
}
