/** The per-thread manager under many threads.

    The atomic steps are the generation test, each question whether an owner is alive, the ends of
    the two list-lock blocks (reaping, registering), the swap in `close`, and, apart from them, the
    open call, each single close and the thread's write to its own storage. */
module ThreadLocalProtocol {
  import opened Wrappers
  import opened CacheModel
  import opened ThreadLocal

  datatype Phase =
    | Missing                                 // `acquire` found no current entry of its own
      // asking owners, the list lock held: how many asked, which were alive, who was alive at first
    | Scanning(next: nat, kept: set<Tid>, began: set<Tid>)
    | Reaping(list: seq<Handle>, next: nat)   // closing what it reaped
    | Opening(h: Handle)                      // opened, not tracked yet
    | Tracked(h: Handle, generation: nat)     // tracked, about to be remembered and returned
    | Closing(list: seq<Handle>, next: nat)   // inside `close`

  datatype World = World(
    handles: seq<Owned>,
    generation: nat,
    local: map<Tid, Remembered>,
    phases: map<Tid, Phase>,  // threads in the middle of a call
    holder: Option<Tid>,      // who holds the list lock across steps
    started: set<Tid>,
    ended: set<Tid>,
    minted: nat,              // handles opened so far
    closed: seq<Handle>,
    lost: seq<Handle>         // left over by a close that raised
  ) {
    predicate Alive(t: Tid) {
      t in started && t !in ended
    }

    predicate Idle(t: Tid) {
      Alive(t) && t !in phases
    }

    /** The test `acquire` starts with. */
    predicate Current(t: Tid) {
      t in local && local[t].generation == generation
    }
  }

  datatype Step =
    | Spawn(t: Tid)
    | Exit(t: Tid)
    | Hit(t: Tid)          // `acquire` returns the remembered handle
    | Miss(t: Tid)
    | BeginReap(t: Tid)
    | AskNext(t: Tid)      // whether the next owner is alive
    | EndReap(t: Tid)
    | CloseNext(t: Tid)
    | CloseRaises(t: Tid)  // the rest of the list is never closed
    | OpenWorks(t: Tid)
    | OpenFails(t: Tid)
    | Register(t: Tid)
    | Return(t: Tid)       // `acquire` remembers and returns the handle it opened
    | BeginClose(t: Tid)
    | EndClose(t: Tid)

  function Init(): World {
    World([], 0, map[], map[], None, {}, {}, 0, [], [])
  }

  function LiveThreads(w: World): set<Tid> {
    w.started - w.ended
  }

  predicate Lists(w: World, t: Tid) {
    t in w.phases && (w.phases[t].Reaping? || w.phases[t].Closing?)
  }

  predicate AtEnd(w: World, t: Tid) {
    t in w.phases && w.phases[t].Reaping? && w.phases[t].next >= |w.phases[t].list|
  }

  predicate CanClose(w: World, t: Tid) {
    Lists(w, t) && w.phases[t].next < |w.phases[t].list|
  }

  predicate Scans(w: World, t: Tid) {
    t in w.phases && w.phases[t].Scanning?
  }

  predicate Enabled(w: World, s: Step) {
    match s
    case Spawn(t) => t !in w.started
    case Exit(t) => w.Idle(t)
    case Hit(t) => w.Idle(t) && w.Current(t)
    case Miss(t) => w.Idle(t) && !w.Current(t)
    case BeginReap(t) => t in w.phases && w.phases[t].Missing? && w.holder.None?
    case AskNext(t) => Scans(w, t) && w.phases[t].next < |w.handles|
    case EndReap(t) => Scans(w, t) && w.phases[t].next >= |w.handles|
    case CloseNext(t) => CanClose(w, t)
    case CloseRaises(t) => CanClose(w, t)
    case OpenWorks(t) => AtEnd(w, t)
    case OpenFails(t) => AtEnd(w, t)
    case Register(t) => t in w.phases && w.phases[t].Opening? && w.holder.None?
    case Return(t) => t in w.phases && w.phases[t].Tracked?
    case BeginClose(t) => w.Idle(t) && w.holder.None?
    case EndClose(t) => t in w.phases && w.phases[t].Closing? && w.phases[t].next >= |w.phases[t].list|
  }

  function Goes(w: World, t: Tid, p: Phase): World {
    w.(phases := w.phases[t := p])
  }

  function Rests(w: World, t: Tid): World {
    w.(phases := w.phases - {t})
  }

  function DoAskNext(w: World, t: Tid): World
    requires Enabled(w, AskNext(t))
  {
    var p := w.phases[t];
    var owner := w.handles[p.next].owner;
    Goes(w, t, p.(next := p.next + 1, kept := if w.Alive(owner) then p.kept + {owner} else p.kept))
  }

  function DoEndReap(w: World, t: Tid): World
    requires Enabled(w, EndReap(t))
  {
    var kept := w.phases[t].kept;
    Goes(w.(handles := LiveEntries(w.handles, kept), holder := None), t,
         Reaping(HandlesOf(DeadEntries(w.handles, kept)), 0))
  }

  function DoCloseNext(w: World, t: Tid): World
    requires CanClose(w, t)
  {
    var p := w.phases[t];
    Goes(w.(closed := w.closed + [p.list[p.next]]), t, p.(next := p.next + 1))
  }

  function DoCloseRaises(w: World, t: Tid): World
    requires CanClose(w, t)
  {
    var p := w.phases[t];
    Rests(w.(closed := w.closed + [p.list[p.next]], lost := w.lost + p.list[p.next + 1..]), t)
  }

  function Do(w: World, s: Step): World
    requires Enabled(w, s)
  {
    match s
    case Spawn(t) => w.(started := w.started + {t})
    case Exit(t) => w.(ended := w.ended + {t}, local := w.local - {t})
    case Hit(t) => w
    case Miss(t) => Goes(w, t, Missing)
    case BeginReap(t) => Goes(w.(holder := Some(t)), t, Scanning(0, {}, LiveThreads(w)))
    case AskNext(t) => DoAskNext(w, t)
    case EndReap(t) => DoEndReap(w, t)
    case CloseNext(t) => DoCloseNext(w, t)
    case CloseRaises(t) => DoCloseRaises(w, t)
    case OpenWorks(t) => Goes(w.(minted := w.minted + 1), t, Opening(w.minted))
    case OpenFails(t) => Rests(w, t)
    case Register(t) =>
      var h := w.phases[t].h;
      Goes(w.(handles := w.handles + [Owned(t, h)]), t, Tracked(h, w.generation))
    case Return(t) =>
      var p := w.phases[t];
      Rests(w.(local := w.local[t := Remembered(p.h, p.generation)]), t)
    case BeginClose(t) =>
      Goes(w.(handles := [], generation := w.generation + 1), t, Closing(HandlesOf(w.handles), 0))
    case EndClose(t) => Rests(w.(local := w.local - {t}), t)
  }

  // Where a handle is

  datatype Place = Hand(t: Tid) | Listed(t: Tid) | Queue(t: Tid, i: nat) | Shut(i: nat) | Lost(i: nat)

  function At(w: World, p: Place): Option<Handle> {
    match p
    case Hand(t) => if t in w.phases && w.phases[t].Opening? then Some(w.phases[t].h) else None
    case Listed(t) => HandleOf(w.handles, t)
    case Queue(t, i) =>
      if Lists(w, t) && w.phases[t].next <= i < |w.phases[t].list| then Some(w.phases[t].list[i]) else None
    case Shut(i) => if i < |w.closed| then Some(w.closed[i]) else None
    case Lost(i) => if i < |w.lost| then Some(w.lost[i]) else None
  }

  /** `where` names, for every handle ever opened, the one place it is in. */
  ghost predicate Tracks(w: World, where: map<Handle, Place>) {
    && (forall h: Handle :: h in where <==> h < w.minted)
    && (forall h: Handle :: h in where ==> At(w, where[h]) == Some(h))
    && (forall p: Place :: At(w, p).Some? ==> At(w, p).value in where && where[At(w, p).value] == p)
  }

  /** What a thread's own state says about its tracked entry. */
  predicate ThreadAgrees(w: World, t: Tid) {
    && (t in w.local ==> w.local[t].generation <= w.generation)
    && (t !in w.started ==> HandleOf(w.handles, t).None? && t !in w.local && t !in w.phases)
    && (t in w.ended ==> t !in w.phases)
    && (w.Idle(t) ==> HandleOf(w.handles, t) == if w.Current(t) then Some(w.local[t].handle) else None)
    && (t in w.phases ==>
          match w.phases[t]
          case Tracked(h, g) =>
            g <= w.generation && HandleOf(w.handles, t) == if g == w.generation then Some(h) else None
          case _ => !w.Current(t) && HandleOf(w.handles, t).None?)
  }

  /** While a thread scans it holds the lock; the owners asked and not kept have exited, and every
      owner not exited was alive when the scan began. */
  predicate ScanAgrees(w: World, t: Tid) {
    && (w.holder == Some(t) <==> Scans(w, t))
    && (Scans(w, t) ==>
          var p := w.phases[t];
          && p.next <= |w.handles| && p.kept <= Owners(w.handles[..p.next]) && t !in p.kept && t in p.began
          && Owners(w.handles[..p.next]) - p.kept <= w.ended
          && p.kept <= p.began && Owners(w.handles) <= p.began + w.ended)
  }

  /** The handle a thread is about to return is its tracked one, or a closer took it. */
  predicate Settled(w: World, where: map<Handle, Place>, t: Tid) {
    t in w.phases && w.phases[t].Tracked? ==>
      && w.phases[t].h in where
      && (where[w.phases[t].h] == Listed(t) || Taken(where[w.phases[t].h]))
  }

  predicate Taken(p: Place) {
    p.Queue? || p.Shut? || p.Lost?
  }

  ghost predicate Inv(w: World, where: map<Handle, Place>) {
    && OnePerThread(w.handles)
    && Tracks(w, where)
    && (forall t: Tid :: ThreadAgrees(w, t))
    && (forall t: Tid :: ScanAgrees(w, t))
    && (forall t: Tid :: Settled(w, where, t))
  }

  // Every step keeps the scan and the threads' own view

  lemma {:induction false} OwnersPrefix(handles: seq<Owned>, n: nat)
    requires n < |handles|
    ensures Owners(handles[..n + 1]) == Owners(handles[..n]) + {handles[n].owner}
  {
    assert handles[..n + 1] == handles[..n] + [handles[n]];
    AppendHandle(handles[..n], handles[n], 0);
  }

  lemma {:induction false} OwnerTracked(w: World, i: nat)
    requires OnePerThread(w.handles) && i < |w.handles| && ThreadAgrees(w, w.handles[i].owner)
    ensures w.handles[i].owner in Owners(w.handles) && w.handles[i].owner in w.started
  {
    EntryOf(w.handles, i);
  }

  lemma {:induction false} OwnersStarted(w: World)
    requires forall u: Tid :: ThreadAgrees(w, u)
    ensures Owners(w.handles) <= w.started
  {
    forall u: Tid | u in Owners(w.handles)
      ensures u in w.started
    {
      HandleOwner(w.handles, u);
      assert ThreadAgrees(w, u);
    }
  }

  lemma {:induction false} AskKeeps(w: World, t: Tid)
    requires Enabled(w, AskNext(t)) && OnePerThread(w.handles) && ScanAgrees(w, t)
    requires forall u: Tid :: ThreadAgrees(w, u)
    ensures ScanAgrees(DoAskNext(w, t), t)
  {
    var p := w.phases[t];
    assert ThreadAgrees(w, t) && ThreadAgrees(w, w.handles[p.next].owner);
    OwnersPrefix(w.handles, p.next);
    OwnerTracked(w, p.next);
    HandleOwner(w.handles, t);
  }

  lemma {:induction false} ScanKept(w: World, s: Step, t: Tid)
    requires Enabled(w, s) && OnePerThread(w.handles)
    requires (forall u: Tid :: ThreadAgrees(w, u)) && (forall u: Tid :: ScanAgrees(w, u))
    ensures ScanAgrees(Do(w, s), t)
  {
    assert ScanAgrees(w, t) && ScanAgrees(w, s.t) && ThreadAgrees(w, t);
    if s.BeginReap? {
      OwnersStarted(w);
      assert w.handles[..0] == [];
    } else if s == AskNext(t) {
      AskKeeps(w, t);
    }
  }

  /** When the scan ends, whoever was not kept has exited. */
  lemma {:induction false} ScannedAll(w: World, t: Tid)
    requires Enabled(w, EndReap(t)) && ScanAgrees(w, t)
    ensures Owners(w.handles) - w.phases[t].kept <= w.ended && w.phases[t].kept <= Owners(w.handles)
  {
    assert w.handles[..w.phases[t].next] == w.handles;
  }

  lemma {:induction false} AgreesKept(w: World, s: Step, t: Tid)
    requires Enabled(w, s) && (forall u: Tid :: ThreadAgrees(w, u)) && ScanAgrees(w, s.t)
    ensures ThreadAgrees(Do(w, s), t)
  {
    assert ThreadAgrees(w, t) && ThreadAgrees(w, s.t);
    match s
    case EndReap(_) =>
      ScannedAll(w, s.t);
      HandleOwner(w.handles, t);
      LiveHandle(w.handles, w.phases[s.t].kept, t);
    case Register(_) => AppendHandle(w.handles, Owned(s.t, w.phases[s.t].h), t);
    case _ =>
  }

  lemma {:induction false} OnePerThreadKept(w: World, s: Step)
    requires Enabled(w, s) && OnePerThread(w.handles) && ThreadAgrees(w, s.t)
    ensures OnePerThread(Do(w, s).handles)
  {
    match s
    case EndReap(t) => LiveSplit(w.handles, w.phases[t].kept);
    case Register(t) =>
      HandleOwner(w.handles, t);
      AppendHandle(w.handles, Owned(t, w.phases[t].h), t);
    case _ =>
  }

  // Every step keeps every handle in one place

  function IndexOfOwner(taken: seq<Owned>, t: Tid): nat {
    if taken == [] || taken[0].owner == t then 0 else 1 + IndexOfOwner(taken[1..], t)
  }

  /** The entries a thread takes off the tracked list go to its own list. */
  function Harvest(where: map<Handle, Place>, taken: seq<Owned>, t: Tid): (r: map<Handle, Place>)
    ensures forall h :: h in r <==> h in where
  {
    map h | h in where ::
      if where[h].Listed? && HandleOf(taken, where[h].t).Some? then Queue(t, IndexOfOwner(taken, where[h].t))
      else where[h]
  }

  /** The rest of a list after a close that raised. */
  function Losing(base: nat, where: map<Handle, Place>, t: Tid, from: nat): (r: map<Handle, Place>)
    ensures forall h :: h in r <==> h in where
  {
    map h | h in where ::
      if where[h].Queue? && where[h].t == t && where[h].i >= from then Lost(base + (where[h].i - from))
      else where[h]
  }

  function Rehoused(w: World, where: map<Handle, Place>, s: Step): map<Handle, Place>
    requires Enabled(w, s)
  {
    match s
    case EndReap(t) => Harvest(where, DeadEntries(w.handles, w.phases[t].kept), t)
    case BeginClose(t) => Harvest(where, w.handles, t)
    case CloseNext(t) => where[w.phases[t].list[w.phases[t].next] := Shut(|w.closed|)]
    case CloseRaises(t) =>
      Losing(|w.lost|, where[w.phases[t].list[w.phases[t].next] := Shut(|w.closed|)], t, w.phases[t].next + 1)
    case OpenWorks(t) => where[w.minted := Hand(t)]
    case Register(t) => where[w.phases[t].h := Listed(t)]
    case _ => where
  }

  lemma {:induction false} Unmoved(w: World, where: map<Handle, Place>, w': World)
    requires Tracks(w, where) && w'.minted == w.minted
    requires forall p: Place :: At(w', p) == At(w, p)
    ensures Tracks(w', where)
  {}

  /** One handle goes from `a` to the empty place `b`. */
  lemma {:induction false} Moved(w: World, where: map<Handle, Place>, w': World, a: Place, b: Place)
    requires Tracks(w, where) && w'.minted == w.minted
    requires At(w, a).Some? && At(w, b).None? && At(w', a).None? && At(w', b) == At(w, a)
    requires forall p: Place :: p != a && p != b ==> At(w', p) == At(w, p)
    ensures Tracks(w', where[At(w, a).value := b])
  {}

  lemma {:induction false} TakenAt(taken: seq<Owned>, i: nat)
    requires OnePerThread(taken) && i < |HandlesOf(taken)|
    ensures i < |taken| && HandlesOf(taken)[i] == taken[i].handle
    ensures HandleOf(taken, taken[i].owner) == Some(taken[i].handle)
    ensures IndexOfOwner(taken, taken[i].owner) == i
    ensures taken[i].owner in Owners(taken)
  {
    if i > 0 {
      TakenAt(taken[1..], i - 1);
    }
  }

  lemma {:induction false} TakenBy(taken: seq<Owned>, u: Tid)
    requires HandleOf(taken, u).Some?
    ensures IndexOfOwner(taken, u) < |HandlesOf(taken)|
    ensures Some(HandlesOf(taken)[IndexOfOwner(taken, u)]) == HandleOf(taken, u)
  {
    if taken[0].owner != u {
      TakenBy(taken[1..], u);
    }
  }

  /** A thread takes `taken` off the tracked list onto its own, leaving `rest`. */
  ghost predicate Takes(w: World, t: Tid, taken: seq<Owned>, w': World) {
    && w'.minted == w.minted && w'.closed == w.closed && w'.lost == w.lost
    && !Lists(w, t) && (t in w.phases ==> !w.phases[t].Opening?)
    && t in w'.phases && w'.phases == w.phases[t := w'.phases[t]]
    && Lists(w', t) && w'.phases[t].next == 0 && w'.phases[t].list == HandlesOf(taken)
    && OnePerThread(taken)
  }

  /** Each thread's entry is either taken or left. */
  ghost predicate Splits(w: World, taken: seq<Owned>, w': World, u: Tid) {
    if HandleOf(taken, u).Some? then HandleOf(w.handles, u) == HandleOf(taken, u) && HandleOf(w'.handles, u).None?
    else HandleOf(w'.handles, u) == HandleOf(w.handles, u)
  }

  lemma {:induction false} HarvestBack(w: World, where: map<Handle, Place>, taken: seq<Owned>, t: Tid, w': World,
                                       p: Place)
    requires Tracks(w, where) && Takes(w, t, taken, w') && (forall u: Tid :: Splits(w, taken, w', u))
    requires At(w', p).Some?
    ensures At(w', p).value in where && Harvest(where, taken, t)[At(w', p).value] == p
  {
    if p.Queue? && p.t == t {
      TakenAt(taken, p.i);
      assert Splits(w, taken, w', taken[p.i].owner);
      assert At(w, Listed(taken[p.i].owner)) == At(w', p);
    } else {
      if p.Listed? {
        assert Splits(w, taken, w', p.t);
      }
      assert At(w, p) == At(w', p);
    }
  }

  lemma {:induction false} HarvestForth(w: World, where: map<Handle, Place>, taken: seq<Owned>, t: Tid, w': World,
                                        h: Handle)
    requires Tracks(w, where) && Takes(w, t, taken, w') && (forall u: Tid :: Splits(w, taken, w', u))
    requires h in where
    ensures At(w', Harvest(where, taken, t)[h]) == Some(h)
  {
    var p := where[h];
    assert At(w, p) == Some(h);
    if p.Listed? {
      assert Splits(w, taken, w', p.t);
      if HandleOf(taken, p.t).Some? {
        TakenBy(taken, p.t);
      }
    } else {
      assert At(w', p) == At(w, p);
    }
  }

  lemma {:induction false} HarvestMoves(w: World, where: map<Handle, Place>, taken: seq<Owned>, t: Tid, w': World)
    requires Tracks(w, where) && Takes(w, t, taken, w') && (forall u: Tid :: Splits(w, taken, w', u))
    ensures Tracks(w', Harvest(where, taken, t))
  {
    forall p: Place | At(w', p).Some?
      ensures At(w', p).value in where && Harvest(where, taken, t)[At(w', p).value] == p
    {
      HarvestBack(w, where, taken, t, w', p);
    }
    forall h: Handle | h in where
      ensures At(w', Harvest(where, taken, t)[h]) == Some(h)
    {
      HarvestForth(w, where, taken, t, w', h);
    }
  }

  lemma {:induction false} EndReapMoves(w: World, where: map<Handle, Place>, t: Tid)
    requires Enabled(w, EndReap(t)) && OnePerThread(w.handles) && Tracks(w, where)
    ensures Tracks(DoEndReap(w, t), Rehoused(w, where, EndReap(t)))
  {
    var kept, w' := w.phases[t].kept, DoEndReap(w, t);
    var taken := DeadEntries(w.handles, kept);
    LiveSplit(w.handles, kept);
    forall u: Tid
      ensures Splits(w, taken, w', u)
    {
      LiveHandle(w.handles, kept, u);
    }
    HarvestMoves(w, where, taken, t, w');
  }

  lemma {:induction false} BeginCloseMoves(w: World, where: map<Handle, Place>, t: Tid)
    requires Enabled(w, BeginClose(t)) && OnePerThread(w.handles) && Tracks(w, where)
    ensures Tracks(Do(w, BeginClose(t)), Rehoused(w, where, BeginClose(t)))
  {
    HarvestMoves(w, where, w.handles, t, Do(w, BeginClose(t)));
  }

  lemma {:induction false} CloseNextMoves(w: World, where: map<Handle, Place>, t: Tid)
    requires CanClose(w, t) && Tracks(w, where)
    ensures Tracks(DoCloseNext(w, t), Rehoused(w, where, CloseNext(t)))
  {
    Moved(w, where, DoCloseNext(w, t), Queue(t, w.phases[t].next), Shut(|w.closed|));
  }

  /** A thread leaves its list: what is on it is lost. */
  ghost predicate Loses(w: World, t: Tid, w': World) {
    && Lists(w, t) && w.phases[t].next <= |w.phases[t].list|
    && w'.handles == w.handles && w'.minted == w.minted && w'.closed == w.closed
    && w'.lost == w.lost + w.phases[t].list[w.phases[t].next..]
    && w'.phases == w.phases - {t}
  }

  lemma {:induction false} LosesBack(w: World, where: map<Handle, Place>, t: Tid, w': World, p: Place)
    requires Tracks(w, where) && Loses(w, t, w') && At(w', p).Some?
    ensures At(w', p).value in where && Losing(|w.lost|, where, t, w.phases[t].next)[At(w', p).value] == p
  {
    if p.Lost? && p.i >= |w.lost| {
      assert At(w', p) == At(w, Queue(t, w.phases[t].next + (p.i - |w.lost|)));
    } else {
      assert At(w, p) == At(w', p);
    }
  }

  lemma {:induction false} LosesForth(w: World, where: map<Handle, Place>, t: Tid, w': World, h: Handle)
    requires Tracks(w, where) && Loses(w, t, w') && h in where
    ensures At(w', Losing(|w.lost|, where, t, w.phases[t].next)[h]) == Some(h)
  {
    var p, next := where[h], w.phases[t].next;
    assert At(w, p) == Some(h);
    if p.Queue? && p.t == t {
      assert w.phases[t].list[next..][p.i - next] == h;
    } else {
      assert At(w', p) == At(w, p);
    }
  }

  lemma {:induction false} LosesMoves(w: World, where: map<Handle, Place>, t: Tid, w': World)
    requires Tracks(w, where) && Loses(w, t, w')
    ensures Tracks(w', Losing(|w.lost|, where, t, w.phases[t].next))
  {
    var where' := Losing(|w.lost|, where, t, w.phases[t].next);
    forall p: Place | At(w', p).Some?
      ensures At(w', p).value in where' && where'[At(w', p).value] == p
    {
      LosesBack(w, where, t, w', p);
    }
    forall h: Handle | h in where
      ensures At(w', where'[h]) == Some(h)
    {
      LosesForth(w, where, t, w', h);
    }
  }

  lemma {:induction false} CloseRaisesMoves(w: World, where: map<Handle, Place>, t: Tid)
    requires CanClose(w, t) && Tracks(w, where)
    ensures Tracks(DoCloseRaises(w, t), Rehoused(w, where, CloseRaises(t)))
  {
    var w1 := DoCloseNext(w, t);
    CloseNextMoves(w, where, t);
    assert w1.phases - {t} == w.phases - {t};
    LosesMoves(w1, Rehoused(w, where, CloseNext(t)), t, DoCloseRaises(w, t));
  }

  lemma {:induction false} OpenWorksMoves(w: World, where: map<Handle, Place>, t: Tid)
    requires Enabled(w, OpenWorks(t)) && Tracks(w, where)
    ensures Tracks(Do(w, OpenWorks(t)), Rehoused(w, where, OpenWorks(t)))
  {
    var w' := Do(w, OpenWorks(t));
    assert forall p: Place :: p != Hand(t) ==> At(w', p) == At(w, p);
    assert At(w', Hand(t)) == Some(w.minted);
  }

  lemma {:induction false} RegisterMoves(w: World, where: map<Handle, Place>, t: Tid)
    requires Enabled(w, Register(t)) && Tracks(w, where) && HandleOf(w.handles, t).None?
    ensures Tracks(Do(w, Register(t)), Rehoused(w, where, Register(t)))
  {
    var w', h := Do(w, Register(t)), w.phases[t].h;
    forall p: Place | p != Hand(t) && p != Listed(t)
      ensures At(w', p) == At(w, p)
    {
      if p.Listed? {
        AppendHandle(w.handles, Owned(t, h), p.t);
      }
    }
    AppendHandle(w.handles, Owned(t, h), t);
    Moved(w, where, w', Hand(t), Listed(t));
  }

  lemma {:induction false} QuietMoves(w: World, where: map<Handle, Place>, s: Step)
    requires Enabled(w, s) && Tracks(w, where)
    requires !s.EndReap? && !s.BeginClose? && !s.CloseNext? && !s.CloseRaises? && !s.OpenWorks? && !s.Register?
    ensures Tracks(Do(w, s), where)
  {
    Unmoved(w, where, Do(w, s));
  }

  lemma {:induction false} StepMoves(w: World, where: map<Handle, Place>, s: Step)
    requires Enabled(w, s) && Tracks(w, where) && OnePerThread(w.handles) && ThreadAgrees(w, s.t)
    ensures Tracks(Do(w, s), Rehoused(w, where, s))
  {
    match s
    case EndReap(t) => EndReapMoves(w, where, t);
    case BeginClose(t) => BeginCloseMoves(w, where, t);
    case CloseNext(t) => CloseNextMoves(w, where, t);
    case CloseRaises(t) => CloseRaisesMoves(w, where, t);
    case OpenWorks(t) => OpenWorksMoves(w, where, t);
    case Register(t) => RegisterMoves(w, where, t);
    case _ => QuietMoves(w, where, s);
  }

  lemma {:induction false} SettledKept(w: World, where: map<Handle, Place>, s: Step, t: Tid)
    requires Enabled(w, s) && Tracks(w, where) && Settled(w, where, t)
    ensures Settled(Do(w, s), Rehoused(w, where, s), t)
  {
    if s.Register? {
      assert At(w, Hand(s.t)) == Some(w.phases[s.t].h);
    }
  }

  /** Every atomic step keeps every invariant. */
  lemma {:induction false} StepKeeps(w: World, where: map<Handle, Place>, s: Step)
    requires Inv(w, where) && Enabled(w, s)
    ensures Inv(Do(w, s), Rehoused(w, where, s))
  {
    assert ThreadAgrees(w, s.t) && ScanAgrees(w, s.t);
    OnePerThreadKept(w, s);
    StepMoves(w, where, s);
    forall t: Tid
      ensures ThreadAgrees(Do(w, s), t)
    {
      AgreesKept(w, s, t);
    }
    forall t: Tid
      ensures ScanAgrees(Do(w, s), t)
    {
      ScanKept(w, s, t);
    }
    forall t: Tid
      ensures Settled(Do(w, s), Rehoused(w, where, s), t)
    {
      assert Settled(w, where, t);
      SettledKept(w, where, s, t);
    }
  }

  // Every reachable state

  ghost function After(w: World, steps: seq<Step>): Option<World>
    decreases |steps|
  {
    if steps == [] then Some(w)
    else if !Enabled(w, steps[0]) then None
    else After(Do(w, steps[0]), steps[1..])
  }

  ghost predicate Reachable(w: World) {
    exists steps :: After(Init(), steps) == Some(w)
  }

  lemma {:induction false} RunKeeps(w: World, where: map<Handle, Place>, steps: seq<Step>)
    returns (where': map<Handle, Place>)
    requires Inv(w, where) && After(w, steps).Some?
    ensures Inv(After(w, steps).value, where')
    decreases |steps|
  {
    if steps == [] {
      where' := where;
    } else {
      StepKeeps(w, where, steps[0]);
      where' := RunKeeps(Do(w, steps[0]), Rehoused(w, where, steps[0]), steps[1..]);
    }
  }

  lemma {:induction false} Invariant(w: World) returns (where: map<Handle, Place>)
    requires Reachable(w)
    ensures Inv(w, where)
  {
    var steps :| After(Init(), steps) == Some(w);
    where := RunKeeps(Init(), map[], steps);
  }

  /** Every handle opened so far is in exactly one place: a thread's hands, the tracked list, a list
      being closed, closed, or left over by a close that raised. */
  lemma {:induction false} ExactlyOnePlace(w: World, h: Handle)
    requires Reachable(w)
    ensures h < w.minted ==> exists p: Place :: At(w, p) == Some(h)
    ensures forall p: Place, q: Place :: At(w, p) == Some(h) && At(w, q) == Some(h) ==> p == q && h < w.minted
  {
    var where := Invariant(w);
    if h < w.minted {
      assert At(w, where[h]) == Some(h);
    }
    forall p: Place, q: Place | At(w, p) == Some(h) && At(w, q) == Some(h)
      ensures p == q && h < w.minted
    {
      assert where[h] == p;
    }
  }

  /** A handle is left over exactly by a close that raises before the end of its list. */
  lemma {:induction false} LostOnlyBy(w: World, s: Step)
    requires Enabled(w, s)
    ensures w.lost <= Do(w, s).lost
    ensures Do(w, s).lost != w.lost <==> s.CloseRaises? && w.phases[s.t].next + 1 < |w.phases[s.t].list|
  {
    if s.CloseRaises? {
      assert |Do(w, s).lost| == |w.lost| + |w.phases[s.t].list[w.phases[s.t].next + 1..]|;
    }
  }

  /** A handle is neither closed nor on a list of handles about to be closed. */
  ghost predicate Open(w: World, h: Handle) {
    h !in w.closed && forall u: Tid, i: nat :: At(w, Queue(u, i)) != Some(h)
  }

  /** What is open is in a thread's hands, tracked, or left over. */
  lemma {:induction false} OpenPlaces(w: World, where: map<Handle, Place>, h: Handle)
    requires Tracks(w, where) && h in where
    ensures Open(w, h) <==> where[h].Hand? || where[h].Listed? || where[h].Lost?
  {
    assert At(w, where[h]) == Some(h);
    if where[h].Shut? {
      assert h in w.closed;
    }
    if i :| 0 <= i < |w.closed| && w.closed[i] == h {
      assert At(w, Shut(i)) == Some(h);
    }
  }

  /** When the generation test lets `acquire` return the remembered handle, that handle is tracked
      for the thread and open. */
  lemma {:induction false} RememberedIsOpen(w: World, t: Tid)
    requires Reachable(w) && Enabled(w, Hit(t))
    ensures HandleOf(w.handles, t) == Some(w.local[t].handle)
    ensures Open(w, w.local[t].handle)
  {
    var where := Invariant(w);
    assert ThreadAgrees(w, t);
    assert At(w, Listed(t)) == Some(w.local[t].handle);
    OpenPlaces(w, where, w.local[t].handle);
  }

  /** The handle an opening `acquire` is about to return is tracked exactly when no `close` has
      started a new generation since it was registered.  Otherwise a closer took it: it is closed,
      on the closer's list, or left over by a close that raised, and only then still open. */
  lemma {:induction false} ReturnedIsOpen(w: World, t: Tid)
    requires Reachable(w) && Enabled(w, Return(t))
    ensures var h, same := w.phases[t].h, w.phases[t].generation == w.generation;
      && w.phases[t].generation <= w.generation
      && (HandleOf(w.handles, t) == Some(h) <==> same)
      && (Open(w, h) <==> same || h in w.lost)
      && (!same ==> h in w.closed || h in w.lost || exists u: Tid, i: nat :: At(w, Queue(u, i)) == Some(h))
  {
    var where := Invariant(w);
    var h := w.phases[t].h;
    assert ThreadAgrees(w, t) && Settled(w, where, t);
    assert At(w, where[h]) == Some(h);
    OpenPlaces(w, where, h);
    assert At(w, Listed(t)) == HandleOf(w.handles, t);
    assert where[h].Shut? ==> h in w.closed;
    assert where[h].Lost? ==> h in w.lost;
    if i :| 0 <= i < |w.lost| && w.lost[i] == h {
      assert At(w, Lost(i)) == Some(h);
    }
  }

  lemma {:induction false} AfterSnoc(w: World, steps: seq<Step>, s: Step)
    requires After(w, steps).Some? && Enabled(After(w, steps).value, s)
    ensures After(w, steps + [s]) == Some(Do(After(w, steps).value, s))
    decreases |steps|
  {
    if steps == [] {
      assert (steps + [s])[1..] == [];
    } else {
      assert (steps + [s])[1..] == steps[1..] + [s];
      AfterSnoc(Do(w, steps[0]), steps[1..], s);
    }
  }

  lemma {:induction false} OneMore(w: World, s: Step) returns (w': World)
    requires Reachable(w) && Enabled(w, s)
    ensures Reachable(w') && w' == Do(w, s)
  {
    var steps :| After(Init(), steps) == Some(w);
    AfterSnoc(Init(), steps, s);
    w' := Do(w, s);
  }

  lemma {:induction false} TwoStarted() returns (w: World)
    ensures Reachable(w) && w == World([], 0, map[], map[0 := Missing], None, {0, 1}, {}, 0, [], [])
  {
    w := Init();
    assert After(w, []) == Some(w);
    w := OneMore(w, Spawn(0));
    w := OneMore(w, Spawn(1));
    w := OneMore(w, Miss(0));
  }

  lemma {:induction false} NothingToReap() returns (w: World)
    ensures Reachable(w) && w == World([], 0, map[], map[0 := Reaping([], 0)], None, {0, 1}, {}, 0, [], [])
  {
    w := TwoStarted();
    w := OneMore(w, BeginReap(0));
    w := OneMore(w, EndReap(0));
  }

  /** Two threads have started, and the first has opened and registered handle 0. */
  lemma {:induction false} OneRegistered() returns (w: World)
    ensures Reachable(w)
    ensures w == World([Owned(0, 0)], 0, map[], map[0 := Tracked(0, 0)], None, {0, 1}, {}, 1, [], [])
  {
    w := NothingToReap();
    w := OneMore(w, OpenWorks(0));
    w := OneMore(w, Register(0));
  }

  /** A `close` comes between registering and returning: `acquire` goes on to return a closed handle. */
  lemma {:induction false} ClosedWhileReturning() returns (w: World)
    ensures Reachable(w) && Enabled(w, Return(0)) && w.phases[0].h in w.closed
  {
    w := OneRegistered();
    w := OneMore(w, BeginClose(1));
    assert w.phases[1].list == [0];
    w := OneMore(w, CloseNext(1));
  }

  /** No thread ever has two tracked entries, and no handle is closed twice. */
  lemma {:induction false} OneEntryOneClose(w: World)
    requires Reachable(w)
    ensures forall i, j :: 0 <= i < j < |w.handles| ==> w.handles[i].owner != w.handles[j].owner
    ensures forall i, j :: 0 <= i < j < |w.closed| ==> w.closed[i] != w.closed[j]
  {
    var where := Invariant(w);
    forall i, j | 0 <= i < j < |w.handles|
      ensures w.handles[i].owner != w.handles[j].owner
    {
      DistinctOwners(w.handles, i, j);
    }
    forall i, j | 0 <= i < j < |w.closed|
      ensures w.closed[i] != w.closed[j]
    {
      assert At(w, Shut(i)) == Some(w.closed[i]) && At(w, Shut(j)) == Some(w.closed[j]);
    }
  }

  lemma {:induction false} DistinctOwners(handles: seq<Owned>, i: nat, j: nat)
    requires OnePerThread(handles) && i < j < |handles|
    ensures handles[i].owner != handles[j].owner
  {
    if i == 0 {
      EntryOf(handles[1..], j - 1);
    } else {
      DistinctOwners(handles[1..], i - 1, j - 1);
    }
  }

  /** A reap drops only the entries of threads that have exited.  What it leaves belongs to other
      threads that were alive when it began, one entry each: there is room for the handle about to
      be opened within the number of those threads, whoever exits meanwhile. */
  lemma {:induction false} ReapBoundsTracked(w: World, t: Tid)
    requires Reachable(w) && Enabled(w, EndReap(t))
    ensures var w', began := DoEndReap(w, t), w.phases[t].began;
      && Owners(w.handles) - Owners(w'.handles) <= w.ended
      && Owners(w'.handles) <= began - {t} && |w'.handles| < |began|
  {
    var where := Invariant(w);
    var w', p := DoEndReap(w, t), w.phases[t];
    assert ScanAgrees(w, t);
    ScannedAll(w, t);
    LiveSplit(w.handles, p.kept);
    OwnersCount(w'.handles);
    Cardinality(Owners(w'.handles) + {t}, p.began);
  }
}
