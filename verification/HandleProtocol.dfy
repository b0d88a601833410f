/** The cache under many threads.

    The atomic steps are the lock-held blocks of the cache (CacheModel) and, apart from them, the
    open calls and the `on_evict` calls, which run with the cache lock dropped.  A manager's own
    lock is not modelled: it only rules interleavings out, and `lock=False` is allowed. */
module HandleProtocol {
  import opened Wrappers
  import opened CacheModel

  type Tid = nat
  type Mid = nat

  /** What a thread goes on to when its closes are done. */
  datatype Then =
    | Stop
    | Use(k: Key, h: Handle)  // yield the handle just installed
    | Sweep                   // the sweep after an unpin that found the cache over its limit

  /** Where a thread stands; a thread in no phase is between calls. */
  datatype Phase =
    | Entered(k: Key)                              // pinned, not looked up yet
    | Missed(k: Key, pinned: bool)                 // not cached, the opener still to run
    | Opened(k: Key, h: Handle, pinned: bool)      // opened, not assigned to the cache yet
    | Closing(list: seq<Entry>, next: nat, then_: Then)
    | Reading(k: Key, h: Handle, wasCached: bool)  // inside the `with` block
    | Leaving(k: Key)                              // past the block, not unpinned yet
    | SweepDue                                     // about to read `maxsize`
    | SweepTo(target: nat)                         // about to take the lock

  datatype World = World(
    cache: Cache,
    threads: map<Tid, Phase>,
    managers: map<Mid, Key>,  // auto-release managers whose finalizer has not fired
    minted: nat,              // handles opened so far; each open gives the next number
    closed: seq<Handle>,      // closed so far, in order
    orphans: seq<Handle>      // abandoned without a close
  )

  datatype Step =
    | BeginRead(t: Tid, k: Key)
    | BeginAcquire(t: Tid, k: Key)
    | Find(t: Tid)
    | OpenWorks(t: Tid)
    | OpenFails(t: Tid)
    | Install(t: Tid)
    | CloseNext(t: Tid)
    | CloseRaises(t: Tid)
    | ClosesDone(t: Tid)
    | EndRead(t: Tid)
    | FailRead(t: Tid)
    | Leave(t: Tid)
    | ReadLimit(t: Tid)
    | DoSweep(t: Tid)
    | BeginResize(t: Tid, n: nat)
    | BeginClose(t: Tid, k: Key)
    | NewManager(m: Mid, k: Key)
    | Collect(t: Tid, m: Mid)

  function Init(maxsize: nat): World {
    World(New(maxsize), map[], map[], 0, [], [])
  }

  /** Whether a step can be taken. */
  predicate Enabled(w: World, s: Step) {
    match s
    case BeginRead(t, k) => t !in w.threads
    case BeginAcquire(t, k) => t !in w.threads
    case Find(t) => t in w.threads && w.threads[t].Entered?
    case OpenWorks(t) => t in w.threads && w.threads[t].Missed?
    case OpenFails(t) => t in w.threads && w.threads[t].Missed?
    case Install(t) => t in w.threads && w.threads[t].Opened?
    case CloseNext(t) => CanClose(w, t)
    case CloseRaises(t) => CanClose(w, t)
    case ClosesDone(t) =>
      t in w.threads && w.threads[t].Closing? && w.threads[t].next >= |w.threads[t].list|
    case EndRead(t) => t in w.threads && w.threads[t].Reading?
    case FailRead(t) => t in w.threads && w.threads[t].Reading?
    case Leave(t) => t in w.threads && w.threads[t].Leaving?
    case ReadLimit(t) => t in w.threads && w.threads[t].SweepDue?
    case DoSweep(t) => t in w.threads && w.threads[t].SweepTo?
    case BeginResize(t, n) => t !in w.threads && 1 <= n
    case BeginClose(t, k) => t !in w.threads
    case NewManager(m, k) => m !in w.managers
    case Collect(t, m) => t !in w.threads && m in w.managers
  }

  predicate CanClose(w: World, t: Tid) {
    t in w.threads && w.threads[t].Closing? && w.threads[t].next < |w.threads[t].list|
  }

  function Handles(list: seq<Entry>): (r: seq<Handle>)
    ensures |r| == |list| && forall i :: 0 <= i < |r| ==> r[i] == list[i].handle
  {
    seq(|list|, i requires 0 <= i < |list| => list[i].handle)
  }

  /** What an insert abandons: a displaced value whose key is pinned. */
  function Displaced(c: Cache, k: Key, h: Handle): seq<Handle> {
    if k in c.slots && c.slots[k] != h && c.Pinned(k) then [c.slots[k]] else []
  }

  /** What taking an entry out abandons: a handle already parked under the same key. */
  function Overparked(c: Cache, k: Key): seq<Handle> {
    if k in c.slots && c.Pinned(k) && k in c.parked then [c.parked[k]] else []
  }

  /** `_drop` abandons whatever is in the slot. */
  function Dropped(c: Cache, k: Key): seq<Handle> {
    if k in c.slots then [c.slots[k]] else []
  }

  function Goes(w: World, t: Tid, p: Phase): World {
    w.(threads := w.threads[t := p])
  }

  function Rests(w: World, t: Tid): World {
    w.(threads := w.threads - {t})
  }

  function DoFind(w: World, t: Tid): World
    requires Enabled(w, Find(t))
  {
    var k := w.threads[t].k;
    var (cache, found) := Lookup(w.cache, k);
    Goes(w.(cache := cache), t, if found.Some? then Reading(k, found.value, true) else Missed(k, true))
  }

  function DoBeginAcquire(w: World, t: Tid, k: Key): World {
    var (cache, found) := Lookup(w.cache, k);
    if found.Some? then w.(cache := cache) else Goes(w, t, Missed(k, false))
  }

  function DoOpenWorks(w: World, t: Tid): World
    requires Enabled(w, OpenWorks(t))
  {
    var p := w.threads[t];
    Goes(w.(minted := w.minted + 1), t, Opened(p.k, w.minted, p.pinned))
  }

  function DoOpenFails(w: World, t: Tid): World
    requires Enabled(w, OpenFails(t))
  {
    var p := w.threads[t];
    if p.pinned then Goes(w, t, Leaving(p.k)) else Rests(w, t)
  }

  function DoInstall(w: World, t: Tid): World
    requires Enabled(w, Install(t)) && w.cache.Valid()
  {
    var p := w.threads[t];
    var i := Insert(w.cache, p.k, p.h);
    Goes(w.(cache := i.cache, orphans := w.orphans + Displaced(w.cache, p.k, p.h)),
         t, Closing(i.evicted, 0, if p.pinned then Use(p.k, p.h) else Stop))
  }

  function DoCloseNext(w: World, t: Tid): World
    requires CanClose(w, t)
  {
    var p := w.threads[t];
    Goes(w.(closed := w.closed + [p.list[p.next].handle]), t, p.(next := p.next + 1))
  }

  /** A close that raises ends the loop over the list: the rest of it is never handed over.  After
      an unpin the error is logged and the sweep still runs. */
  function DoCloseRaises(w: World, t: Tid): World
    requires CanClose(w, t)
  {
    var p := w.threads[t];
    var w1 := w.(closed := w.closed + [p.list[p.next].handle],
                 orphans := w.orphans + Handles(p.list[p.next + 1..]));
    match p.then_
    case Stop => Rests(w1, t)
    case Use(k, h) => Goes(w1, t, Leaving(k))
    case Sweep => Goes(w1, t, SweepDue)
  }

  function DoClosesDone(w: World, t: Tid): World
    requires Enabled(w, ClosesDone(t))
  {
    match w.threads[t].then_
    case Stop => Rests(w, t)
    case Use(k, h) => Goes(w, t, Reading(k, h, false))
    case Sweep => Goes(w, t, SweepDue)
  }

  /** The block raises: a handle this reader opened is dropped from the cache, unclosed. */
  function DoFailRead(w: World, t: Tid): World
    requires Enabled(w, FailRead(t))
  {
    var p := w.threads[t];
    if p.wasCached then Goes(w, t, Leaving(p.k))
    else Goes(w.(cache := Delete(w.cache, p.k), orphans := w.orphans + Dropped(w.cache, p.k)), t, Leaving(p.k))
  }

  function DoLeave(w: World, t: Tid): World
    requires Enabled(w, Leave(t))
  {
    var k := w.threads[t].k;
    var u := Unpin(w.cache, k);
    Goes(w.(cache := u.cache), t, Closing(Handed(k, u.deferred), 0, if u.overLimit then Sweep else Stop))
  }

  function DoDoSweep(w: World, t: Tid): World
    requires Enabled(w, DoSweep(t)) && w.cache.Valid()
  {
    var trimmed := Trim(w.cache, w.threads[t].target);
    Goes(w.(cache := trimmed.cache), t, Closing(trimmed.evicted, 0, Stop))
  }

  function DoBeginClose(w: World, t: Tid, k: Key): World {
    var (cache, value) := Discard(w.cache, k);
    Goes(w.(cache := cache, orphans := w.orphans + Overparked(w.cache, k)),
         t, Closing(Handed(k, value), 0, Stop))
  }

  function DoCollect(w: World, t: Tid, m: Mid): World
    requires Enabled(w, Collect(t, m))
  {
    var k := w.managers[m];
    var (cache, value) := Release(w.cache, k);
    var last := k in w.cache.refs && w.cache.refs[k] <= 1;
    Goes(w.(cache := cache, managers := w.managers - {m},
            orphans := w.orphans + if last then Overparked(w.cache, k) else []),
         t, Closing(Handed(k, value), 0, Stop))
  }

  function Do(w: World, s: Step): World
    requires Enabled(w, s) && w.cache.Valid()
  {
    match s
    case BeginRead(t, k) => Goes(w.(cache := Pin(w.cache, k)), t, Entered(k))
    case BeginAcquire(t, k) => DoBeginAcquire(w, t, k)
    case Find(t) => DoFind(w, t)
    case OpenWorks(t) => DoOpenWorks(w, t)
    case OpenFails(t) => DoOpenFails(w, t)
    case Install(t) => DoInstall(w, t)
    case CloseNext(t) => DoCloseNext(w, t)
    case CloseRaises(t) => DoCloseRaises(w, t)
    case ClosesDone(t) => DoClosesDone(w, t)
    case EndRead(t) => Goes(w, t, Leaving(w.threads[t].k))
    case FailRead(t) => DoFailRead(w, t)
    case Leave(t) => DoLeave(w, t)
    case ReadLimit(t) => Goes(w, t, SweepTo(w.cache.maxsize))
    case DoSweep(t) => DoDoSweep(w, t)
    case BeginResize(t, n) => Goes(w.(cache := w.cache.(maxsize := n)), t, SweepTo(n))
    case BeginClose(t, k) => DoBeginClose(w, t, k)
    case NewManager(m, k) => w.(cache := Retain(w.cache, k), managers := w.managers[m := k])
    case Collect(t, m) => DoCollect(w, t, m)
  }

  // Where a handle is

  datatype Place =
    | Local(t: Tid)           // opened, not inserted yet
    | Slot(k: Key)
    | Parking(k: Key)
    | Queue(t: Tid, i: nat)   // entry `i` of the list a thread is closing
    | Shut(i: nat)            // close number `i`
    | Orphan(i: nat)

  function At(w: World, p: Place): Option<Handle> {
    match p
    case Local(t) => if t in w.threads && w.threads[t].Opened? then Some(w.threads[t].h) else None
    case Slot(k) => if k in w.cache.slots then Some(w.cache.slots[k]) else None
    case Parking(k) => if k in w.cache.parked then Some(w.cache.parked[k]) else None
    case Queue(t, i) =>
      if t in w.threads && w.threads[t].Closing? && w.threads[t].next <= i < |w.threads[t].list|
      then Some(w.threads[t].list[i].handle) else None
    case Shut(i) => if i < |w.closed| then Some(w.closed[i]) else None
    case Orphan(i) => if i < |w.orphans| then Some(w.orphans[i]) else None
  }

  /** `where` names, for every handle ever opened, the one place it is in. */
  ghost predicate Tracks(w: World, where: map<Handle, Place>) {
    && (forall h: Handle :: h in where <==> h < w.minted)
    && (forall h: Handle :: h in where ==> At(w, where[h]) == Some(h))
    && (forall p: Place :: At(w, p).Some? ==> At(w, p).value in where && where[At(w, p).value] == p)
  }

  // Who is reading

  /** The key a thread keeps pinned. */
  function PinOf(p: Phase): Option<Key> {
    match p
    case Entered(k) => Some(k)
    case Missed(k, pinned) => if pinned then Some(k) else None
    case Opened(k, _, pinned) => if pinned then Some(k) else None
    case Closing(_, _, then_) => if then_.Use? then Some(then_.k) else None
    case Reading(k, _, _) => Some(k)
    case Leaving(k) => Some(k)
    case _ => None
  }

  function Pinners(threads: map<Tid, Phase>, k: Key): set<Tid> {
    set t | t in threads && PinOf(threads[t]) == Some(k)
  }

  function Owners(managers: map<Mid, Key>, k: Key): set<Mid> {
    set m | m in managers && managers[m] == k
  }

  /** The handle a thread inside `acquire_context` goes through, with its key. */
  function InUse(p: Phase): Option<Entry> {
    match p
    case Reading(k, h, _) => Some(Entry(k, h))
    case Closing(_, _, Use(k, h)) => Some(Entry(k, h))
    case _ => None
  }

  /** Whether a thread still owes the cache a sweep down to its limit. */
  predicate OwesSweep(p: Phase, maxsize: nat) {
    || p.SweepDue?
    || (p.SweepTo? && p.target <= maxsize)
    || (p.Closing? && p.then_.Sweep?)
  }

  // The invariants

  ghost predicate PinsCounted(w: World) {
    forall k :: w.cache.PinCount(k) == |Pinners(w.threads, k)|
  }

  ghost predicate RefsCounted(w: World) {
    forall k :: w.cache.RefCount(k) == |Owners(w.managers, k)|
  }

  ghost predicate ParkedArePinned(w: World) {
    forall k :: k in w.cache.parked ==> w.cache.Pinned(k)
  }

  /** A handle in use is in its slot, parked under its key, or abandoned: never on a close list. */
  ghost predicate UsersCovered(w: World, where: map<Handle, Place>) {
    forall t :: t in w.threads && InUse(w.threads[t]).Some? ==>
      Covered(where, InUse(w.threads[t]).value)
  }

  ghost predicate Covered(where: map<Handle, Place>, e: Entry) {
    e.handle in where &&
    (where[e.handle] == Slot(e.key) || where[e.handle] == Parking(e.key) || where[e.handle].Orphan?)
  }

  ghost predicate SizeOrDebt(w: World) {
    w.cache.Bounded() || exists t :: t in w.threads && OwesSweep(w.threads[t], w.cache.maxsize)
  }

  ghost predicate Inv(w: World, where: map<Handle, Place>) {
    && w.cache.Valid()
    && PinsCounted(w)
    && RefsCounted(w)
    && ParkedArePinned(w)
    && Tracks(w, where)
    && UsersCovered(w, where)
    && SizeOrDebt(w)
  }
}
