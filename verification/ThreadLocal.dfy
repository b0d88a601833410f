/** Per-thread handles without a lock: the tracked list, its reaping, and the manager object. */
module ThreadLocal {
  import opened Wrappers
  import opened CacheModel
  import opened Openers

  type Tid = nat

  /** An entry of the tracked list: the thread that opened a handle, and the handle. */
  datatype Owned = Owned(owner: Tid, handle: Handle)

  /** What a thread remembers: its handle and the generation it was registered in. */
  datatype Remembered = Remembered(handle: Handle, generation: nat)

  function Owners(handles: seq<Owned>): set<Tid> {
    if handles == [] then {} else {handles[0].owner} + Owners(handles[1..])
  }

  /** No thread owns two tracked entries. */
  predicate OnePerThread(handles: seq<Owned>) {
    handles == [] || (handles[0].owner !in Owners(handles[1..]) && OnePerThread(handles[1..]))
  }

  /** The handle tracked for a thread. */
  function HandleOf(handles: seq<Owned>, t: Tid): Option<Handle> {
    if handles == [] then None
    else if handles[0].owner == t then Some(handles[0].handle)
    else HandleOf(handles[1..], t)
  }

  /** The entries of threads still alive. */
  function LiveEntries(handles: seq<Owned>, alive: set<Tid>): seq<Owned> {
    if handles == [] then []
    else if handles[0].owner in alive then [handles[0]] + LiveEntries(handles[1..], alive)
    else LiveEntries(handles[1..], alive)
  }

  /** The entries of threads that have exited. */
  function DeadEntries(handles: seq<Owned>, alive: set<Tid>): seq<Owned> {
    if handles == [] then []
    else if handles[0].owner in alive then DeadEntries(handles[1..], alive)
    else [handles[0]] + DeadEntries(handles[1..], alive)
  }

  function HandlesOf(entries: seq<Owned>): (r: seq<Handle>)
    ensures |r| == |entries| && forall i :: 0 <= i < |r| ==> r[i] == entries[i].handle
  {
    if entries == [] then [] else [entries[0].handle] + HandlesOf(entries[1..])
  }

  // Facts about the tracked list

  lemma {:induction false} HandleOwner(handles: seq<Owned>, t: Tid)
    ensures HandleOf(handles, t).Some? <==> t in Owners(handles)
  {
    if handles != [] {
      HandleOwner(handles[1..], t);
    }
  }

  lemma {:induction false} LiveSplit(handles: seq<Owned>, alive: set<Tid>)
    ensures Owners(LiveEntries(handles, alive)) == Owners(handles) * alive
    ensures Owners(DeadEntries(handles, alive)) == Owners(handles) - alive
    ensures OnePerThread(handles) ==> OnePerThread(LiveEntries(handles, alive))
    ensures OnePerThread(handles) ==> OnePerThread(DeadEntries(handles, alive))
  {
    if handles != [] {
      LiveSplit(handles[1..], alive);
    }
  }

  lemma {:induction false} LiveHandle(handles: seq<Owned>, alive: set<Tid>, t: Tid)
    ensures HandleOf(LiveEntries(handles, alive), t) == if t in alive then HandleOf(handles, t) else None
    ensures HandleOf(DeadEntries(handles, alive), t) == if t in alive then None else HandleOf(handles, t)
  {
    if handles != [] {
      LiveHandle(handles[1..], alive, t);
    }
  }

  /** How many of the first `n` entries belong to threads still alive. */
  function Passed(handles: seq<Owned>, alive: set<Tid>, n: nat): (r: nat)
    requires n <= |handles|
    ensures r <= n
  {
    if n == 0 then 0
    else (if handles[0].owner in alive then 1 else 0) + Passed(handles[1..], alive, n - 1)
  }

  /** Splitting by liveness keeps every entry, in order: the `i`-th goes behind the entries of its kind
      that came before it. */
  lemma {:induction false} SplitsInOrder(handles: seq<Owned>, alive: set<Tid>, i: nat)
    requires i < |handles|
    ensures |LiveEntries(handles, alive)| == Passed(handles, alive, |handles|)
    ensures |DeadEntries(handles, alive)| == |handles| - Passed(handles, alive, |handles|)
    ensures var live, dead, k := LiveEntries(handles, alive), DeadEntries(handles, alive), Passed(handles, alive, i);
      if handles[i].owner in alive then k < |live| && live[k] == handles[i]
      else i - k < |dead| && dead[i - k] == handles[i]
  {
    if |handles| > 1 {
      SplitsInOrder(handles[1..], alive, if i > 0 then i - 1 else 0);
    }
  }

  lemma {:induction false} AppendHandle(handles: seq<Owned>, e: Owned, t: Tid)
    ensures HandleOf(handles + [e], t) ==
      if HandleOf(handles, t).Some? then HandleOf(handles, t) else if t == e.owner then Some(e.handle) else None
    ensures Owners(handles + [e]) == Owners(handles) + {e.owner}
    ensures OnePerThread(handles) && e.owner !in Owners(handles) ==> OnePerThread(handles + [e])
  {
    if handles == [] {
      assert handles + [e] == [e];
    } else {
      assert (handles + [e])[1..] == handles[1..] + [e];
      AppendHandle(handles[1..], e, t);
    }
  }

  lemma {:induction false} OwnersCount(handles: seq<Owned>)
    requires OnePerThread(handles)
    ensures |Owners(handles)| == |handles|
  {
    if handles != [] {
      OwnersCount(handles[1..]);
    }
  }

  lemma {:induction false} EntryOf(handles: seq<Owned>, i: nat)
    requires OnePerThread(handles) && i < |handles|
    ensures HandleOf(handles, handles[i].owner) == Some(handles[i].handle)
    ensures handles[i].owner in Owners(handles)
  {
    if i > 0 {
      EntryOf(handles[1..], i - 1);
    }
  }

  lemma {:induction false} HandlesAppend(a: seq<Owned>, b: seq<Owned>)
    ensures HandlesOf(a + b) == HandlesOf(a) + HandlesOf(b)
  {
    if a == [] {
      assert a + b == b;
    } else {
      assert (a + b)[1..] == a[1..] + b;
      HandlesAppend(a[1..], b);
    }
  }

  lemma {:induction false} LiveAppend(a: seq<Owned>, b: seq<Owned>, alive: set<Tid>)
    ensures LiveEntries(a + b, alive) == LiveEntries(a, alive) + LiveEntries(b, alive)
    ensures DeadEntries(a + b, alive) == DeadEntries(a, alive) + DeadEntries(b, alive)
  {
    if a == [] {
      assert a + b == b;
    } else {
      assert (a + b)[1..] == a[1..] + b;
      LiveAppend(a[1..], b, alive);
    }
  }

  /** The handle is at most once in `s`, and not at all unless it was opened. */
  ghost predicate OpenedOnce(s: seq<Handle>, next: nat, h: Handle) {
    multiset(s)[h] <= if h < next then 1 else 0
  }

  /** The tracked and the closed handles are all different, and were all opened. */
  ghost predicate Sound(handles: seq<Owned>, closed: seq<Handle>, next: nat) {
    OnePerThread(handles) && forall h: Handle :: OpenedOnce(HandlesOf(handles) + closed, next, h)
  }

  /** A thread has a tracked entry exactly when its own entry is of the current generation, unless
      it is gone, and the two name the same handle. */
  ghost predicate EntryAgrees(handles: seq<Owned>, local: map<Tid, Remembered>, generation: nat, gone: set<Tid>,
                              t: Tid)
  {
    && (t in local ==> local[t].generation <= generation)
    && (t in local && local[t].generation == generation && t !in gone ==>
          HandleOf(handles, t) == Some(local[t].handle))
    && (HandleOf(handles, t).Some? ==>
          t in local && local[t] == Remembered(HandleOf(handles, t).value, generation))
  }

  ghost predicate Agrees(handles: seq<Owned>, local: map<Tid, Remembered>, generation: nat, gone: set<Tid>) {
    forall t: Tid :: EntryAgrees(handles, local, generation, gone, t)
  }

  lemma {:induction false} LiveAndDead(handles: seq<Owned>, alive: set<Tid>)
    ensures multiset(HandlesOf(LiveEntries(handles, alive))) + multiset(HandlesOf(DeadEntries(handles, alive)))
         == multiset(HandlesOf(handles))
  {
    if handles != [] {
      LiveAndDead(handles[1..], alive);
    }
  }

  lemma {:induction false} TrackedHandle(handles: seq<Owned>, t: Tid)
    requires HandleOf(handles, t).Some?
    ensures multiset(HandlesOf(handles))[HandleOf(handles, t).value] >= 1
  {
    if handles[0].owner != t {
      TrackedHandle(handles[1..], t);
    }
  }

  /** The manager, each call run to its end.  `alive` is the set of threads alive at the call. */
  class ThreadLocalFileManager {
    var handles: seq<Owned>
    var generation: nat
    var local: map<Tid, Remembered>  // each thread's own storage
    var closed: seq<Handle>          // the handles closed so far, in order
    ghost var gone: set<Tid>         // threads seen to have exited, which never call again
    const opener: Opener

    /** What every completed call keeps: the tracked handles are open and distinct, one per thread,
        and they are exactly what the threads not gone remember from the current generation. */
    ghost predicate Valid()
      reads this, opener
    {
      && Sound(handles, closed, opener.next)
      && Agrees(handles, local, generation, gone)
    }

    constructor (opener: Opener)
      ensures Valid() && this.opener == opener
      ensures handles == [] && closed == [] && local == map[] && generation == 0 && gone == {}
    {
      this.opener := opener;
      handles, generation, local, closed, gone := [], 0, map[], [], {};
    }

    /** Whether a thread's own entry is of the current generation. */
    predicate Current(t: Tid)
      reads this
    {
      t in local && local[t].generation == generation
    }

    method ReapDeadThreads(alive: set<Tid>) returns (orphaned: seq<Handle>)
      modifies this`handles
      ensures handles == LiveEntries(old(handles), alive)
      ensures orphaned == HandlesOf(DeadEntries(old(handles), alive))
    {
      var live: seq<Owned> := [];
      orphaned := [];
      var i := 0;
      while i < |handles|
        invariant i <= |handles| && handles == old(handles)
        invariant live == LiveEntries(handles[..i], alive)
        invariant orphaned == HandlesOf(DeadEntries(handles[..i], alive))
      {
        var entry := handles[i];
        assert handles[..i + 1] == handles[..i] + [entry];
        LiveAppend(handles[..i], [entry], alive);
        HandlesAppend(DeadEntries(handles[..i], alive), DeadEntries([entry], alive));
        if entry.owner in alive {
          live := live + [entry];
        } else {
          orphaned := orphaned + [entry.handle];
        }
        i := i + 1;
      }
      assert handles[..i] == handles;
      handles := live;
    }

    /** Close each handle, in order. */
    method CloseAll(list: seq<Handle>)
      modifies this`closed
      ensures closed == old(closed) + list
    {
      var i := 0;
      while i < |list|
        invariant i <= |list|
        invariant closed == old(closed) + list[..i]
      {
        closed := closed + [list[i]];
        i := i + 1;
      }
    }

    /** The handles of exited threads are dropped from the list and closed. */
    method CloseDead(alive: set<Tid>)
      requires Valid() && alive !! gone
      modifies this`handles, this`closed, this`gone
      ensures Valid()
      ensures handles == LiveEntries(old(handles), alive)
      ensures closed == old(closed) + HandlesOf(DeadEntries(old(handles), alive))
      ensures gone == old(gone) + (old(Owners(handles)) - alive)
    {
      ReapAgrees(handles, local, generation, gone, alive);
      ReapSound(handles, closed, opener.next, alive);
      gone := gone + (Owners(handles) - alive);
      var orphaned := ReapDeadThreads(alive);
      CloseAll(orphaned);
    }

    /** This thread's handle: the remembered one, or a new one once the exited threads' handles are
        closed; `None` when the opener raised.  What is returned is open and tracked, and after an
        opening call there are at most as many tracked handles as threads alive. */
    method Acquire(t: Tid, alive: set<Tid>, works: bool) returns (r: Option<Handle>)
      requires Valid() && t in alive && alive !! gone
      modifies this, opener
      ensures Valid()
      ensures old(Current(t)) ==>
        && r == Some(old(local[t].handle))
        && handles == old(handles) && closed == old(closed) && local == old(local) && opener.next == old(opener.next)
      ensures !old(Current(t)) ==>
        && closed == old(closed) + HandlesOf(DeadEntries(old(handles), alive))
        && r == (if works then Some(old(opener.next)) else None)
        && handles == LiveEntries(old(handles), alive) + (if works then [Owned(t, old(opener.next))] else [])
        && |handles| <= |alive|
      ensures generation == old(generation) && gone <= old(gone) + (old(Owners(handles)) - alive)
      ensures r.Some? ==> HandleOf(handles, t) == r && r.value !in closed
      ensures forall u :: u != t ==> (u in local <==> u in old(local)) && (u in local ==> local[u] == old(local[u]))
    {
      ghost var was, shut := handles, closed;
      assert EntryAgrees(handles, local, generation, gone, t);
      if t in local && local[t].generation == generation {
        r := Some(local[t].handle);
        OpenWhileTracked(was, shut, opener.next, t);
        return;
      }
      ReapCount(was, alive, t);
      LiveHandle(was, alive, t);
      CloseDead(alive);
      r := opener.Open(works);
      if r.Some? {
        Track(t, r.value);
      }
    }

    /** Track the handle a thread has just opened, and let the thread remember it. */
    method Track(t: Tid, h: Handle)
      requires opener.next == h + 1
      requires Sound(handles, closed, h) && Agrees(handles, local, generation, gone)
      requires HandleOf(handles, t).None?
      modifies this`handles, this`local
      ensures Valid()
      ensures handles == old(handles) + [Owned(t, h)] && local == old(local)[t := Remembered(h, generation)]
      ensures HandleOf(handles, t) == Some(h) && h !in closed
    {
      RegisterSound(handles, closed, Owned(t, h));
      RegisterAgrees(handles, local, generation, gone, Owned(t, h));
      AppendHandle(handles, Owned(t, h), t);
      handles := handles + [Owned(t, h)];
      local := local[t := Remembered(h, generation)];
      OpenWhileTracked(handles, closed, opener.next, t);
    }

    /** Close every tracked handle and start a new generation; the calling thread forgets its own. */
    method Close(t: Tid)
      requires Valid()
      modifies this
      ensures Valid()
      ensures handles == [] && generation == old(generation) + 1 && gone == old(gone)
      ensures closed == old(closed) + HandlesOf(old(handles))
      ensures local == old(local) - {t}
    {
      var entries := handles;
      CloseSound(handles, closed, opener.next);
      CloseAgrees(handles, local, generation, gone, t);
      handles := [];
      generation := generation + 1;
      var list := HandlesOf(entries);
      CloseAll(list);
      local := local - {t};
    }
  }

  /** A tracked handle is not among the closed ones. */
  lemma {:induction false} OpenWhileTracked(handles: seq<Owned>, closed: seq<Handle>, next: nat, t: Tid)
    requires Sound(handles, closed, next) && HandleOf(handles, t).Some?
    ensures HandleOf(handles, t).value !in closed
  {
    var h := HandleOf(handles, t).value;
    assert OpenedOnce(HandlesOf(handles) + closed, next, h);
    TrackedHandle(handles, t);
    assert multiset(HandlesOf(handles) + closed)[h] == multiset(HandlesOf(handles))[h] + multiset(closed)[h];
  }

  lemma {:induction false} ReapSound(was: seq<Owned>, shut: seq<Handle>, next: nat, alive: set<Tid>)
    requires Sound(was, shut, next)
    ensures Sound(LiveEntries(was, alive), shut + HandlesOf(DeadEntries(was, alive)), next)
  {
    LiveSplit(was, alive);
    LiveAndDead(was, alive);
    var s, r := HandlesOf(was) + shut, HandlesOf(LiveEntries(was, alive)) + (shut + HandlesOf(DeadEntries(was, alive)));
    assert multiset(r) == multiset(s);
    forall h: Handle
      ensures OpenedOnce(r, next, h)
    {
      assert OpenedOnce(s, next, h);
    }
  }

  lemma {:induction false} CloseSound(was: seq<Owned>, shut: seq<Handle>, next: nat)
    requires Sound(was, shut, next)
    ensures Sound([], shut + HandlesOf(was), next)
  {
    var s, r := HandlesOf(was) + shut, HandlesOf([]) + (shut + HandlesOf(was));
    assert multiset(r) == multiset(s);
    forall h: Handle
      ensures OpenedOnce(r, next, h)
    {
      assert OpenedOnce(s, next, h);
    }
  }

  lemma {:induction false} CloseAgrees(was: seq<Owned>, local: map<Tid, Remembered>, generation: nat,
                                       gone: set<Tid>, u: Tid)
    requires Agrees(was, local, generation, gone)
    ensures Agrees([], local - {u}, generation + 1, gone)
  {
    var local', next := local - {u}, generation + 1;
    forall t: Tid
      ensures EntryAgrees([], local', next, gone, t)
    {
      assert EntryAgrees(was, local, generation, gone, t);
    }
  }

  lemma {:induction false} ReapCount(was: seq<Owned>, alive: set<Tid>, t: Tid)
    requires OnePerThread(was) && HandleOf(was, t).None? && t in alive
    ensures |LiveEntries(was, alive)| < |alive|
  {
    var live := LiveEntries(was, alive);
    HandleOwner(was, t);
    LiveSplit(was, alive);
    OwnersCount(live);
    Cardinality(Owners(live) + {t}, alive);
  }

  lemma {:induction false} ReapAgrees(was: seq<Owned>, local: map<Tid, Remembered>, generation: nat,
                                      gone: set<Tid>, alive: set<Tid>)
    requires Agrees(was, local, generation, gone) && alive !! gone
    ensures Agrees(LiveEntries(was, alive), local, generation, gone + (Owners(was) - alive))
  {
    var live, gone' := LiveEntries(was, alive), gone + (Owners(was) - alive);
    forall t: Tid
      ensures EntryAgrees(live, local, generation, gone', t)
    {
      assert EntryAgrees(was, local, generation, gone, t);
      LiveHandle(was, alive, t);
      HandleOwner(was, t);
    }
  }

  lemma {:induction false} RegisterSound(handles: seq<Owned>, closed: seq<Handle>, e: Owned)
    requires Sound(handles, closed, e.handle) && HandleOf(handles, e.owner).None?
    ensures Sound(handles + [e], closed, e.handle + 1)
  {
    HandleOwner(handles, e.owner);
    AppendHandle(handles, e, e.owner);
    HandlesAppend(handles, [e]);
    assert HandlesOf([e]) == [e.handle];
    OneMoreOpened(HandlesOf(handles) + closed, HandlesOf(handles + [e]) + closed, e.handle, e.handle + 1);
  }

  lemma {:induction false} OneMoreOpened(s: seq<Handle>, r: seq<Handle>, next: nat, next': nat)
    requires next' == next + 1 && multiset(r) == multiset(s) + multiset{next}
    requires forall h: Handle :: OpenedOnce(s, next, h)
    ensures forall h: Handle :: OpenedOnce(r, next', h)
  {
    forall h: Handle
      ensures OpenedOnce(r, next', h)
    {
      assert OpenedOnce(s, next, h);
    }
  }

  lemma {:induction false} RegisterAgrees(handles: seq<Owned>, local: map<Tid, Remembered>, generation: nat,
                                          gone: set<Tid>, e: Owned)
    requires Agrees(handles, local, generation, gone) && HandleOf(handles, e.owner).None?
    ensures Agrees(handles + [e], local[e.owner := Remembered(e.handle, generation)], generation, gone)
  {
    var handles', local' := handles + [e], local[e.owner := Remembered(e.handle, generation)];
    forall t: Tid
      ensures EntryAgrees(handles', local', generation, gone, t)
    {
      assert EntryAgrees(handles, local, generation, gone, t);
      AppendHandle(handles, e, t);
    }
  }
}
