/** The manager object that goes through the cache, one thread at a time. */
module CachingManager {
  import opened Wrappers
  import opened CacheModel
  import opened CacheOps
  import opened LruCache
  import opened Openers

  class CachingFileManager {
    const key: Key
    const cache: LRUCache
    const opener: Opener
    const autoRelease: bool

    constructor (key: Key, cache: LRUCache, opener: Opener, autoRelease: bool)
      requires cache.Valid()
      modifies cache`refs
      ensures this.key == key && this.cache == cache && this.opener == opener && this.autoRelease == autoRelease
      ensures cache.Valid()
      ensures cache.Model() == if autoRelease then Retain(old(cache.Model()), key) else old(cache.Model())
    {
      this.key, this.cache, this.opener, this.autoRelease := key, cache, opener, autoRelease;
      new;
      if autoRelease {
        cache.Retain(key);
      }
    }

    /** What the finalizer of an auto-release manager runs. */
    method Finalize()
      requires cache.Valid() && autoRelease
      modifies cache
      ensures cache.Valid()
      ensures var r := Release(old(cache.Model()), key);
        cache.Model() == r.0 && cache.handed == cache.Logged(old(cache.handed), Handed(key, r.1))
    {
      cache.Release(key);
    }

    /** The handle, opened when it is not cached; `None` when the opener raised. */
    method Acquire(works: bool) returns (r: Option<Handle>)
      requires cache.Valid()
      modifies cache, opener
      ensures cache.Valid()
      ensures key in old(cache.slots) ==> r == Some(old(cache.slots[key])) && opener.next == old(opener.next)
      ensures key !in old(cache.slots) && !works ==>
        r == None && cache.Model() == old(cache.Model()) && cache.handed == old(cache.handed)
      ensures key !in old(cache.slots) && works ==> r == Some(old(opener.next)) && opener.next == old(opener.next) + 1
      ensures r.Some? ==>
        && cache.Model() == Acquired(old(cache.Model()), key, old(opener.next)).cache
        && cache.handed == (if key in old(cache.slots) then old(cache.handed)
                            else cache.Logged(old(cache.handed), Insert(old(cache.Model()), key, r.value).evicted))
        && key in cache.slots && cache.slots[key] == r.value
    {
      InsertKeepsValid(cache.Model(), key, opener.next);
      var found := cache.GetItem(key);
      if found.Ok? {
        return Some(found.value);
      }
      r := opener.Open(works);
      if r.Some? {
        cache.SetItem(key, r.value);
      }
    }

    /** `acquire_context` up to its `yield`: the handle with whether it was cached, or `None` when the
        opener raised and the pin has been taken back. */
    method Enter(works: bool) returns (r: Option<(Handle, bool)>)
      requires cache.Valid()
      modifies cache, opener
      ensures cache.Valid()
      ensures r.None? <==> key !in old(cache.slots) && !works
      ensures r.Some? ==>
        && r.value == (if key in old(cache.slots) then (old(cache.slots[key]), true) else (old(opener.next), false))
        && cache.Model() == BlockEntered(old(cache.Model()), key, old(opener.next)).cache
        && cache.handed
           == cache.Logged(old(cache.handed), BlockEntered(old(cache.Model()), key, old(opener.next)).evicted)
        && key in cache.slots && cache.slots[key] == r.value.0 && cache.Model().Pinned(key)
      ensures r.None? ==>
        && cache.Model() == Unheld(Pin(old(cache.Model()), key), key).cache
        && cache.handed == cache.Logged(old(cache.handed), Unheld(Pin(old(cache.Model()), key), key).closed)
        && opener.next == old(opener.next)
    {
      ghost var pinned := CacheModel.Pin(cache.Model(), key);
      InsertKeepsValid(pinned, key, opener.next);
      cache.Pin(key);
      var found := cache.GetItem(key);
      if found.Ok? {
        return Some((found.value, true));
      }
      var handle := opener.Open(works);
      if handle.None? {
        cache.Unpin(key);
        return None;
      }
      cache.SetItem(key, handle.value);
      r := Some((handle.value, false));
    }

    /** The `with` block ends without an exception. */
    method ExitNormally()
      requires cache.Valid()
      modifies cache
      ensures cache.Valid()
      ensures var e := Unheld(old(cache.Model()), key);
        cache.Model() == e.cache && cache.handed == cache.Logged(old(cache.handed), e.closed)
    {
      cache.Unpin(key);
    }

    /** The `with` block raises: a handle this reader opened leaves the cache unclosed. */
    method ExitRaising(wasCached: bool)
      requires cache.Valid()
      modifies cache
      ensures cache.Valid()
      ensures var was := if wasCached then old(cache.Model()) else Delete(old(cache.Model()), key);
        && was.Valid()
        && cache.Model() == Unheld(was, key).cache
        && cache.handed == cache.Logged(old(cache.handed), Unheld(was, key).closed)
    {
      DeleteKeepsValid(cache.Model(), key);
      if !wasCached {
        Drop();
      }
      cache.Unpin(key);
    }

    method Drop()
      requires cache.Valid()
      modifies cache`order, cache`slots
      ensures cache.Valid()
      ensures cache.Model() == Delete(old(cache.Model()), key)
    {
      ghost var was := cache.Model();
      var removed := cache.DelItem(key);
      if removed.Err? {
        DeleteMissing(was, key);
      }
    }

    /** Take the handle out; what is returned is closed now, `None` is absent or parked. */
    method Close() returns (closed: Option<Handle>)
      requires cache.Valid()
      modifies cache`order, cache`slots, cache`parked
      ensures cache.Valid()
      ensures key !in cache.slots
      ensures closed == if key in old(cache.slots) && !old(cache.Model()).Pinned(key)
                        then Some(old(cache.slots[key])) else None
      ensures cache.parked == if key in old(cache.slots) && old(cache.Model()).Pinned(key)
                              then old(cache.parked)[key := old(cache.slots[key])] else old(cache.parked)
      ensures forall k :: k in old(cache.slots) && k != key ==>
        k in cache.slots && cache.slots[k] == old(cache.slots[k])
    {
      closed := cache.Discard(key);
    }
  }

  lemma {:induction false} DeleteMissing(c: Cache, k: Key)
    requires c.Valid() && k !in c.slots
    ensures Delete(c, k) == c
  {
    assert Keys(c.order) * {k} == Keys(c.order) * {};
    WithoutSame(c.order, {k}, {});
    WithoutNothing(c.order);
    assert c.slots - {k} == c.slots;
  }
}
