/** The cache object: fields updated in place, one method per method of `_LRUCache`.

    Each method is proved equal to its block in CacheModel (or its completed form in CacheOps),
    with the calls made to `on_evict` recorded in order. */
module LruCache {
  import opened Wrappers
  import opened CacheModel
  import opened CacheOps

  datatype CacheError = BadMaxsize | MissingKey

  class LRUCache {
    var order: seq<Key>
    var slots: map<Key, Handle>
    var maxsize: nat
    var pins: map<Key, nat>
    var refs: map<Key, nat>
    var parked: map<Key, Handle>
    var handed: seq<Entry>  // the calls made to `on_evict` so far
    const notify: bool      // whether an `on_evict` callback was given

    function Model(): Cache
      reads this
    {
      Cache(order, slots, maxsize, pins, refs, parked)
    }

    ghost predicate Valid()
      reads this
    {
      Model().Valid()
    }

    /** What the log becomes when `entries` go to `on_evict`. */
    function Logged(log: seq<Entry>, entries: seq<Entry>): (r: seq<Entry>)
      ensures !notify ==> r == log
      ensures notify ==> |log| <= |r| && r[..|log|] == log && r[|log|..] == entries
    {
      if notify then log + entries else log
    }

    lemma {:induction false} LoggedTwice(log: seq<Entry>, a: seq<Entry>, b: seq<Entry>)
      ensures Logged(Logged(log, a), b) == Logged(log, a + b)
    {
      assert log + a + b == log + (a + b);
    }

    constructor (maxsize: nat, notify: bool)
      requires 1 <= maxsize
      ensures Valid() && Model() == New(maxsize) && this.notify == notify && handed == []
    {
      order, slots, this.maxsize := [], map[], maxsize;
      pins, refs, parked, handed := map[], map[], map[], [];
      this.notify := notify;
    }

    static method Make(maxsize: int, notify: bool) returns (r: Result<LRUCache, CacheError>)
      ensures r.Err? <==> maxsize < 1
      ensures r.Err? ==> r.error == BadMaxsize
      ensures r.Ok? ==> fresh(r.value) && r.value.Valid() && r.value.Model() == New(maxsize)
    {
      if maxsize < 1 {
        return Err(BadMaxsize);
      }
      var cache := new LRUCache(maxsize, notify);
      r := Ok(cache);
    }

    /** Run `on_evict` on each entry, the lock released. */
    method HandToOnEvict(entries: seq<Entry>)
      modifies this`handed
      ensures handed == Logged(old(handed), entries)
    {
      if notify {
        var i := 0;
        while i < |entries|
          invariant i <= |entries|
          invariant handed == old(handed) + entries[..i]
        {
          handed := handed + [entries[i]];
          i := i + 1;
        }
      }
    }

    /** Pop least-recently-used, unpinned entries one at a time until `target` are left. */
    method SelectEvictions(target: nat) returns (evicted: seq<Entry>)
      requires Valid()
      modifies this`order, this`slots
      ensures Valid()
      ensures Trimmed(Model(), evicted) == Trim(old(Model()), target)
    {
      ghost var was := Model();
      evicted := [];
      NothingPopped(was);
      if |order| > target {
        var candidates := Without(order, Model().Busy());
        var i := 0;
        while i < |candidates|
          invariant i <= |candidates| && i <= |was.order| - target
          invariant Popped(was, i, Model(), evicted)
        {
          if |order| <= target {
            break;
          }
          var key := candidates[i];
          PopOne(was, i, Model(), evicted);
          evicted := evicted + [Entry(key, slots[key])];
          order := Without(order, {key});
          slots := slots - {key};
          i := i + 1;
        }
        PoppedAll(was, i, Model(), evicted, target);
      } else {
        PoppedAll(was, 0, Model(), evicted, target);
      }
    }

    method EnforceSizeLimit(target: nat)
      requires Valid()
      modifies this
      ensures Valid()
      ensures var t := Trim(old(Model()), target);
        Model() == t.cache && handed == Logged(old(handed), t.evicted)
    {
      var toEvict := SelectEvictions(target);
      HandToOnEvict(toEvict);
    }

    method SetMaxsize(value: int) returns (r: Result<(), CacheError>)
      requires Valid()
      modifies this
      ensures Valid()
      ensures r == if value < 1 then Err(BadMaxsize) else Ok(())
      ensures r.Err? ==> Model() == old(Model()) && handed == old(handed)
      ensures r.Ok? ==> var e := Exec(old(Model()), Resize(value));
        Model() == e.cache && handed == Logged(old(handed), e.closed)
    {
      if value < 1 {
        return Err(BadMaxsize);
      }
      maxsize := value;
      EnforceSizeLimit(value);
      r := Ok(());
    }

    method GetItem(key: Key) returns (r: Result<Handle, CacheError>)
      requires Valid()
      modifies this`order
      ensures Valid()
      ensures Model() == Exec(old(Model()), Get(key)).cache
      ensures key in old(slots) ==> order != [] && order[|order| - 1] == key
      ensures r == if key in old(slots) then Ok(old(slots[key])) else Err(MissingKey)
    {
      if key !in slots {
        return Err(MissingKey);
      }
      LookupKeepsValid(Model(), key);
      order := MoveToEnd(order, key);
      r := Ok(slots[key]);
    }

    method SetItem(key: Key, value: Handle)
      requires Valid()
      modifies this
      ensures Valid()
      ensures var t := Insert(old(Model()), key, value);
        Model() == t.cache && handed == Logged(old(handed), t.evicted)
    {
      ghost var was := Model();
      InsertKeepsValid(was, key, value);
      var toEvict: seq<Entry> := [];
      if key in slots {
        var displaced := slots[key];
        order := MoveToEnd(order, key);
        slots := slots[key := value];
        if displaced != value && !(key in pins && pins[key] > 0) {
          toEvict := [Entry(key, displaced)];
        }
      } else {
        toEvict := SelectEvictions(maxsize - 1);
        order := order + [key];
        slots := slots[key := value];
      }
      assert Trimmed(Model(), toEvict) == Insert(was, key, value);
      HandToOnEvict(toEvict);
    }

    method DelItem(key: Key) returns (r: Result<(), CacheError>)
      requires Valid()
      modifies this`order, this`slots
      ensures Valid()
      ensures r == if key in old(slots) then Ok(()) else Err(MissingKey)
      ensures r.Ok? ==> Model() == Exec(old(Model()), Del(key)).cache
      ensures r.Err? ==> Model() == old(Model())
    {
      if key !in slots {
        return Err(MissingKey);
      }
      DeleteKeepsValid(Model(), key);
      order := Without(order, {key});
      slots := slots - {key};
      r := Ok(());
    }

    method Clear()
      requires Valid()
      modifies this
      ensures Valid()
      ensures var e := Exec(old(Model()), Reset);
        Model() == e.cache && handed == Logged(old(handed), e.closed)
    {
      var items := Entries(order, slots);
      order, slots, refs, pins := [], map[], map[], map[];
      HandToOnEvict(items);
    }

    method Pin(key: Key)
      requires Valid()
      modifies this`pins
      ensures Valid()
      ensures Model() == Exec(old(Model()), Hold(key)).cache
    {
      pins := pins[key := (if key in pins then pins[key] else 0) + 1];
    }

    method Unpin(key: Key)
      requires Valid()
      modifies this
      ensures Valid()
      ensures var e := Unheld(old(Model()), key);
        Model() == e.cache && handed == Logged(old(handed), e.closed)
    {
      UnpinKeepsValid(Model(), key);
      ghost var log := handed;
      var deferred, overLimit := DropPin(key);
      LoggedTwice(log, Handed(key, deferred), Trim(Model(), maxsize).evicted);
      if deferred.Some? {
        HandToOnEvict([Entry(key, deferred.value)]);
      }
      assert handed == Logged(log, Handed(key, deferred));
      if overLimit {
        EnforceSizeLimit(maxsize);
      }
    }

    /** The lock-held block of `unpin`. */
    method DropPin(key: Key) returns (deferred: Option<Handle>, overLimit: bool)
      modifies this`pins, this`parked
      ensures CacheModel.Unpin(old(Model()), key) == Unpinning(Model(), deferred, overLimit)
    {
      overLimit, deferred := false, None;
      if key in pins {
        if pins[key] > 1 {
          pins := pins[key := pins[key] - 1];
        } else {
          pins := pins - {key};
          if key in parked {
            deferred := Some(parked[key]);
          }
          parked := parked - {key};
          overLimit := |order| > maxsize;
        }
      }
    }

    method Discard(key: Key) returns (value: Option<Handle>)
      requires Valid()
      modifies this`order, this`slots, this`parked
      ensures Valid()
      ensures (Model(), value) == CacheModel.Discard(old(Model()), key)
    {
      DeleteKeepsValid(Model(), key);
      value := None;
      if key in slots {
        value := Some(slots[key]);
        order := Without(order, {key});
        slots := slots - {key};
        if key in pins && pins[key] > 0 {
          parked := parked[key := value.value];
          value := None;
        }
      }
    }

    method Retain(key: Key)
      requires Valid()
      modifies this`refs
      ensures Valid()
      ensures Model() == Exec(old(Model()), Register(key)).cache
    {
      refs := refs[key := (if key in refs then refs[key] else 0) + 1];
    }

    method Release(key: Key)
      requires Valid()
      modifies this
      ensures Valid()
      ensures var e := Exec(old(Model()), Finalize(key));
        Model() == e.cache && handed == Logged(old(handed), e.closed)
    {
      var handle: Option<Handle> := None;
      if key in refs {
        if refs[key] > 1 {
          refs := refs[key := refs[key] - 1];
        } else {
          refs := refs - {key};
          handle := Discard(key);
        }
      }
      if handle.Some? {
        HandToOnEvict([Entry(key, handle.value)]);
      }
    }
  }

  /** After `n` pops: the `n` oldest unpinned entries are out, in order. */
  ghost predicate Popped(was: Cache, n: nat, now: Cache, evicted: seq<Entry>)
    requires was.Valid()
  {
    var candidates := Without(was.order, was.Busy());
    && n <= |candidates|
    && now.order == Without(was.order, Keys(candidates[..n]))
    && now.slots == was.slots - Keys(candidates[..n])
    && now == was.(order := now.order, slots := now.slots)
    && |now.order| == |was.order| - n
    && Keys(candidates[..n]) <= was.slots.Keys
    && evicted == Entries(candidates[..n], was.slots)
    && (n < |candidates| ==> candidates[n] in now.slots)
  }

  lemma {:induction false} CandidatesFit(was: Cache, n: nat)
    requires was.Valid() && n <= |Without(was.order, was.Busy())|
    ensures var candidates := Without(was.order, was.Busy());
      && Keys(candidates[..n]) <= was.slots.Keys
      && |Keys(candidates[..n])| == n
      && (n < |candidates| ==> candidates[n] in was.slots && candidates[n] !in Keys(candidates[..n]))
  {
    var candidates := Without(was.order, was.Busy());
    WithoutKeys(was.order, was.Busy());
    WithoutNoDup(was.order, was.Busy());
    assert candidates == candidates[..n] + candidates[n..];
    AppendNoDup(candidates[..n], candidates[n..]);
    KeysAppend(candidates[..n], candidates[n..]);
    KeysCount(candidates[..n]);
  }

  lemma {:induction false} PopCount(was: Cache, n: nat)
    requires was.Valid() && n <= |Without(was.order, was.Busy())|
    ensures |Without(was.order, Keys(Without(was.order, was.Busy())[..n]))| == |was.order| - n
  {
    var out := Keys(Without(was.order, was.Busy())[..n]);
    CandidatesFit(was, n);
    WithoutNoDup(was.order, out);
    KeysCount(was.order);
    Cardinality(out, Keys(was.order));
  }

  lemma {:induction false} NothingPopped(was: Cache)
    requires was.Valid()
    ensures Popped(was, 0, was, [])
  {
    var none := Keys(Without(was.order, was.Busy())[..0]);
    WithoutNothing(was.order);
    CandidatesFit(was, 0);
    assert none == {};
    assert was.slots - none == was.slots;
  }

  lemma {:induction false} PopOne(was: Cache, n: nat, now: Cache, evicted: seq<Entry>)
    requires was.Valid() && Popped(was, n, now, evicted) && n < |Without(was.order, was.Busy())|
    ensures var key := Without(was.order, was.Busy())[n];
      Popped(was, n + 1, now.(order := Without(now.order, {key}), slots := now.slots - {key}),
             evicted + [Entry(key, now.slots[key])])
  {
    var candidates := Without(was.order, was.Busy());
    var key := candidates[n];
    var out, more := Keys(candidates[..n]), Keys(candidates[..n + 1]);
    assert candidates[..n + 1] == candidates[..n] + [key];
    KeysOfPrefix(candidates, n);
    WithoutTwice(was.order, out, {key});
    CandidatesFit(was, n + 1);
    PopCount(was, n + 1);
    EntriesSnoc(candidates[..n], key, was.slots);
    assert now.slots - {key} == was.slots - more;
  }

  lemma {:induction false} EntriesSnoc(keys: seq<Key>, key: Key, slots: map<Key, Handle>)
    requires Keys(keys) <= slots.Keys && Keys(keys + [key]) <= slots.Keys && key in slots
    ensures Entries(keys + [key], slots) == Entries(keys, slots) + [Entry(key, slots[key])]
  {
    if keys == [] {
      assert keys + [key] == [key];
    } else {
      assert (keys + [key])[1..] == keys[1..] + [key];
      EntriesSnoc(keys[1..], key, slots);
    }
  }

  lemma {:induction false} PoppedAll(was: Cache, n: nat, now: Cache, evicted: seq<Entry>, target: nat)
    requires was.Valid() && Popped(was, n, now, evicted)
    requires n == 0 || n <= |was.order| - target
    requires n == |Without(was.order, was.Busy())| || |now.order| <= target
    ensures now.Valid() && Trimmed(now, evicted) == Trim(was, target)
  {
    TrimWorks(was, target);
    assert Without(was.order, was.Busy())[..n] == Victims(was, target);
  }
}
