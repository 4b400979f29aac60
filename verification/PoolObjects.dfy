/** The workspace pool as an object, updated in place: the map, the arenas (an arena's address is its
    position in `heap`), the device that hands out buffers, and a thread's cache array. Each method
    is proved against the sections of `WorkspacePool`. */
module PoolObjects {
  import opened Options
  import opened WorkspacePool

  /** The device allocator. */
  class Device {
    var live: set<nat>
    var freed: seq<nat>
    var next: nat

    constructor ()
      ensures live == {} && freed == [] && next == 0
    {
      live, freed, next := {}, [], 0;
    }

    method Malloc(ok: bool) returns (buf: Option<nat>)
      modifies this
      ensures freed == old(freed)
      ensures ok ==> buf == Some(old(next)) && live == old(live) + {old(next)} && next == old(next) + 1
      ensures !ok ==> buf == None && live == old(live) && next == old(next)
    {
      if ok {
        buf := Some(next);
        live, next := live + {next}, next + 1;
      } else {
        buf := None;
      }
    }

    method Free(buf: nat)
      requires buf in live
      modifies this
      ensures live == old(live) - {buf} && freed == old(freed) + [buf] && next == old(next)
    {
      live, freed := live - {buf}, freed + [buf];
    }
  }

  class Pool {
    const device: Device
    var arenas: map<Key, nat>
    var heap: seq<Arena>
    var capturing: bool

    constructor ()
      ensures Valid() && fresh(device) && Abs() == INITIAL.shared && !capturing
    {
      device := new Device();
      arenas, heap, capturing := map[], [], false;
    }

    ghost function Abs(): Shared
      reads this, device
    {
      Shared(arenas, heap, device.live, device.freed, device.next)
    }

    ghost predicate Valid()
      reads this, device
    {
      SharedInv(Abs())
    }

    /** The fast path. */
    method Find(cache: array<Option<Entry>>, key: Key, needed: nat) returns (hit: Option<nat>)
      requires CacheInside(cache[..], heap)
      ensures hit == Scan(cache[..], heap, key, needed)
    {
      ghost var abs := cache[..];
      assert abs[0..] == abs;
      for i := 0 to cache.Length
        invariant Scan(abs, heap, key, needed) == Scan(abs[i..], heap, key, needed)
      {
        var e := cache[i];
        assert abs[i..][0] == e && abs[i..][1..] == abs[i + 1..];
        if e.Some? && e.value.key == key && needed <= heap[e.value.arena].capacity {
          return Some(e.value.arena);
        }
      }
      hit := None;
    }

    /** The map section. */
    method Lookup(key: Key) returns (arena: nat)
      requires Valid()
      modifies this
      ensures Valid() && Abs() == Locate(old(Abs()), key) && capturing == old(capturing)
      ensures key in arenas && arenas[key] == arena && arena < |heap|
    {
      LocateKeeps(Abs(), key);
      if key !in arenas {
        arenas := arenas[key := |heap|];
        heap := heap + [Arena(key, None, 0)];
      }
      arena := arenas[key];
    }

    /** The arena section; it fails if the device has no memory. */
    method Reserve(arena: nat, needed: nat, ok: bool) returns (done: bool)
      requires Valid() && arena < |heap|
      modifies this, device
      ensures done <==> needed <= old(heap[arena].capacity) || ok
      ensures done ==> Valid() && Abs() == Grow(old(Abs()), arena, needed) && capturing == old(capturing)
    {
      GrowKeeps(Abs(), arena, needed);
      GrowParts(Abs(), arena, needed);
      ghost var sh := Abs();
      hide SharedInv, Grow, Conserved, OwnsAll, BuffersOwned, HasHolder, Holds;
      hide EntryOwned, CacheInside, Matches, Scan, Locate, Insert;
      if needed > heap[arena].capacity {
        if heap[arena].capacity > 0 {
          device.Free(heap[arena].buf.value);
        }
        if needed > 0 {
          var buf := device.Malloc(ok);
          if buf == None {
            return false;
          }
          heap := heap[arena := heap[arena].(buf := buf)];
        }
        heap := heap[arena := heap[arena].(capacity := needed)];
        assert heap == sh.heap[arena := Arena(sh.heap[arena].owner, Some(sh.next), needed)];
        assert Abs() == Grow(sh, arena, needed);
      }
      done := true;
    }

    /** The insertion, shifting the entries in place. */
    method Remember(cache: array<Option<Entry>>, entry: Entry)
      requires cache.Length == CACHE_SIZE
      modifies cache
      ensures cache[..] == Insert(old(cache[..]), entry)
    {
      var i := CACHE_SIZE - 1;
      while i > 0
        invariant 0 <= i <= CACHE_SIZE - 1
        invariant forall j :: 0 <= j < CACHE_SIZE ==> cache[j] == if j <= i then old(cache[j]) else old(cache[j - 1])
      {
        cache[i] := cache[i - 1];
        i := i - 1;
      }
      cache[0] := Some(entry);
    }

    /** `Ensure`, on a thread with the given cache; `ok` is whether the device can allocate. No arena
        means an assertion ended the process. */
    method Ensure(cache: array<Option<Entry>>, key: Key, needed: nat, ok: bool) returns (r: Option<nat>)
      requires Valid() && CacheOwned(Abs(), cache[..])
      modifies this, device, cache
      ensures CacheInside(old(cache[..]), old(heap))
      ensures var alone := EnsureAlone(old(Abs()), old(cache[..]), old(capturing), key, needed, ok);
        && r == alone.arena
        && (r.Some? ==> Valid() && Abs() == alone.shared && cache[..] == alone.cache && capturing == old(capturing))
    {
      assert CacheInside(cache[..], heap);
      hide SharedInv, Grow, Scan, Insert, OwnsAll;
      r := Find(cache, key, needed);
      if r.Some? {
        return;
      }
      if capturing {
        return None;
      }
      var arena := Lookup(key);
      var done := Reserve(arena, needed, ok);
      if !done {
        return None;
      }
      Remember(cache, Entry(key, arena));
      r := Some(arena);
    }

    /** The destructor. `answers` says for which arenas the device still responds; the buffers of the
        others stay allocated, and no buffer is freed twice. */
    method Destroy(answers: set<Key>)
      requires Valid()
      modifies device
      ensures Conserved(Abs())
      ensures forall b: nat :: b in device.live <==>
                exists a :: 0 <= a < |heap| && Holds(heap[a], b) && heap[a].owner !in answers
    {
      var keys := arenas.Keys;
      ghost var sh := Abs();
      AllRemain(sh, answers);
      while keys != {}
        invariant keys <= arenas.Keys && Abs() == sh.(live := device.live, freed := device.freed)
        invariant Conserved(Abs())
        invariant forall b: nat :: b in device.live <==> Remains(heap, keys, answers, b)
      {
        var key :| key in keys;
        var arena := arenas[key];
        VisitStep(sh, keys, answers, key);
        hide SharedInv, Remains;
        if heap[arena].capacity > 0 && key in answers {
          device.Free(heap[arena].buf.value);
        }
        keys := keys - {key};
      }
    }
  }

  /** Buffer `b` is held by an arena not yet visited, or by one the device no longer answers for. */
  ghost predicate Remains(heap: seq<Arena>, keys: set<Key>, answers: set<Key>, b: nat) {
    exists a :: 0 <= a < |heap| && Holds(heap[a], b) && (heap[a].owner in keys || heap[a].owner !in answers)
  }

  lemma AllRemain(sh: Shared, answers: set<Key>)
    requires SharedInv(sh)
    ensures forall b: nat :: b in sh.live <==> Remains(sh.heap, sh.arenas.Keys, answers, b)
  {
    forall b: nat | b in sh.live ensures Remains(sh.heap, sh.arenas.Keys, answers, b) {
      assert HasHolder(sh.heap, b);
    }
  }

  /** Visiting a key settles the buffer of its arena and no other. */
  lemma VisitStep(sh: Shared, keys: set<Key>, answers: set<Key>, key: Key)
    requires SharedInv(sh) && key in keys && keys <= sh.arenas.Keys
    ensures sh.arenas[key] < |sh.heap|
    ensures var arena := sh.heap[sh.arenas[key]];
      && (arena.capacity > 0 ==> arena.buf.Some? && Remains(sh.heap, keys, answers, arena.buf.value))
      && (forall b: nat :: Remains(sh.heap, keys - {key}, answers, b)
                      <==> Remains(sh.heap, keys, answers, b) && !(key in answers && Holds(arena, b)))
  {
    var i := sh.arenas[key];
    if sh.heap[i].capacity > 0 {
      assert Holds(sh.heap[i], sh.heap[i].buf.value) && sh.heap[i].owner in keys;
    }
    forall b: nat | Remains(sh.heap, keys, answers, b) && !(key in answers && Holds(sh.heap[i], b))
      ensures Remains(sh.heap, keys - {key}, answers, b)
    {
      var a :| 0 <= a < |sh.heap| && Holds(sh.heap[a], b) && (sh.heap[a].owner in keys || sh.heap[a].owner !in answers);
      assert a != i ==> sh.heap[a].owner != key;
      assert sh.heap[a].owner in keys - {key} || sh.heap[a].owner !in answers;
    }
    forall b: nat | Remains(sh.heap, keys - {key}, answers, b)
      ensures Remains(sh.heap, keys, answers, b) && !(key in answers && Holds(sh.heap[i], b))
    {
      var a :| 0 <= a < |sh.heap| && Holds(sh.heap[a], b) && (sh.heap[a].owner in keys - {key} || sh.heap[a].owner !in answers);
      assert a == i ==> key !in answers;
    }
  }

  /** The parts of a growth that happens, for an arena whose buffer, if any, is live. */
  lemma GrowParts(sh: Shared, a: nat, needed: nat)
    requires SharedInv(sh) && a < |sh.heap|
    ensures var was, sh' := sh.heap[a], Grow(sh, a, needed);
      && (was.capacity > 0 ==> was.buf.Some? && was.buf.value in sh.live)
      && (needed <= was.capacity ==> sh' == sh)
      && (needed > was.capacity ==>
            && sh'.arenas == sh.arenas
            && sh'.heap == sh.heap[a := Arena(was.owner, Some(sh.next), needed)]
            && sh'.live == (if was.capacity > 0 then sh.live - {was.buf.value} else sh.live) + {sh.next}
            && sh'.freed == (if was.capacity > 0 then sh.freed + [was.buf.value] else sh.freed)
            && sh'.next == sh.next + 1)
  {
  }
}
