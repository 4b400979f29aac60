/** The workspace pool: one arena per (stream, slot) behind a mutex, with a four-entry cache per thread
    in front of it. `Ensure` runs as three atomic sections, which any number of threads interleave:
    the scan of the thread's cache, the map lookup, and the growth of the arena together with the
    insertion into the cache. Device buffers are numbered in order of allocation. */
module WorkspacePool {
  import opened Options

  datatype Key = Key(stream: int, slot: string)

  /** An arena, with the key it was created for. */
  datatype Arena = Arena(owner: Key, buf: Option<nat>, capacity: nat)

  datatype Entry = Entry(key: Key, arena: nat)

  const CACHE_SIZE: nat := 4

  type Cache = seq<Option<Entry>>

  /** What all threads share: the map, the arenas in order of creation, and the device's buffers. */
  datatype Shared = Shared(arenas: map<Key, nat>, heap: seq<Arena>, live: set<nat>, freed: seq<nat>, next: nat)

  // ---------------------------------------------------------------------------
  // The sections
  // ---------------------------------------------------------------------------

  predicate CacheInside(cache: Cache, heap: seq<Arena>) {
    forall i :: 0 <= i < |cache| && cache[i].Some? ==> cache[i].value.arena < |heap|
  }

  predicate Matches(slot: Option<Entry>, heap: seq<Arena>, key: Key, needed: nat)
    requires slot.Some? ==> slot.value.arena < |heap|
  {
    slot.Some? && slot.value.key == key && needed <= heap[slot.value.arena].capacity
  }

  /** The fast path: the first entry for the key whose arena is large enough. */
  function Scan(cache: Cache, heap: seq<Arena>, key: Key, needed: nat): Option<nat>
    requires CacheInside(cache, heap)
  {
    if cache == [] then None
    else if Matches(cache[0], heap, key, needed) then Some(cache[0].value.arena)
    else Scan(cache[1..], heap, key, needed)
  }

  /** The map section: the key's arena, created empty on first use. */
  function Locate(sh: Shared, key: Key): Shared {
    if key in sh.arenas then sh
    else sh.(arenas := sh.arenas[key := |sh.heap|], heap := sh.heap + [Arena(key, None, 0)])
  }

  /** The arena section: replace the buffer by a larger one if the arena is too small. */
  function Grow(sh: Shared, arena: nat, needed: nat): Shared
    requires arena < |sh.heap|
  {
    var was := sh.heap[arena];
    if needed <= was.capacity then sh
    else
      var drop := was.capacity > 0 && was.buf.Some?;
      sh.(heap := sh.heap[arena := Arena(was.owner, Some(sh.next), needed)],
          live := (if drop then sh.live - {was.buf.value} else sh.live) + {sh.next},
          freed := if drop then sh.freed + [was.buf.value] else sh.freed,
          next := sh.next + 1)
  }

  /** Insertion at the front, evicting the last entry. */
  function Insert(cache: Cache, entry: Entry): (r: Cache)
    requires |cache| == CACHE_SIZE
    ensures |r| == CACHE_SIZE
  {
    [Some(entry)] + cache[..CACHE_SIZE - 1]
  }

  // ---------------------------------------------------------------------------
  // What the sections keep
  // ---------------------------------------------------------------------------

  /** The map holds every arena under the key it was created for, and nothing else. */
  predicate OwnsAll(sh: Shared) {
    && (forall k :: k in sh.arenas ==> sh.arenas[k] < |sh.heap| && sh.heap[sh.arenas[k]].owner == k)
    && (forall a :: 0 <= a < |sh.heap| ==> sh.heap[a].owner in sh.arenas && sh.arenas[sh.heap[a].owner] == a)
  }

  predicate Holds(arena: Arena, b: nat) {
    arena.capacity > 0 && arena.buf == Some(b)
  }

  predicate HasHolder(heap: seq<Arena>, b: nat) {
    exists a :: 0 <= a < |heap| && Holds(heap[a], b)
  }

  /** Live buffers are exactly those of arenas with positive capacity, one each. */
  predicate BuffersOwned(heap: seq<Arena>, live: set<nat>) {
    && (forall a :: 0 <= a < |heap| && heap[a].capacity > 0 ==> heap[a].buf.Some? && heap[a].buf.value in live)
    && (forall a, a' :: 0 <= a < a' < |heap| && heap[a].capacity > 0 && heap[a'].capacity > 0 ==> heap[a].buf != heap[a'].buf)
    && (forall b :: b in live ==> HasHolder(heap, b))
  }

  /** Every buffer ever allocated is live or was freed exactly once. */
  ghost predicate Conserved(sh: Shared) {
    && (forall b: nat :: b < sh.next <==> b in sh.live || b in sh.freed)
    && (forall b :: b in sh.live ==> b !in sh.freed)
    && (forall i, j :: 0 <= i < j < |sh.freed| ==> sh.freed[i] != sh.freed[j])
  }

  ghost predicate SharedInv(sh: Shared) {
    OwnsAll(sh) && BuffersOwned(sh.heap, sh.live) && Conserved(sh)
  }

  /** A new, empty arena holds no buffer. */
  lemma EmptyArenaKeepsBuffers(heap: seq<Arena>, live: set<nat>, key: Key)
    requires BuffersOwned(heap, live)
    ensures BuffersOwned(heap + [Arena(key, None, 0)], live)
  {
    var heap' := heap + [Arena(key, None, 0)];
    forall b | b in live ensures HasHolder(heap', b) {
      assert HasHolder(heap, b);
      var a :| 0 <= a < |heap| && Holds(heap[a], b);
      assert Holds(heap'[a], b);
    }
  }

  lemma LocateKeeps(sh: Shared, key: Key)
    requires SharedInv(sh)
    ensures SharedInv(Locate(sh, key)) && key in Locate(sh, key).arenas
  {
    hide BuffersOwned;
    EmptyArenaKeepsBuffers(sh.heap, sh.live, key);
  }

  /** Exchanging an arena's buffer for a new one. */
  lemma NewBufferKeepsBuffers(heap: seq<Arena>, live: set<nat>, a: nat, arena: Arena)
    requires BuffersOwned(heap, live) && a < |heap| && arena.capacity > 0 && arena.buf.Some? && arena.buf.value !in live
    ensures BuffersOwned(heap[a := arena],
              live - (if heap[a].capacity > 0 && heap[a].buf.Some? then {heap[a].buf.value} else {}) + {arena.buf.value})
  {
    var heap' := heap[a := arena];
    forall b | b in live && !Holds(heap[a], b) ensures HasHolder(heap', b) {
      assert HasHolder(heap, b);
      var i :| 0 <= i < |heap| && Holds(heap[i], b);
      assert Holds(heap'[i], b);
    }
    assert Holds(heap'[a], arena.buf.value);
  }

  lemma GrowKeeps(sh: Shared, arena: nat, needed: nat)
    requires SharedInv(sh) && arena < |sh.heap|
    ensures SharedInv(Grow(sh, arena, needed))
  {
    var was, sh' := sh.heap[arena], Grow(sh, arena, needed);
    assert was.capacity > 0 ==> was.buf.Some? && was.buf.value in sh.live;
    assert sh.next !in sh.live;
    if needed > was.capacity {
      NewBufferKeepsBuffers(sh.heap, sh.live, arena, sh'.heap[arena]);
    }
    hide BuffersOwned, HasHolder;
  }

  /** The successor offers everything the state does: arenas stay under their keys and never shrink. */
  predicate Extends(sh: Shared, sh': Shared) {
    && (forall k :: k in sh.arenas ==> k in sh'.arenas && sh'.arenas[k] == sh.arenas[k])
    && |sh.heap| <= |sh'.heap|
    && (forall a :: 0 <= a < |sh.heap| ==> sh.heap[a].capacity <= sh'.heap[a].capacity)
    && sh.freed <= sh'.freed
  }

  // ---------------------------------------------------------------------------
  // Threads
  // ---------------------------------------------------------------------------

  /** Where a thread is: outside `Ensure`, past the capture check, or holding its arena. */
  datatype Pc = Idle | Missed(key: Key, needed: nat) | Located(key: Key, needed: nat, arena: nat)

  /** A completed `Ensure`. */
  datatype Grant = Grant(thread: nat, key: Key, needed: nat, arena: nat, fast: bool)

  /** A thread that has not called `Ensure` has an empty cache. */
  const EMPTY_CACHE: Cache := [None, None, None, None]

  function CacheIn(caches: map<nat, Cache>, t: nat): Cache {
    if t in caches then caches[t] else EMPTY_CACHE
  }

  function PcIn(pcs: map<nat, Pc>, t: nat): Pc {
    if t in pcs then pcs[t] else Idle
  }

  datatype State = State(shared: Shared, caches: map<nat, Cache>, pcs: map<nat, Pc>, capturing: bool, aborted: bool,
                         grants: seq<Grant>)
  {
    function CacheOf(t: nat): Cache {
      CacheIn(caches, t)
    }

    function PcOf(t: nat): Pc {
      PcIn(pcs, t)
    }
  }

  /** The atomic sections of all threads, and the capture switch. `Finish` carries whether a device
      allocation succeeds, should one be needed. */
  datatype Event = Call(thread: nat, key: Key, needed: nat) | Lookup(thread: nat) | Finish(thread: nat, ok: bool)
                 | SetCapture(on: bool)

  predicate EntryOwned(sh: Shared, entry: Entry) {
    entry.key in sh.arenas && sh.arenas[entry.key] == entry.arena
  }

  /** Every cache entry refers to the arena the map owns for its key. */
  ghost predicate CachesOwned(sh: Shared, caches: map<nat, Cache>) {
    forall t :: t in caches ==> CacheOwned(sh, caches[t])
  }

  predicate CacheOwned(sh: Shared, cache: Cache) {
    && |cache| == CACHE_SIZE
    && forall i :: 0 <= i < |cache| && cache[i].Some? ==> EntryOwned(sh, cache[i].value)
  }

  /** So does every thread between the map section and the arena section. */
  ghost predicate PcsOwned(sh: Shared, pcs: map<nat, Pc>) {
    forall t :: t in pcs && pcs[t].Located? ==> EntryOwned(sh, Entry(pcs[t].key, pcs[t].arena))
  }

  /** Every arena handed out is still the key's arena and still as large as was asked for. */
  ghost predicate GrantsHold(sh: Shared, grants: seq<Grant>) {
    forall g :: g in grants ==> GrantHolds(sh, g)
  }

  predicate GrantHolds(sh: Shared, g: Grant) {
    EntryOwned(sh, Entry(g.key, g.arena)) && g.arena < |sh.heap| && g.needed <= sh.heap[g.arena].capacity
  }

  ghost predicate Inv(s: State) {
    SharedInv(s.shared) && CachesOwned(s.shared, s.caches) && PcsOwned(s.shared, s.pcs) && GrantsHold(s.shared, s.grants)
  }

  const INITIAL: State := State(Shared(map[], [], {}, [], 0), map[], map[], false, false, [])

  lemma InitialInv()
    ensures Inv(INITIAL)
  {
  }

  /** The scan and, on a miss, the capture check. */
  ghost function DoCall(s: State, t: nat, key: Key, needed: nat): State
    requires Inv(s) && s.PcOf(t).Idle?
  {
    var hit := Scan(s.CacheOf(t), s.shared.heap, key, needed);
    if hit.Some? then s.(grants := s.grants + [Grant(t, key, needed, hit.value, true)])
    else if s.capturing then s.(aborted := true)
    else s.(pcs := s.pcs[t := Missed(key, needed)])
  }

  ghost function DoLookup(s: State, t: nat): State
    requires Inv(s) && s.PcOf(t).Missed?
  {
    var pc := s.PcOf(t);
    LocateKeeps(s.shared, pc.key);
    var shared' := Locate(s.shared, pc.key);
    s.(shared := shared', pcs := s.pcs[t := Located(pc.key, pc.needed, shared'.arenas[pc.key])])
  }

  ghost function DoFinish(s: State, t: nat, ok: bool): State
    requires Inv(s) && s.PcOf(t).Located?
  {
    var pc := s.PcOf(t);
    if pc.needed > s.shared.heap[pc.arena].capacity && !ok then s.(aborted := true)
    else s.(shared := Grow(s.shared, pc.arena, pc.needed),
            caches := s.caches[t := Insert(s.CacheOf(t), Entry(pc.key, pc.arena))],
            pcs := s.pcs[t := Idle],
            grants := s.grants + [Grant(t, pc.key, pc.needed, pc.arena, false)])
  }

  /** One event; an event that is not possible in the state changes nothing. Both assertions of the
      source end the process. */
  ghost function Next(s: State, e: Event): State
    requires Inv(s)
  {
    if s.aborted then s else
    match e
    case Call(t, key, needed) => if s.PcOf(t).Idle? then DoCall(s, t, key, needed) else s
    case Lookup(t) => if s.PcOf(t).Missed? then DoLookup(s, t) else s
    case Finish(t, ok) => if s.PcOf(t).Located? then DoFinish(s, t, ok) else s
    case SetCapture(on) => s.(capturing := on)
  }

  /** A hit is an entry of the cache for the key, large enough. */
  lemma {:induction false} ScanFinds(cache: Cache, heap: seq<Arena>, key: Key, needed: nat)
    requires CacheInside(cache, heap)
    ensures var hit := Scan(cache, heap, key, needed);
      && (hit.Some? <==> exists i :: 0 <= i < |cache| && Matches(cache[i], heap, key, needed))
      && (hit.Some? ==> exists i :: 0 <= i < |cache| && Matches(cache[i], heap, key, needed) && cache[i].value.arena == hit.value)
  {
    if cache != [] {
      var rest := cache[1..];
      ScanFinds(rest, heap, key, needed);
      if Matches(cache[0], heap, key, needed) {
      } else {
        forall i | 0 <= i < |rest| ensures rest[i] == cache[i + 1] {
        }
        if i :| 0 <= i < |cache| && Matches(cache[i], heap, key, needed) {
          assert rest[i - 1] == cache[i];
        }
      }
    }
  }

  /** What the fast path returns is the map's arena for the key. */
  lemma HitIsOwned(s: State, t: nat, key: Key, needed: nat)
    requires Inv(s) && CacheInside(s.CacheOf(t), s.shared.heap)
    ensures var hit := Scan(s.CacheOf(t), s.shared.heap, key, needed);
      hit.Some? ==> EntryOwned(s.shared, Entry(key, hit.value)) && hit.value < |s.shared.heap|
                    && needed <= s.shared.heap[hit.value].capacity
  {
    ScanFinds(s.CacheOf(t), s.shared.heap, key, needed);
  }

  lemma CallKeeps(s: State, t: nat, key: Key, needed: nat)
    requires Inv(s) && s.PcOf(t).Idle?
    ensures Inv(DoCall(s, t, key, needed)) && DoCall(s, t, key, needed).shared == s.shared
  {
    HitIsOwned(s, t, key, needed);
    hide SharedInv, EntryOwned, Scan, CachesOwned;
  }

  lemma LocateExtends(sh: Shared, key: Key)
    ensures Extends(sh, Locate(sh, key))
  {
  }

  lemma GrowExtends(sh: Shared, arena: nat, needed: nat)
    requires arena < |sh.heap|
    ensures Extends(sh, Grow(sh, arena, needed))
  {
  }

  /** Ownership and grants survive any extension. */
  lemma ExtensionKeeps(s: State, sh': Shared)
    requires Inv(s) && Extends(s.shared, sh')
    ensures CachesOwned(sh', s.caches) && PcsOwned(sh', s.pcs) && GrantsHold(sh', s.grants)
  {
    hide SharedInv;
  }

  lemma LookupKeeps(s: State, t: nat)
    requires Inv(s) && s.PcOf(t).Missed?
    ensures Inv(DoLookup(s, t)) && Extends(s.shared, DoLookup(s, t).shared)
  {
    var key := s.PcOf(t).key;
    LocateKeeps(s.shared, key);
    LocateExtends(s.shared, key);
    ExtensionKeeps(s, Locate(s.shared, key));
    hide SharedInv, Locate, Extends, CachesOwned, GrantsHold;
  }

  /** The parts of the state after a completed `Ensure`. */
  lemma GrownOwned(s: State, t: nat)
    requires Inv(s) && s.PcOf(t).Located?
    ensures var pc := s.PcOf(t);
      var sh' := Grow(s.shared, pc.arena, pc.needed);
      && SharedInv(sh') && Extends(s.shared, sh')
      && CachesOwned(sh', s.caches[t := Insert(s.CacheOf(t), Entry(pc.key, pc.arena))])
      && PcsOwned(sh', s.pcs[t := Idle])
      && GrantsHold(sh', s.grants + [Grant(t, pc.key, pc.needed, pc.arena, false)])
  {
    var pc := s.PcOf(t);
    var sh' := Grow(s.shared, pc.arena, pc.needed);
    GrowKeeps(s.shared, pc.arena, pc.needed);
    GrowExtends(s.shared, pc.arena, pc.needed);
    ExtensionKeeps(s, sh');
    InsertOwned(sh', s.CacheOf(t), Entry(pc.key, pc.arena));
    assert GrantHolds(sh', Grant(t, pc.key, pc.needed, pc.arena, false));
    hide SharedInv, Grow, Insert, Extends, GrantsHold, CachesOwned, PcsOwned, CacheOwned, GrantHolds;
    CompletedOwned(sh', s, t, Insert(s.CacheOf(t), Entry(pc.key, pc.arena)), Grant(t, pc.key, pc.needed, pc.arena, false));
  }

  lemma FinishKeeps(s: State, t: nat, ok: bool)
    requires Inv(s) && s.PcOf(t).Located?
    ensures Inv(DoFinish(s, t, ok)) && Extends(s.shared, DoFinish(s, t, ok).shared)
  {
    GrownOwned(s, t);
    ExtendsItself(s.shared);
    hide SharedInv, Grow, Insert, Extends, GrantsHold, CachesOwned, PcsOwned;
  }

  lemma CompletedOwned(sh': Shared, s: State, t: nat, cache': Cache, g: Grant)
    requires CachesOwned(sh', s.caches) && PcsOwned(sh', s.pcs) && GrantsHold(sh', s.grants)
    requires CacheOwned(sh', cache') && GrantHolds(sh', g)
    ensures CachesOwned(sh', s.caches[t := cache']) && PcsOwned(sh', s.pcs[t := Idle]) && GrantsHold(sh', s.grants + [g])
  {
    hide CacheOwned, GrantHolds, EntryOwned;
  }

  lemma ExtendsItself(sh: Shared)
    ensures Extends(sh, sh)
  {
  }

  lemma InsertOwned(sh: Shared, cache: Cache, entry: Entry)
    requires CacheOwned(sh, cache) && EntryOwned(sh, entry)
    ensures CacheOwned(sh, Insert(cache, entry))
  {
  }

  lemma SwitchKeeps(s: State)
    requires Inv(s)
    ensures forall on :: Inv(s.(capturing := on))
  {
  }

  lemma NextKeeps(s: State, e: Event)
    requires Inv(s)
    ensures Inv(Next(s, e)) && Extends(s.shared, Next(s, e).shared)
  {
    ExtendsItself(s.shared);
    SwitchKeeps(s);
    hide Inv, DoCall, DoLookup, DoFinish, Extends;
    match e
    case Call(t, key, needed) =>
      if s.PcOf(t).Idle? {
        CallKeeps(s, t, key, needed);
      }
    case Lookup(t) =>
      if s.PcOf(t).Missed? {
        LookupKeeps(s, t);
      }
    case Finish(t, ok) =>
      if s.PcOf(t).Located? {
        FinishKeeps(s, t, ok);
      }
    case SetCapture(on) =>
  }

  /** Any interleaving of the sections of any number of threads. */
  ghost function Run(s: State, events: seq<Event>): (r: State)
    requires Inv(s)
    ensures Inv(r)
    decreases |events|
  {
    if events == [] then s
    else
      NextKeeps(s, events[0]);
      Run(Next(s, events[0]), events[1..])
  }

  // ---------------------------------------------------------------------------
  // Properties of every run
  // ---------------------------------------------------------------------------

  /** Over any run arenas keep their keys and capacities never decrease. */
  lemma {:induction false} RunExtends(s: State, events: seq<Event>)
    requires Inv(s)
    ensures Extends(s.shared, Run(s, events).shared)
    decreases |events|
  {
    ExtendsItself(s.shared);
    if events != [] {
      NextKeeps(s, events[0]);
      RunExtends(Next(s, events[0]), events[1..]);
      hide Inv, Next;
    }
  }

  /** In every reachable state no two keys share an arena, and a cache entry of any thread refers to
      the arena the map owns for the entry's key. */
  lemma CachesAgreeWithMap(events: seq<Event>)
    ensures Inv(INITIAL)
    ensures var s := Run(INITIAL, events);
      && (forall k, k' :: k in s.shared.arenas && k' in s.shared.arenas && k != k' ==> s.shared.arenas[k] != s.shared.arenas[k'])
      && (forall t: nat, i :: 0 <= i < |s.CacheOf(t)| && s.CacheOf(t)[i].Some? ==>
            s.CacheOf(t)[i].value.key in s.shared.arenas
            && s.shared.arenas[s.CacheOf(t)[i].value.key] == s.CacheOf(t)[i].value.arena)
  {
    InitialInv();
    var s := Run(INITIAL, events);
    hide Run;
    assert forall k :: k in s.shared.arenas ==> s.shared.heap[s.shared.arenas[k]].owner == k;
    forall t: nat, i | 0 <= i < |s.CacheOf(t)| && s.CacheOf(t)[i].Some?
      ensures EntryOwned(s.shared, s.CacheOf(t)[i].value)
    {
      assert t in s.caches && CacheOwned(s.shared, s.caches[t]);
    }
  }

  /** A hit is what the slow path would give: the lookup finds the same arena, creates nothing, and
      the arena section leaves everything alone. */
  lemma HitEqualsSlowPath(s: State, t: nat, key: Key, needed: nat)
    requires Inv(s) && CacheInside(s.CacheOf(t), s.shared.heap)
    ensures var hit := Scan(s.CacheOf(t), s.shared.heap, key, needed);
      hit.Some? ==>
        && Locate(s.shared, key) == s.shared && key in s.shared.arenas && s.shared.arenas[key] == hit.value
        && hit.value < |s.shared.heap| && Grow(s.shared, hit.value, needed) == s.shared
  {
    HitIsOwned(s, t, key, needed);
  }

  /** Every arena ever handed out still belongs to its key and still covers the request, however much
      later the run is looked at. */
  lemma GrantsCoverForever(events: seq<Event>, later: seq<Event>)
    ensures Inv(INITIAL)
    ensures var s, s' := Run(INITIAL, events), Run(Run(INITIAL, events), later);
      forall g :: g in s.grants ==>
        && g.key in s'.shared.arenas && s'.shared.arenas[g.key] == g.arena && g.arena < |s'.shared.heap|
        && g.needed <= s'.shared.heap[g.arena].capacity
  {
    InitialInv();
    var s := Run(INITIAL, events);
    RunExtends(s, later);
    hide Run;
    forall g | g in s.grants ensures GrantHolds(Run(s, later).shared, g) {
      assert GrantHolds(s.shared, g);
    }
  }

  /** Live buffers are exactly those of arenas with positive capacity; every buffer ever allocated is
      either live or was freed exactly once. */
  lemma BuffersExact(events: seq<Event>)
    ensures Inv(INITIAL)
    ensures var sh := Run(INITIAL, events).shared;
      && (forall b: nat :: b in sh.live <==> exists a :: 0 <= a < |sh.heap| && Holds(sh.heap[a], b))
      && (forall b: nat :: b < sh.next ==> multiset(sh.freed)[b] == if b in sh.live then 0 else 1)
      && (forall b: nat :: b >= sh.next ==> b !in sh.live && b !in sh.freed)
  {
    InitialInv();
    var sh := Run(INITIAL, events).shared;
    hide Run;
    forall b: nat ensures b in sh.live <==> exists a :: 0 <= a < |sh.heap| && Holds(sh.heap[a], b) {
      assert b in sh.live ==> HasHolder(sh.heap, b);
    }
    forall b: nat | b < sh.next ensures multiset(sh.freed)[b] == if b in sh.live then 0 else 1 {
      CountOnce(sh.freed, b);
    }
  }

  lemma {:induction false} CountOnce(s: seq<nat>, b: nat)
    requires forall i, j :: 0 <= i < j < |s| ==> s[i] != s[j]
    ensures multiset(s)[b] == if b in s then 1 else 0
    decreases |s|
  {
    if s != [] {
      assert s == [s[0]] + s[1..];
      CountOnce(s[1..], b);
    }
  }

  lemma BufferStep(s: State, e: Event, a: nat, b: nat)
    requires Inv(s) && a < |s.shared.heap| && Holds(s.shared.heap[a], b)
    ensures var sh' := Next(s, e).shared;
      a < |sh'.heap| && (Holds(sh'.heap[a], b) || b in sh'.freed)
  {
    if e.Lookup? && s.PcOf(e.thread).Missed? {
      var key := s.PcOf(e.thread).key;
      assert Locate(s.shared, key).heap[a] == s.shared.heap[a];
    } else if e.Finish? && s.PcOf(e.thread).Located? {
      var pc := s.PcOf(e.thread);
      var sh' := Grow(s.shared, pc.arena, pc.needed);
      assert sh'.heap[a] == s.shared.heap[a] || b in sh'.freed;
    }
    hide SharedInv, CachesOwned, PcsOwned, GrantsHold, Scan, Locate, Grow;
  }

  /** A buffer stays with its arena until it is freed. */
  lemma {:induction false} SupersededIsFreed(s: State, events: seq<Event>, a: nat, b: nat)
    requires Inv(s) && a < |s.shared.heap| && Holds(s.shared.heap[a], b)
    ensures var sh' := Run(s, events).shared;
      a < |sh'.heap| && (Holds(sh'.heap[a], b) || b in sh'.freed)
    decreases |events|
  {
    if events != [] {
      hide Inv, Next, Holds;
      var s' := Next(s, events[0]);
      NextKeeps(s, events[0]);
      BufferStep(s, events[0], a, b);
      RunExtends(s', events[1..]);
      if Holds(s'.shared.heap[a], b) {
        SupersededIsFreed(s', events[1..], a, b);
      }
    }
  }

  /** Some completed `Ensure` asked for exactly the arena's capacity. */
  predicate Asked(grants: seq<Grant>, a: nat, capacity: nat) {
    exists i :: 0 <= i < |grants| && grants[i].arena == a && grants[i].needed == capacity
  }

  ghost predicate CapacitiesAsked(heap: seq<Arena>, grants: seq<Grant>) {
    forall a :: 0 <= a < |heap| && heap[a].capacity > 0 ==> Asked(grants, a, heap[a].capacity)
  }

  lemma AskedStill(heap: seq<Arena>, grants: seq<Grant>, g: Grant)
    requires CapacitiesAsked(heap, grants)
    ensures CapacitiesAsked(heap, grants + [g])
  {
    forall a | 0 <= a < |heap| && heap[a].capacity > 0 ensures Asked(grants + [g], a, heap[a].capacity) {
      assert Asked(grants, a, heap[a].capacity);
      var i :| 0 <= i < |grants| && grants[i].arena == a && grants[i].needed == heap[a].capacity;
      assert (grants + [g])[i] == grants[i];
    }
  }

  lemma GrownAsked(sh: Shared, grants: seq<Grant>, g: Grant)
    requires CapacitiesAsked(sh.heap, grants) && g.arena < |sh.heap|
    ensures CapacitiesAsked(Grow(sh, g.arena, g.needed).heap, grants + [g])
  {
    AskedStill(sh.heap, grants, g);
    var grants' := grants + [g];
    assert grants'[|grants|] == g;
    assert Asked(grants', g.arena, g.needed);
    var heap' := Grow(sh, g.arena, g.needed).heap;
    assert forall a :: 0 <= a < |heap'| ==> heap'[a] == sh.heap[a] || (a == g.arena && heap'[a].capacity == g.needed);
  }

  lemma AskedStep(s: State, e: Event)
    requires Inv(s) && CapacitiesAsked(s.shared.heap, s.grants)
    ensures CapacitiesAsked(Next(s, e).shared.heap, Next(s, e).grants)
  {
    hide SharedInv, CachesOwned, GrantsHold, CapacitiesAsked, Scan, Grow, Insert;
    match e {
      case Call(t, key, needed) =>
        if !s.aborted && s.PcOf(t).Idle? {
          CachesInside(s, t);
          var hit := Scan(s.CacheOf(t), s.shared.heap, key, needed);
          if hit.Some? {
            AskedStill(s.shared.heap, s.grants, Grant(t, key, needed, hit.value, true));
          }
        }
      case Lookup(t) =>
        if s.PcOf(t).Missed? {
          LocatedAsked(s.shared, s.PcOf(t).key, s.grants);
        }
      case Finish(t, ok) =>
        var pc := s.PcOf(t);
        if pc.Located? {
          LocatedInside(s, t);
          GrownAsked(s.shared, s.grants, Grant(t, pc.key, pc.needed, pc.arena, false));
        }
      case SetCapture(_) =>
    }
  }

  lemma LocatedInside(s: State, t: nat)
    requires Inv(s) && s.PcOf(t).Located?
    ensures s.PcOf(t).arena < |s.shared.heap|
  {
    assert t in s.pcs && EntryOwned(s.shared, Entry(s.pcs[t].key, s.pcs[t].arena));
  }

  lemma LocatedAsked(sh: Shared, key: Key, grants: seq<Grant>)
    requires CapacitiesAsked(sh.heap, grants)
    ensures CapacitiesAsked(Locate(sh, key).heap, grants)
  {
  }

  lemma {:induction false} AskedRun(s: State, events: seq<Event>)
    requires Inv(s) && CapacitiesAsked(s.shared.heap, s.grants)
    ensures CapacitiesAsked(Run(s, events).shared.heap, Run(s, events).grants)
    decreases |events|
  {
    if events != [] {
      hide Inv, Next, CapacitiesAsked;
      NextKeeps(s, events[0]);
      AskedStep(s, events[0]);
      AskedRun(Next(s, events[0]), events[1..]);
    }
  }

  /** Memory is held for what was asked and no more: over every run an arena's capacity is the largest size
      an `Ensure` completed for it asked for. */
  lemma CapacityIsLargestRequest(events: seq<Event>, a: nat)
    ensures Inv(INITIAL)
    ensures var s := Run(INITIAL, events);
      a < |s.shared.heap| ==>
        && (forall g :: g in s.grants && g.arena == a ==> g.needed <= s.shared.heap[a].capacity)
        && (s.shared.heap[a].capacity > 0 ==> exists g :: g in s.grants && g.arena == a && g.needed == s.shared.heap[a].capacity)
  {
    InitialInv();
    AskedRun(INITIAL, events);
    var s := Run(INITIAL, events);
    hide Run, SharedInv, CachesOwned, PcsOwned, EntryOwned;
    forall g | g in s.grants && g.arena == a && a < |s.shared.heap| ensures g.needed <= s.shared.heap[a].capacity {
      assert GrantHolds(s.shared, g);
    }
    if a < |s.shared.heap| && s.shared.heap[a].capacity > 0 {
      assert Asked(s.grants, a, s.shared.heap[a].capacity);
      var i :| 0 <= i < |s.grants| && s.grants[i].arena == a && s.grants[i].needed == s.shared.heap[a].capacity;
      assert s.grants[i] in s.grants;
    }
  }

  /** When an event ends the process: a call that finds no entry large enough while a graph is captured, and
      a slow path that needs memory the device refuses. */
  lemma AbortsExactly(s: State, e: Event)
    requires Inv(s) && !s.aborted
    ensures CacheInside(s.CacheOf(if e.SetCapture? then 0 else e.thread), s.shared.heap)
    ensures Next(s, e).aborted <==>
      || (e.Call? && s.PcOf(e.thread).Idle? && s.capturing
          && !exists i :: 0 <= i < |s.CacheOf(e.thread)|
                && Matches(s.CacheOf(e.thread)[i], s.shared.heap, e.key, e.needed))
      || (e.Finish? && s.PcOf(e.thread).Located? && !e.ok
          && s.PcOf(e.thread).needed > s.shared.heap[s.PcOf(e.thread).arena].capacity)
  {
    hide SharedInv, GrantsHold, Scan, Grow, Insert, Locate;
    var t := if e.SetCapture? then 0 else e.thread;
    CachesInside(s, t);
    if e.Call? {
      ScanFinds(s.CacheOf(t), s.shared.heap, e.key, e.needed);
    }
  }

  /** So without capture, and with a device that always has memory, no run ends that way. */
  lemma {:induction false} NoFaultNoAbort(s: State, events: seq<Event>)
    requires Inv(s) && !s.aborted && !s.capturing
    requires forall e :: e in events ==> !(e.SetCapture? && e.on) && !(e.Finish? && !e.ok)
    ensures !Run(s, events).aborted
    decreases |events|
  {
    if events != [] {
      hide Inv, Scan, Grow, Insert, Locate, SharedInv;
      var e := events[0];
      NextKeeps(s, e);
      AbortsExactly(s, e);
      NoCaptureStep(s, e);
      NoFaultNoAbort(Next(s, e), events[1..]);
    }
  }

  lemma NoCaptureStep(s: State, e: Event)
    requires Inv(s) && !s.capturing && !(e.SetCapture? && e.on)
    ensures !Next(s, e).capturing
  {
    hide SharedInv, CachesOwned, GrantsHold, PcsOwned, Scan, Grow, Insert, Locate;
  }

  // ---------------------------------------------------------------------------
  // Capture
  // ---------------------------------------------------------------------------

  /** The thread is past the capture check with a request its arena does not cover. */
  predicate NeedsGrowth(sh: Shared, pc: Pc) {
    match pc
    case Idle => false
    case Missed(key, needed) =>
      needed > if key in sh.arenas && sh.arenas[key] < |sh.heap| then sh.heap[sh.arenas[key]].capacity else 0
    case Located(_, needed, arena) => arena < |sh.heap| && needed > sh.heap[arena].capacity
  }

  ghost predicate Quiet(s: State) {
    forall t :: t in s.pcs ==> !NeedsGrowth(s.shared, s.pcs[t])
  }

  ghost predicate NoSwitch(events: seq<Event>) {
    forall e :: e in events ==> !e.SetCapture?
  }

  lemma ExtensionStaysCovered(sh: Shared, sh': Shared, pc: Pc)
    requires SharedInv(sh) && Extends(sh, sh') && SharedInv(sh') && !NeedsGrowth(sh, pc)
    requires pc.Located? ==> EntryOwned(sh, Entry(pc.key, pc.arena))
    ensures !NeedsGrowth(sh', pc)
  {
  }

  /** Where a thread stays put, larger arenas change nothing for it. */
  lemma OthersStayCovered(s: State, sh': Shared)
    requires Inv(s) && Quiet(s) && Extends(s.shared, sh') && SharedInv(sh')
    ensures forall t :: t in s.pcs ==> !NeedsGrowth(sh', s.pcs[t])
  {
    forall t | t in s.pcs ensures !NeedsGrowth(sh', s.pcs[t]) {
      hide SharedInv, NeedsGrowth, Extends;
      ExtensionStaysCovered(s.shared, sh', s.pcs[t]);
    }
  }

  lemma QuietCall(s: State, t: nat, key: Key, needed: nat)
    requires Inv(s) && s.capturing && Quiet(s) && s.PcOf(t).Idle?
    ensures var s' := DoCall(s, t, key, needed);
      s'.capturing && Quiet(s') && s'.shared == s.shared
  {
    CachesInside(s, t);
    hide SharedInv, CachesOwned, GrantsHold, PcsOwned, NeedsGrowth, Scan;
  }

  lemma QuietLookup(s: State, t: nat)
    requires Inv(s) && s.capturing && Quiet(s) && s.PcOf(t).Missed?
    ensures var s' := DoLookup(s, t);
      s'.capturing && Quiet(s') && s'.shared.next == s.shared.next && s'.shared.freed == s.shared.freed
  {
    var key, needed := s.PcOf(t).key, s.PcOf(t).needed;
    LookupKeeps(s, t);
    OthersStayCovered(s, Locate(s.shared, key));
    LocatedAfterMiss(s.shared, key, needed);
    LocateKeeps(s.shared, key);
    hide Inv, SharedInv, NeedsGrowth, Extends;
  }

  lemma QuietFinish(s: State, t: nat, ok: bool)
    requires Inv(s) && s.capturing && Quiet(s) && s.PcOf(t).Located?
    ensures var s' := DoFinish(s, t, ok);
      s'.capturing && Quiet(s') && s'.shared == s.shared
  {
    var pc := s.PcOf(t);
    assert !NeedsGrowth(s.shared, pc);
    assert Grow(s.shared, pc.arena, pc.needed) == s.shared;
    assert !NeedsGrowth(s.shared, Idle);
    hide SharedInv, CachesOwned, GrantsHold, PcsOwned, NeedsGrowth, Grow, Insert;
  }

  lemma QuietStep(s: State, e: Event)
    requires Inv(s) && s.capturing && Quiet(s) && !e.SetCapture?
    ensures Inv(Next(s, e)) && Next(s, e).capturing && Quiet(Next(s, e))
    ensures Next(s, e).shared.next == s.shared.next && Next(s, e).shared.freed == s.shared.freed
  {
    hide Inv, Quiet, DoCall, DoLookup, DoFinish;
    NextKeeps(s, e);
    match e
    case Call(t, key, needed) =>
      if s.PcOf(t).Idle? {
        QuietCall(s, t, key, needed);
      }
    case Lookup(t) =>
      if s.PcOf(t).Missed? {
        QuietLookup(s, t);
      }
    case Finish(t, ok) =>
      if s.PcOf(t).Located? {
        QuietFinish(s, t, ok);
      }
  }

  lemma LocatedAfterMiss(sh: Shared, key: Key, needed: nat)
    requires SharedInv(sh)
    ensures var sh' := Locate(sh, key);
      NeedsGrowth(sh', Located(key, needed, sh'.arenas[key])) == NeedsGrowth(sh, Missed(key, needed))
  {
  }

  lemma {:induction false} QuietRun(s: State, events: seq<Event>)
    requires Inv(s) && s.capturing && Quiet(s) && NoSwitch(events)
    ensures Run(s, events).shared.next == s.shared.next && Run(s, events).shared.freed == s.shared.freed
    decreases |events|
  {
    if events != [] {
      hide Inv, Next, Quiet;
      QuietStep(s, events[0]);
      QuietRun(Next(s, events[0]), events[1..]);
    }
  }

  lemma RunOne(s: State, e: Event)
    requires Inv(s)
    ensures Run(s, [e]) == Next(s, e)
  {
    NextKeeps(s, e);
    assert [e][1..] == [];
    hide Inv, Next;
  }

  lemma RunTwo(s: State, e: Event, e': Event)
    requires Inv(s)
    ensures Inv(Next(s, e)) && Run(s, [e, e']) == Next(Next(s, e), e')
  {
    NextKeeps(s, e);
    RunOne(Next(s, e), e');
    assert [e, e'][1..] == [e'];
    hide Inv, Next;
  }

  lemma UncoveredFinish(s: State, t: nat)
    requires Inv(s) && !s.aborted && s.PcOf(t).Located? && NeedsGrowth(s.shared, s.PcOf(t))
    ensures Next(s, Finish(t, true)).shared.next == s.shared.next + 1
  {
    hide SharedInv, CachesOwned, GrantsHold, Insert;
  }

  /** A thread past the check with an uncovered request allocates, capture or not. */
  lemma UncoveredAllocates(s: State, t: nat) returns (events: seq<Event>)
    requires Inv(s) && !s.aborted && NeedsGrowth(s.shared, s.PcOf(t))
    ensures NoSwitch(events) && Run(s, events).shared.next == s.shared.next + 1
  {
    if s.PcOf(t).Located? {
      events := [Finish(t, true)];
      RunOne(s, Finish(t, true));
      UncoveredFinish(s, t);
    } else {
      events := [Lookup(t), Finish(t, true)];
      RunTwo(s, Lookup(t), Finish(t, true));
      LocatedAfterMiss(s.shared, s.PcOf(t).key, s.PcOf(t).needed);
      hide SharedInv, CachesOwned, GrantsHold, PcsOwned, Run, NeedsGrowth, DoFinish;
      UncoveredFinish(Next(s, Lookup(t)), t);
    }
  }

  /** During capture no run allocates device memory, until capture is switched off, if and only if no
      thread was already past the check with a request its arena does not cover. */
  lemma CaptureExactly(s: State)
    requires Inv(s) && s.capturing && !s.aborted
    ensures (forall events :: NoSwitch(events) ==> Run(s, events).shared.next == s.shared.next) <==> Quiet(s)
  {
    hide Inv, Run, NeedsGrowth;
    if Quiet(s) {
      forall events | NoSwitch(events) ensures Run(s, events).shared.next == s.shared.next {
        QuietRun(s, events);
      }
    } else {
      var t :| t in s.pcs && NeedsGrowth(s.shared, s.pcs[t]);
      var events := UncoveredAllocates(s, t);
    }
  }

  /** Such a state is reachable: a first call, then the switch. */
  lemma CaptureCanBeUnquiet(key: Key)
    ensures Inv(INITIAL)
    ensures var s := Run(INITIAL, [Call(0, key, 1), SetCapture(true)]);
      s.capturing && !s.aborted && !Quiet(s)
  {
    InitialInv();
    RunTwo(INITIAL, Call(0, key, 1), SetCapture(true));
    ScanFinds(EMPTY_CACHE, [], key, 1);
    var s1 := Next(INITIAL, Call(0, key, 1));
    assert s1 == INITIAL.(pcs := map[0 := Missed(key, 1)]);
    var s := Next(s1, SetCapture(true));
    assert 0 in s.pcs && NeedsGrowth(s.shared, s.pcs[0]);
  }

  // ---------------------------------------------------------------------------
  // Warm-up
  // ---------------------------------------------------------------------------

  /** The cache slot leads to the key's arena, at least `enough` large. */
  predicate WarmSlot(sh: Shared, slot: Option<Entry>, key: Key, enough: nat) {
    && slot.Some? && slot.value.key == key && EntryOwned(sh, slot.value)
    && slot.value.arena < |sh.heap| && enough <= sh.heap[slot.value.arena].capacity
  }

  /** How many events complete the slow path of thread `t`. */
  function Misses(t: nat, events: seq<Event>): nat {
    if events == [] then 0
    else (if events[0].Finish? && events[0].thread == t then 1 else 0) + Misses(t, events[1..])
  }

  /** An event leaves a thread's cache alone, or completes its slow path and shifts the cache by one. */
  lemma CacheStep(s: State, e: Event, t: nat)
    requires Inv(s)
    ensures var cache, cache' := s.CacheOf(t), Next(s, e).CacheOf(t);
      && |cache| == |cache'| == CACHE_SIZE
      && (cache' == cache
          || (e.Finish? && e.thread == t && forall i :: 0 <= i < CACHE_SIZE - 1 ==> cache'[i + 1] == cache[i]))
  {
    assert t in s.caches ==> CacheOwned(s.shared, s.caches[t]);
    if e.Finish? && s.PcOf(e.thread).Located? {
      assert e.thread in s.caches ==> CacheOwned(s.shared, s.caches[e.thread]);
      var pc := s.PcOf(e.thread);
      var cache' := Insert(s.CacheOf(e.thread), Entry(pc.key, pc.arena));
      assert forall i :: 0 <= i < CACHE_SIZE - 1 ==> cache'[i + 1] == s.CacheOf(e.thread)[i];
    }
    hide SharedInv, CachesOwned, GrantsHold, PcsOwned, Scan, Grow, Insert;
  }

  /** The cache keeps the last four slow-path results: an arena used there is still found by a call
      that needs no more, whatever other threads do, as long as fewer than four further slow paths of
      the same thread complete. */
  lemma {:induction false} WarmUpSuffices(s: State, events: seq<Event>, t: nat, key: Key, enough: nat, i: nat, needed: nat)
    requires Inv(s) && i < |s.CacheOf(t)| && WarmSlot(s.shared, s.CacheOf(t)[i], key, enough)
    requires i + Misses(t, events) < CACHE_SIZE && needed <= enough
    ensures CacheInside(Run(s, events).CacheOf(t), Run(s, events).shared.heap)
    ensures Scan(Run(s, events).CacheOf(t), Run(s, events).shared.heap, key, needed).Some?
    decreases |events|
  {
    if events == [] {
      CachesInside(s, t);
      hide Inv, EntryOwned;
      ScanFinds(s.CacheOf(t), s.shared.heap, key, needed);
      assert Matches(s.CacheOf(t)[i], s.shared.heap, key, needed);
    } else {
      var e := events[0];
      NextKeeps(s, e);
      CacheStep(s, e, t);
      var s' := Next(s, e);
      assert WarmSlot(s'.shared, s.CacheOf(t)[i], key, enough);
      hide Inv, Next, Scan, WarmSlot, Extends;
      if s'.CacheOf(t) == s.CacheOf(t) {
        WarmUpSuffices(s', events[1..], t, key, enough, i, needed);
      } else {
        WarmUpSuffices(s', events[1..], t, key, enough, i + 1, needed);
      }
    }
  }

  lemma CachesInside(s: State, t: nat)
    requires Inv(s)
    ensures CacheInside(s.CacheOf(t), s.shared.heap)
  {
    assert t in s.caches ==> CacheOwned(s.shared, s.caches[t]);
  }

  /** A completed slow path leaves its arena in the front slot. */
  lemma FinishWarms(s: State, t: nat, ok: bool)
    requires Inv(s) && !s.aborted && s.PcOf(t).Located? && !Next(s, Finish(t, ok)).aborted
    ensures Inv(Next(s, Finish(t, ok)))
    ensures var s' := Next(s, Finish(t, ok));
      WarmSlot(s'.shared, s'.CacheOf(t)[0], s.PcOf(t).key, s.PcOf(t).needed)
  {
    NextKeeps(s, Finish(t, ok));
    var pc := s.PcOf(t);
    var sh', entry := Grow(s.shared, pc.arena, pc.needed), Entry(pc.key, pc.arena);
    assert WarmSlot(sh', Some(entry), pc.key, pc.needed);
    assert Insert(s.CacheOf(t), entry)[0] == Some(entry);
    hide Inv, SharedInv, CachesOwned, GrantsHold, PcsOwned, Grow, Insert, WarmSlot, Extends;
  }

  // ---------------------------------------------------------------------------
  // One thread at a time
  // ---------------------------------------------------------------------------

  /** The result of `Ensure`; no arena if an assertion ended the process. */
  datatype Outcome = Outcome(shared: Shared, cache: Cache, arena: Option<nat>)

  /** `Ensure` without interruption. */
  function EnsureAlone(sh: Shared, cache: Cache, capturing: bool, key: Key, needed: nat, ok: bool): Outcome
    requires OwnsAll(sh) && CacheInside(cache, sh.heap) && |cache| == CACHE_SIZE
  {
    var hit := Scan(cache, sh.heap, key, needed);
    if hit.Some? then Outcome(sh, cache, hit)
    else if capturing then Outcome(sh, cache, None)
    else
      var sh' := Locate(sh, key);
      var arena := sh'.arenas[key];
      if needed > sh'.heap[arena].capacity && !ok then Outcome(sh', cache, None)
      else Outcome(Grow(sh', arena, needed), Insert(cache, Entry(key, arena)), Some(arena))
  }

  /** What a run of the three sections leaves behind, as the outcome says. */
  ghost predicate Leaves(s': State, t: nat, r: Outcome) {
    && s'.shared == r.shared && s'.CacheOf(t) == r.cache && (s'.aborted <==> r.arena.None?)
    && (r.arena.Some? ==> s'.PcOf(t).Idle? && s'.grants != [] && s'.grants[|s'.grants| - 1].arena == r.arena.value)
  }

  lemma FinishLeaves(s: State, t: nat, ok: bool)
    requires Inv(s) && !s.aborted && s.PcOf(t).Located? && |s.CacheOf(t)| == CACHE_SIZE && s.PcOf(t).arena < |s.shared.heap|
    ensures var pc := s.PcOf(t);
      Leaves(Next(s, Finish(t, ok)), t,
             if pc.needed > s.shared.heap[pc.arena].capacity && !ok then Outcome(s.shared, s.CacheOf(t), None)
             else Outcome(Grow(s.shared, pc.arena, pc.needed), Insert(s.CacheOf(t), Entry(pc.key, pc.arena)), Some(pc.arena)))
  {
    hide SharedInv, CachesOwned, GrantsHold, PcsOwned, Grow, Insert, Extends;
  }

  /** The slow path from the map section on. */
  lemma SlowPathSteps(s: State, t: nat, ok: bool)
    requires Inv(s) && !s.aborted && s.PcOf(t).Missed? && |s.CacheOf(t)| == CACHE_SIZE
    ensures Inv(Next(s, Lookup(t)))
    ensures var pc, s' := s.PcOf(t), Next(Next(s, Lookup(t)), Finish(t, ok));
      var sh' := Locate(s.shared, pc.key);
      && pc.key in sh'.arenas && sh'.arenas[pc.key] < |sh'.heap|
      && var arena := sh'.arenas[pc.key];
         Leaves(s', t, if pc.needed > sh'.heap[arena].capacity && !ok then Outcome(sh', s.CacheOf(t), None)
                       else Outcome(Grow(sh', arena, pc.needed), Insert(s.CacheOf(t), Entry(pc.key, arena)), Some(arena)))
  {
    NextKeeps(s, Lookup(t));
    LocateKeeps(s.shared, s.PcOf(t).key);
    var s1 := Next(s, Lookup(t));
    assert s1 == DoLookup(s, t) && s1.CacheOf(t) == s.CacheOf(t) && !s1.aborted;
    assert s1.shared == Locate(s.shared, s.PcOf(t).key);
    assert s1.PcOf(t) == Located(s.PcOf(t).key, s.PcOf(t).needed, s1.shared.arenas[s.PcOf(t).key]);
    assert s1.shared.arenas[s.PcOf(t).key] < |s1.shared.heap|;
    hide *;
    FinishLeaves(s1, t, ok);
  }

  lemma EnsureMiss(s: State, t: nat, key: Key, needed: nat, ok: bool)
    requires Inv(s) && !s.aborted && s.PcOf(t).Idle? && !s.capturing
    requires CacheInside(s.CacheOf(t), s.shared.heap) && |s.CacheOf(t)| == CACHE_SIZE
    requires Scan(s.CacheOf(t), s.shared.heap, key, needed) == None
    ensures Inv(Next(s, Call(t, key, needed))) && Inv(Next(Next(s, Call(t, key, needed)), Lookup(t)))
    ensures Leaves(Next(Next(Next(s, Call(t, key, needed)), Lookup(t)), Finish(t, ok)), t,
                   EnsureAlone(s.shared, s.CacheOf(t), s.capturing, key, needed, ok))
  {
    NextKeeps(s, Call(t, key, needed));
    var s1 := Next(s, Call(t, key, needed));
    assert s1 == s.(pcs := s.pcs[t := Missed(key, needed)]);
    assert s1.PcOf(t) == Missed(key, needed) && s1.CacheOf(t) == s.CacheOf(t) && s1.shared == s.shared && !s1.aborted;
    hide Inv, SharedInv, Next, Grow, Insert, Locate, Leaves, Scan, CacheInside, Extends;
    SlowPathSteps(s1, t, ok);
  }

  lemma EnsureNoMiss(s: State, t: nat, key: Key, needed: nat, ok: bool)
    requires Inv(s) && !s.aborted && s.PcOf(t).Idle?
    requires CacheInside(s.CacheOf(t), s.shared.heap) && |s.CacheOf(t)| == CACHE_SIZE
    requires Scan(s.CacheOf(t), s.shared.heap, key, needed).Some? || s.capturing
    ensures Inv(Next(s, Call(t, key, needed))) && Inv(Next(Next(s, Call(t, key, needed)), Lookup(t)))
    ensures Leaves(Next(Next(Next(s, Call(t, key, needed)), Lookup(t)), Finish(t, ok)), t,
                   EnsureAlone(s.shared, s.CacheOf(t), s.capturing, key, needed, ok))
  {
    NextKeeps(s, Call(t, key, needed));
    var s1 := Next(s, Call(t, key, needed));
    assert s1 == DoCall(s, t, key, needed) && s1.PcOf(t).Idle?;
    hide SharedInv, CachesOwned, GrantsHold, PcsOwned, Scan, Grow, Insert, Locate, DoLookup, DoFinish, Extends;
    assert Next(s1, Lookup(t)) == s1;
  }

  /** That is the run of the thread's three sections with no other thread in between. */
  lemma EnsureIsThreeSections(s: State, t: nat, key: Key, needed: nat, ok: bool)
    requires Inv(s) && !s.aborted && s.PcOf(t).Idle?
    ensures CacheInside(s.CacheOf(t), s.shared.heap) && |s.CacheOf(t)| == CACHE_SIZE
    ensures Leaves(Run(s, [Call(t, key, needed), Lookup(t), Finish(t, ok)]), t,
                   EnsureAlone(s.shared, s.CacheOf(t), s.capturing, key, needed, ok))
  {
    CachesInside(s, t);
    CacheStep(s, SetCapture(s.capturing), t);
    if Scan(s.CacheOf(t), s.shared.heap, key, needed) == None && !s.capturing {
      EnsureMiss(s, t, key, needed, ok);
    } else {
      EnsureNoMiss(s, t, key, needed, ok);
    }
    var e0, e1, e2 := Call(t, key, needed), Lookup(t), Finish(t, ok);
    hide Inv, Next, Leaves, EnsureAlone, Scan, CacheInside;
    RunTwo(Next(s, e0), e1, e2);
    assert [e0, e1, e2][1..] == [e1, e2];
  }
}
