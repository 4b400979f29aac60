/** The growth of an arena, step by step: under the arena's mutex the old buffer is freed, a new one is
    allocated, and the capacity is stored. The scan of a thread's cache takes no mutex and may come in
    between. The capture check is that of `WorkspacePool` and is left out here. */
module PoolGrowth {
  import opened Options
  import opened WorkspacePool

  /** How far the thread that holds the mutex has come. */
  datatype Stage = Checked | Freed | Allocated

  /** A growth under way: who is at it, for which request. */
  datatype Growth = Growth(thread: nat, key: Key, needed: nat, stage: Stage)

  /** The shared state; `growth` holds the arenas whose mutex is held for a growth. */
  datatype Fine = Fine(shared: Shared, growth: map<nat, Growth>)

  // ---------------------------------------------------------------------------
  // The steps of the arena section
  // ---------------------------------------------------------------------------

  function At(f: Fine, a: nat, stage: Stage): map<nat, Growth>
    requires a in f.growth
  {
    f.growth[a := f.growth[a].(stage := stage)]
  }

  function FreeOld(f: Fine, a: nat): Fine
    requires a < |f.shared.heap| && a in f.growth
  {
    var arena := f.shared.heap[a];
    if arena.capacity > 0 && arena.buf.Some? then
      Fine(f.shared.(live := f.shared.live - {arena.buf.value}, freed := f.shared.freed + [arena.buf.value]), At(f, a, Freed))
    else f.(growth := At(f, a, Freed))
  }

  function AllocateNew(f: Fine, a: nat): Fine
    requires a < |f.shared.heap| && a in f.growth
  {
    Fine(f.shared.(heap := f.shared.heap[a := f.shared.heap[a].(buf := Some(f.shared.next))],
                   live := f.shared.live + {f.shared.next}, next := f.shared.next + 1),
         At(f, a, Allocated))
  }

  function StoreCapacity(f: Fine, a: nat): Fine
    requires a < |f.shared.heap| && a in f.growth
  {
    Fine(f.shared.(heap := f.shared.heap[a := f.shared.heap[a].(capacity := f.growth[a].needed)]), f.growth - {a})
  }

  /** With nothing in between they are the arena section of `WorkspacePool`. */
  lemma GrowIsItsSteps(f: Fine, a: nat)
    requires a < |f.shared.heap| && a in f.growth && f.growth[a].needed > f.shared.heap[a].capacity
    ensures StoreCapacity(AllocateNew(FreeOld(f, a), a), a)
            == Fine(Grow(f.shared, a, f.growth[a].needed), f.growth - {a})
  {
  }

  // ---------------------------------------------------------------------------
  // What the steps keep
  // ---------------------------------------------------------------------------

  /** The arena's buffer is allocated: it has one, and is not between the free and the allocation. */
  predicate Owning(arena: Arena, a: nat, growth: map<nat, Growth>) {
    if a in growth && !growth[a].stage.Checked? then growth[a].stage.Allocated? else arena.capacity > 0
  }

  /** What every arena holds: its buffer, if that is allocated. */
  function Held(heap: seq<Arena>, growth: map<nat, Growth>): (held: seq<Option<nat>>)
    ensures |held| == |heap|
  {
    seq(|heap|, a requires 0 <= a < |heap| => if Owning(heap[a], a, growth) then heap[a].buf else None)
  }

  predicate HeldBy(held: seq<Option<nat>>, b: nat) {
    exists a :: 0 <= a < |held| && held[a] == Some(b)
  }

  /** Live buffers are exactly the held ones, each held once. */
  predicate HeldExactly(held: seq<Option<nat>>, live: set<nat>) {
    && (forall a :: 0 <= a < |held| && held[a].Some? ==> held[a].value in live)
    && (forall a, a' :: 0 <= a < a' < |held| && held[a].Some? ==> held[a] != held[a'])
    && (forall b :: b in live ==> HeldBy(held, b))
  }

  lemma HeldDropped(held: seq<Option<nat>>, live: set<nat>, a: nat)
    requires HeldExactly(held, live) && a < |held| && held[a].Some?
    ensures held[a].value in live && HeldExactly(held[a := None], live - {held[a].value})
  {
    forall b | b in live && b != held[a].value ensures HeldBy(held[a := None], b) {
      assert HeldBy(held, b);
      var i :| 0 <= i < |held| && held[i] == Some(b);
      assert held[a := None][i] == Some(b);
    }
  }

  lemma HeldTaken(held: seq<Option<nat>>, live: set<nat>, a: nat, b: nat)
    requires HeldExactly(held, live) && a < |held| && held[a] == None && b !in live
    ensures HeldExactly(held[a := Some(b)], live + {b})
  {
    var held' := held[a := Some(b)];
    assert held'[a] == Some(b);
    forall x | x in live ensures HeldBy(held', x) {
      assert HeldBy(held, x);
      var i :| 0 <= i < |held| && held[i] == Some(x);
      assert held'[i] == Some(x);
    }
  }

  lemma HeldAppended(held: seq<Option<nat>>, live: set<nat>)
    requires HeldExactly(held, live)
    ensures HeldExactly(held + [None], live)
  {
    forall b | b in live ensures HeldBy(held + [None], b) {
      assert HeldBy(held, b);
      var i :| 0 <= i < |held| && held[i] == Some(b);
      assert (held + [None])[i] == Some(b);
    }
  }

  /** Owning arenas show a buffer; between the free and the allocation an arena still shows the buffer it
      had, which is freed. */
  predicate Shown(heap: seq<Arena>, growth: map<nat, Growth>, freed: seq<nat>) {
    forall a :: 0 <= a < |heap| ==>
      && (Owning(heap[a], a, growth) ==> heap[a].buf.Some?)
      && (a in growth && growth[a].stage.Freed? && heap[a].capacity > 0 ==> heap[a].buf.Some? && heap[a].buf.value in freed)
  }

  /** Every growth is one of an existing arena, for a key that has it, and for a positive size. */
  predicate GrowthsOwned(f: Fine) {
    forall a :: a in f.growth ==>
      a < |f.shared.heap| && f.growth[a].needed > 0 && EntryOwned(f.shared, Entry(f.growth[a].key, a))
  }

  ghost predicate FineInv(f: Fine) {
    && OwnsAll(f.shared) && Conserved(f.shared) && GrowthsOwned(f)
    && HeldExactly(Held(f.shared.heap, f.growth), f.shared.live) && Shown(f.shared.heap, f.growth, f.shared.freed)
  }

  /** Between growths the invariant is that of the coarse machine. */
  lemma NoGrowthIsCoarse(f: Fine)
    requires FineInv(f) && f.growth == map[]
    ensures SharedInv(f.shared)
  {
    var held, heap := Held(f.shared.heap, f.growth), f.shared.heap;
    assert forall a :: 0 <= a < |heap| && heap[a].capacity > 0 ==> held[a] == heap[a].buf && held[a].Some?;
    forall b | b in f.shared.live ensures HasHolder(heap, b) {
      assert HeldBy(held, b);
      var a :| 0 <= a < |held| && held[a] == Some(b);
      assert Holds(heap[a], b);
    }
    hide OwnsAll, Conserved, GrowthsOwned, HeldBy;
  }

  lemma LocateKeepsFine(f: Fine, key: Key)
    requires FineInv(f)
    ensures FineInv(Fine(Locate(f.shared, key), f.growth)) && key in Locate(f.shared, key).arenas
  {
    hide HeldExactly, Conserved, HeldBy;
    if key !in f.shared.arenas {
      HeldAppended(Held(f.shared.heap, f.growth), f.shared.live);
      assert Held(f.shared.heap + [Arena(key, None, 0)], f.growth) == Held(f.shared.heap, f.growth) + [None];
      ConservedFrame(f.shared, Locate(f.shared, key));
    }
  }

  lemma ConservedFrame(sh: Shared, sh': Shared)
    requires Conserved(sh) && sh'.live == sh.live && sh'.freed == sh.freed && sh'.next == sh.next
    ensures Conserved(sh')
  {
  }

  lemma OwnsAllFrame(sh: Shared, sh': Shared)
    requires OwnsAll(sh) && sh'.arenas == sh.arenas && |sh'.heap| == |sh.heap|
    requires forall a :: 0 <= a < |sh.heap| ==> sh'.heap[a].owner == sh.heap[a].owner
    ensures OwnsAll(sh')
  {
  }

  lemma GrowthsFrame(f: Fine, f': Fine)
    requires GrowthsOwned(f) && f'.shared.arenas == f.shared.arenas && |f'.shared.heap| == |f.shared.heap|
    requires forall a :: a in f'.growth ==>
               a in f.growth && f'.growth[a].key == f.growth[a].key && f'.growth[a].needed == f.growth[a].needed
    ensures GrowthsOwned(f')
  {
  }

  lemma BeginKeepsFine(f: Fine, a: nat, g: Growth)
    requires FineInv(f) && a < |f.shared.heap| && a !in f.growth
    requires g.stage.Checked? && g.needed > 0 && EntryOwned(f.shared, Entry(g.key, a))
    ensures FineInv(f.(growth := f.growth[a := g]))
  {
    hide HeldExactly, Conserved, OwnsAll, HeldBy;
    assert Held(f.shared.heap, f.growth[a := g]) == Held(f.shared.heap, f.growth);
  }

  lemma FreedOnce(sh: Shared, b: nat)
    requires Conserved(sh) && b in sh.live
    ensures Conserved(sh.(live := sh.live - {b}, freed := sh.freed + [b]))
  {
  }

  lemma HeldWhileFreeing(f: Fine, a: nat)
    requires a < |f.shared.heap| && a in f.growth && f.growth[a].stage.Checked?
    ensures var held := Held(f.shared.heap, f.growth);
      && Held(f.shared.heap, At(f, a, Freed)) == held[a := None]
      && held[a] == if f.shared.heap[a].capacity > 0 then f.shared.heap[a].buf else None
  {
  }

  lemma ShownWhileFreeing(f: Fine, a: nat, freed: seq<nat>)
    requires a < |f.shared.heap| && a in f.growth && f.growth[a].stage.Checked? && f.shared.freed <= freed
    requires Shown(f.shared.heap, f.growth, f.shared.freed)
    requires f.shared.heap[a].capacity > 0 && f.shared.heap[a].buf.Some? ==> f.shared.heap[a].buf.value in freed
    ensures Shown(f.shared.heap, At(f, a, Freed), freed)
    ensures f.shared.heap[a].capacity > 0 ==> f.shared.heap[a].buf.Some?
  {
    assert forall b :: b in f.shared.freed ==> b in freed;
  }

  lemma FreeKeepsFine(f: Fine, a: nat)
    requires FineInv(f) && a < |f.shared.heap| && a in f.growth && f.growth[a].stage.Checked?
    ensures FineInv(FreeOld(f, a))
  {
    hide HeldExactly, Conserved, OwnsAll, Held, Shown, GrowthsOwned;
    var f' := FreeOld(f, a);
    var heap, held := f.shared.heap, Held(f.shared.heap, f.growth);
    HeldWhileFreeing(f, a);
    ShownWhileFreeing(f, a, f'.shared.freed);
    OwnsAllFrame(f.shared, f'.shared);
    GrowthsFrame(f, f');
    if heap[a].capacity > 0 {
      HeldDropped(held, f.shared.live, a);
      FreedOnce(f.shared, heap[a].buf.value);
    } else {
      assert held[a := None] == held;
    }
  }

  lemma AllocatedOnce(sh: Shared, heap': seq<Arena>)
    requires Conserved(sh)
    ensures sh.next !in sh.live && sh.next !in sh.freed
    ensures Conserved(sh.(heap := heap', live := sh.live + {sh.next}, next := sh.next + 1))
  {
  }

  lemma HeldWhileAllocating(f: Fine, a: nat)
    requires a < |f.shared.heap| && a in f.growth && f.growth[a].stage.Freed?
    requires Shown(f.shared.heap, f.growth, f.shared.freed)
    ensures Held(f.shared.heap, f.growth)[a] == None
    ensures Held(AllocateNew(f, a).shared.heap, At(f, a, Allocated)) == Held(f.shared.heap, f.growth)[a := Some(f.shared.next)]
    ensures Shown(AllocateNew(f, a).shared.heap, At(f, a, Allocated), f.shared.freed)
  {
  }

  lemma AllocateKeepsFine(f: Fine, a: nat)
    requires FineInv(f) && a < |f.shared.heap| && a in f.growth && f.growth[a].stage.Freed?
    ensures FineInv(AllocateNew(f, a))
  {
    hide HeldExactly, Conserved, OwnsAll, Held, Shown, GrowthsOwned;
    var f' := AllocateNew(f, a);
    HeldWhileAllocating(f, a);
    AllocatedOnce(f.shared, f'.shared.heap);
    HeldTaken(Held(f.shared.heap, f.growth), f.shared.live, a, f.shared.next);
    OwnsAllFrame(f.shared, f'.shared);
    GrowthsFrame(f, f');
  }

  lemma HeldWhileStoring(f: Fine, a: nat)
    requires a < |f.shared.heap| && a in f.growth && f.growth[a].stage.Allocated? && f.growth[a].needed > 0
    requires Shown(f.shared.heap, f.growth, f.shared.freed)
    ensures Held(StoreCapacity(f, a).shared.heap, f.growth - {a}) == Held(f.shared.heap, f.growth)
    ensures Shown(StoreCapacity(f, a).shared.heap, f.growth - {a}, f.shared.freed)
  {
  }

  lemma StoreKeepsFine(f: Fine, a: nat)
    requires FineInv(f) && a < |f.shared.heap| && a in f.growth && f.growth[a].stage.Allocated?
    ensures FineInv(StoreCapacity(f, a))
  {
    var f' := StoreCapacity(f, a);
    assert f.growth[a].needed > 0;
    hide HeldExactly, Conserved, OwnsAll, Held, Shown, GrowthsOwned;
    HeldWhileStoring(f, a);
    ConservedFrame(f.shared, f'.shared);
    OwnsAllFrame(f.shared, f'.shared);
    GrowthsFrame(f, f');
  }

  // ---------------------------------------------------------------------------
  // Threads
  // ---------------------------------------------------------------------------

  datatype FineState = FineState(fine: Fine, caches: map<nat, Cache>, pcs: map<nat, Pc>, aborted: bool)

  /** The scan, the map section, the acquisition of the arena's mutex with the test of the capacity, and the
      three steps of a growth, which name the arena whose mutex is held. */
  datatype Step = Enter(thread: nat, key: Key, needed: nat) | Find(thread: nat) | Acquire(thread: nat)
                | Free(arena: nat) | Allocate(arena: nat, ok: bool) | Store(arena: nat)

  ghost predicate StateInv(s: FineState) {
    FineInv(s.fine) && CachesOwned(s.fine.shared, s.caches) && PcsOwned(s.fine.shared, s.pcs)
  }

  const START: FineState := FineState(Fine(INITIAL.shared, map[]), map[], map[], false)

  lemma StartInv()
    ensures StateInv(START)
  {
  }

  /** The arena as the caller of a hit sees it; no mutex is taken. */
  ghost function HitOf(s: FineState, t: nat, key: Key, needed: nat): (hit: Option<nat>)
    requires StateInv(s)
    ensures hit.Some? ==> hit.value < |s.fine.shared.heap| && needed <= s.fine.shared.heap[hit.value].capacity
  {
    CacheReaches(s, t);
    ScanFinds(CacheIn(s.caches, t), s.fine.shared.heap, key, needed);
    Scan(CacheIn(s.caches, t), s.fine.shared.heap, key, needed)
  }

  lemma CacheReaches(s: FineState, t: nat)
    requires StateInv(s)
    ensures CacheInside(CacheIn(s.caches, t), s.fine.shared.heap) && |CacheIn(s.caches, t)| == CACHE_SIZE
  {
    hide HeldExactly, Held, Shown, Conserved, GrowthsOwned;
    assert t in s.caches ==> CacheOwned(s.fine.shared, s.caches[t]);
  }

  /** The thread leaves with the arena, which goes to the front of its cache. */
  function Leave(s: FineState, fine: Fine, t: nat, key: Key, arena: nat): FineState
    requires |CacheIn(s.caches, t)| == CACHE_SIZE
  {
    s.(fine := fine, caches := s.caches[t := Insert(CacheIn(s.caches, t), Entry(key, arena))], pcs := s.pcs[t := Idle])
  }

  ghost function DoEnter(s: FineState, t: nat, key: Key, needed: nat): FineState
    requires StateInv(s)
  {
    if HitOf(s, t, key, needed).Some? then s else s.(pcs := s.pcs[t := Missed(key, needed)])
  }

  ghost function DoFind(s: FineState, t: nat, key: Key, needed: nat): FineState
    requires StateInv(s)
  {
    LocateKeepsFine(s.fine, key);
    var shared' := Locate(s.fine.shared, key);
    s.(fine := s.fine.(shared := shared'), pcs := s.pcs[t := Located(key, needed, shared'.arenas[key])])
  }

  ghost function DoAcquire(s: FineState, t: nat, key: Key, needed: nat, arena: nat): FineState
    requires StateInv(s) && arena < |s.fine.shared.heap|
  {
    CacheReaches(s, t);
    if needed <= s.fine.shared.heap[arena].capacity then Leave(s, s.fine, t, key, arena)
    else s.(fine := s.fine.(growth := s.fine.growth[arena := Growth(t, key, needed, Checked)]))
  }

  ghost function DoStore(s: FineState, a: nat): FineState
    requires StateInv(s) && a in s.fine.growth && a < |s.fine.shared.heap|
  {
    CacheReaches(s, s.fine.growth[a].thread);
    Leave(s, StoreCapacity(s.fine, a), s.fine.growth[a].thread, s.fine.growth[a].key, a)
  }

  /** The arena is in the given stage of a growth. */
  predicate InStage(f: Fine, a: nat, stage: Stage) {
    a < |f.shared.heap| && a in f.growth && f.growth[a].stage == stage
  }

  /** One step; a step that is not possible in the state changes nothing. A thread waits for a mutex that
      is held. */
  ghost function Advance(s: FineState, e: Step): FineState
    requires StateInv(s)
  {
    if s.aborted then s else
    match e
    case Enter(t, key, needed) => if PcIn(s.pcs, t).Idle? then DoEnter(s, t, key, needed) else s
    case Find(t) =>
      var pc := PcIn(s.pcs, t);
      if pc.Missed? then DoFind(s, t, pc.key, pc.needed) else s
    case Acquire(t) =>
      var pc := PcIn(s.pcs, t);
      if pc.Located? && pc.arena < |s.fine.shared.heap| && pc.arena !in s.fine.growth
      then DoAcquire(s, t, pc.key, pc.needed, pc.arena) else s
    case Free(a) => if InStage(s.fine, a, Checked) then s.(fine := FreeOld(s.fine, a)) else s
    case Allocate(a, ok) =>
      if !InStage(s.fine, a, Freed) then s else if ok then s.(fine := AllocateNew(s.fine, a)) else s.(aborted := true)
    case Store(a) => if InStage(s.fine, a, Allocated) then DoStore(s, a) else s
  }

  /** Ownership depends on the map only, and survives its growth. */
  lemma OwnedFrame(sh: Shared, sh': Shared, caches: map<nat, Cache>, pcs: map<nat, Pc>)
    requires CachesOwned(sh, caches) && PcsOwned(sh, pcs)
    requires forall k :: k in sh.arenas ==> k in sh'.arenas && sh'.arenas[k] == sh.arenas[k]
    ensures CachesOwned(sh', caches) && PcsOwned(sh', pcs)
  {
  }

  lemma EnterKeeps(s: FineState, t: nat, key: Key, needed: nat)
    requires StateInv(s)
    ensures StateInv(DoEnter(s, t, key, needed))
  {
    hide FineInv, CachesOwned, EntryOwned, HitOf;
  }

  lemma FindKeeps(s: FineState, t: nat, key: Key, needed: nat)
    requires StateInv(s)
    ensures StateInv(DoFind(s, t, key, needed))
  {
    hide FineInv, CachesOwned;
    LocateKeepsFine(s.fine, key);
    OwnedFrame(s.fine.shared, Locate(s.fine.shared, key), s.caches, s.pcs);
  }

  lemma LeaveKeeps(s: FineState, fine: Fine, t: nat, key: Key, arena: nat)
    requires StateInv(s) && FineInv(fine) && fine.shared.arenas == s.fine.shared.arenas
    requires EntryOwned(s.fine.shared, Entry(key, arena))
    ensures |CacheIn(s.caches, t)| == CACHE_SIZE && StateInv(Leave(s, fine, t, key, arena))
  {
    hide FineInv, CacheOwned, Insert;
    CacheReaches(s, t);
    OwnedFrame(s.fine.shared, fine.shared, s.caches, s.pcs);
    EmptyCacheOwned(fine.shared);
    InsertOwned(fine.shared, CacheIn(s.caches, t), Entry(key, arena));
  }

  lemma EmptyCacheOwned(sh: Shared)
    ensures CacheOwned(sh, EMPTY_CACHE)
  {
  }

  lemma AcquireKeeps(s: FineState, t: nat, key: Key, needed: nat, arena: nat)
    requires StateInv(s) && arena < |s.fine.shared.heap| && arena !in s.fine.growth
    requires EntryOwned(s.fine.shared, Entry(key, arena))
    ensures StateInv(DoAcquire(s, t, key, needed, arena))
  {
    hide FineInv, CachesOwned, PcsOwned, EntryOwned, Leave;
    if needed <= s.fine.shared.heap[arena].capacity {
      LeaveKeeps(s, s.fine, t, key, arena);
    } else {
      BeginKeepsFine(s.fine, arena, Growth(t, key, needed, Checked));
    }
  }

  lemma StoreKeeps(s: FineState, a: nat)
    requires StateInv(s) && InStage(s.fine, a, Allocated)
    ensures StateInv(DoStore(s, a))
  {
    assert EntryOwned(s.fine.shared, Entry(s.fine.growth[a].key, a));
    hide FineInv, CachesOwned, PcsOwned, EntryOwned, Leave, GrowthsOwned;
    StoreKeepsFine(s.fine, a);
    LeaveKeeps(s, StoreCapacity(s.fine, a), s.fine.growth[a].thread, s.fine.growth[a].key, a);
  }

  lemma GrowthStepKeeps(s: FineState, a: nat)
    requires StateInv(s)
    ensures InStage(s.fine, a, Checked) ==> StateInv(s.(fine := FreeOld(s.fine, a)))
    ensures InStage(s.fine, a, Freed) ==> StateInv(s.(fine := AllocateNew(s.fine, a)))
    ensures StateInv(s.(aborted := true))
  {
    hide FineInv, CachesOwned, PcsOwned;
    if InStage(s.fine, a, Checked) {
      FreeKeepsFine(s.fine, a);
      OwnedFrame(s.fine.shared, FreeOld(s.fine, a).shared, s.caches, s.pcs);
    } else if InStage(s.fine, a, Freed) {
      AllocateKeepsFine(s.fine, a);
      OwnedFrame(s.fine.shared, AllocateNew(s.fine, a).shared, s.caches, s.pcs);
    }
  }

  lemma LocatedOwned(s: FineState, t: nat)
    requires StateInv(s) && PcIn(s.pcs, t).Located?
    ensures EntryOwned(s.fine.shared, Entry(PcIn(s.pcs, t).key, PcIn(s.pcs, t).arena))
  {
    hide FineInv, CachesOwned, EntryOwned;
  }

  lemma AdvanceKeeps(s: FineState, e: Step)
    requires StateInv(s)
    ensures StateInv(Advance(s, e))
  {
    hide StateInv, DoEnter, DoFind, DoAcquire, DoStore, FreeOld, AllocateNew, PcIn, EntryOwned;
    match e {
      case Enter(t, key, needed) =>
        EnterKeeps(s, t, key, needed);
      case Find(t) =>
        if PcIn(s.pcs, t).Missed? {
          FindKeeps(s, t, PcIn(s.pcs, t).key, PcIn(s.pcs, t).needed);
        }
      case Acquire(t) =>
        var pc := PcIn(s.pcs, t);
        if pc.Located? && pc.arena < |s.fine.shared.heap| && pc.arena !in s.fine.growth {
          LocatedOwned(s, t);
          AcquireKeeps(s, t, pc.key, pc.needed, pc.arena);
        }
      case Free(a) =>
        GrowthStepKeeps(s, a);
      case Allocate(a, ok) =>
        GrowthStepKeeps(s, a);
      case Store(a) =>
        if InStage(s.fine, a, Allocated) {
          StoreKeeps(s, a);
        }
    }
  }

  /** Any interleaving of the steps of any number of threads. */
  ghost function Proceed(s: FineState, events: seq<Step>): (r: FineState)
    requires StateInv(s)
    ensures StateInv(r)
    decreases |events|
  {
    if events == [] then s
    else
      AdvanceKeeps(s, events[0]);
      Proceed(Advance(s, events[0]), events[1..])
  }

  // ---------------------------------------------------------------------------
  // What a hit may see
  // ---------------------------------------------------------------------------

  predicate LiveBuffer(f: Fine, a: nat) {
    a < |f.shared.heap| && f.shared.heap[a].buf.Some? && f.shared.heap[a].buf.value in f.shared.live
  }

  lemma LiveUnlessFreed(f: Fine, a: nat)
    requires FineInv(f) && a < |f.shared.heap| && f.shared.heap[a].capacity > 0
    ensures LiveBuffer(f, a) <==> !InStage(f, a, Freed)
  {
    hide OwnsAll, GrowthsOwned, HeldBy;
    var held := Held(f.shared.heap, f.growth);
    assert Owning(f.shared.heap[a], a, f.growth) ==> held[a] == f.shared.heap[a].buf;
  }

  /** In every reachable state a hit for a positive size returns an arena whose buffer is allocated if and
      only if no thread has freed that arena's buffer for a growth without having replaced it yet. */
  lemma HitIsLiveExactly(events: seq<Step>, t: nat, key: Key, needed: nat)
    requires needed > 0
    ensures StateInv(START)
    ensures var s := Proceed(START, events);
      HitOf(s, t, key, needed).Some? ==>
        (LiveBuffer(s.fine, HitOf(s, t, key, needed).value) <==> !InStage(s.fine, HitOf(s, t, key, needed).value, Freed))
  {
    hide FineInv, CachesOwned, PcsOwned, Advance, LiveBuffer, InStage;
    StartInv();
    var s := Proceed(START, events);
    var hit := HitOf(s, t, key, needed);
    if hit.Some? {
      LiveUnlessFreed(s.fine, hit.value);
    }
  }

  // ---------------------------------------------------------------------------
  // A hit on a freed buffer
  // ---------------------------------------------------------------------------

  lemma ProceedStep(s: FineState, e: Step, rest: seq<Step>)
    requires StateInv(s)
    ensures StateInv(Advance(s, e)) && Proceed(s, [e] + rest) == Proceed(Advance(s, e), rest)
  {
    hide StateInv, Advance;
    AdvanceKeeps(s, e);
    assert ([e] + rest)[0] == e && ([e] + rest)[1..] == rest;
  }

  lemma ProceedFour(s: FineState, e0: Step, e1: Step, e2: Step, e3: Step)
    requires StateInv(s)
    ensures StateInv(Advance(s, e0)) && StateInv(Advance(Advance(s, e0), e1))
    ensures StateInv(Advance(Advance(Advance(s, e0), e1), e2))
    ensures Proceed(s, [e0, e1, e2, e3]) == Advance(Advance(Advance(Advance(s, e0), e1), e2), e3)
  {
    hide StateInv, Advance;
    assert [e0, e1, e2, e3] == [e0] + ([e1] + ([e2] + ([e3] + [])));
    ProceedStep(s, e0, [e1] + ([e2] + ([e3] + [])));
    var s1 := Advance(s, e0);
    ProceedStep(s1, e1, [e2] + ([e3] + []));
    var s2 := Advance(s1, e1);
    ProceedStep(s2, e2, [e3] + []);
    ProceedStep(Advance(s2, e2), e3, []);
  }

  /** All hits for a key are on its one arena, in any thread. */
  lemma HitIsTheArena(s: FineState, t: nat, key: Key, needed: nat)
    requires StateInv(s)
    ensures HitOf(s, t, key, needed).Some? ==>
      EntryOwned(s.fine.shared, Entry(key, HitOf(s, t, key, needed).value))
  {
    hide FineInv, PcsOwned;
    CacheReaches(s, t);
    ScanFinds(CacheIn(s.caches, t), s.fine.shared.heap, key, needed);
    assert t in s.caches ==> CacheOwned(s.fine.shared, s.caches[t]);
  }

  /** The scan depends on the capacities alone. */
  lemma {:induction false} ScanSeesCapacities(cache: Cache, heap: seq<Arena>, heap': seq<Arena>, key: Key, needed: nat)
    requires CacheInside(cache, heap) && |heap| == |heap'|
    requires forall a :: 0 <= a < |heap| ==> heap[a].capacity == heap'[a].capacity
    ensures Scan(cache, heap, key, needed) == Scan(cache, heap', key, needed)
    decreases |cache|
  {
    if cache != [] {
      ScanSeesCapacities(cache[1..], heap, heap', key, needed);
    }
  }

  /** The slow path of a request the key's arena does not cover, up to the free. */
  lemma GrowthBegins(s: FineState, u: nat, key: Key, needed: nat, a: nat)
    requires StateInv(s) && !s.aborted && PcIn(s.pcs, u).Idle? && a !in s.fine.growth && a < |s.fine.shared.heap|
    requires EntryOwned(s.fine.shared, Entry(key, a)) && needed > s.fine.shared.heap[a].capacity
    ensures var s' := Proceed(s, [Enter(u, key, needed), Find(u), Acquire(u), Free(a)]);
      && s'.caches == s.caches && !s'.aborted && InStage(s'.fine, a, Freed) && s'.fine.shared.heap == s.fine.shared.heap
  {
    hide FineInv, CachesOwned, PcsOwned, EntryOwned, Leave, Proceed, HitOf;
    var e0, e1, e2, e3 := Enter(u, key, needed), Find(u), Acquire(u), Free(a);
    ProceedFour(s, e0, e1, e2, e3);
    HitIsTheArena(s, u, key, needed);
    OneArena(s.fine.shared, key, a);
    var s1 := s.(pcs := s.pcs[u := Missed(key, needed)]);
    assert HitOf(s, u, key, needed).None?;
    assert Advance(s, e0) == s1;
    var s2 := s1.(pcs := s1.pcs[u := Located(key, needed, a)]);
    assert Advance(s1, e1) == s2;
    var s3 := s2.(fine := s2.fine.(growth := s2.fine.growth[a := Growth(u, key, needed, Checked)]));
    assert Advance(s2, e2) == s3;
  }

  lemma OneArena(sh: Shared, key: Key, a: nat)
    requires EntryOwned(sh, Entry(key, a))
    ensures key in sh.arenas && Locate(sh, key) == sh && sh.arenas[key] == a
    ensures forall b: nat :: EntryOwned(sh, Entry(key, b)) ==> b == a
  {
  }

  /** Any hit can be undermined: once another thread's larger request has freed the old buffer, the same scan
      still returns the arena. */
  lemma LargerRequestUndermines(s: FineState, t: nat, u: nat, key: Key, needed: nat, larger: nat)
    requires StateInv(s) && !s.aborted && PcIn(s.pcs, u).Idle? && needed > 0
    requires HitOf(s, t, key, needed).Some? && HitOf(s, t, key, needed).value !in s.fine.growth
    requires larger > s.fine.shared.heap[HitOf(s, t, key, needed).value].capacity
    ensures var a := HitOf(s, t, key, needed).value;
      var s' := Proceed(s, [Enter(u, key, larger), Find(u), Acquire(u), Free(a)]);
      HitOf(s', t, key, needed) == Some(a) && !LiveBuffer(s'.fine, a)
  {
    var a := HitOf(s, t, key, needed).value;
    var s' := Proceed(s, [Enter(u, key, larger), Find(u), Acquire(u), Free(a)]);
    HitIsTheArena(s, t, key, needed);
    GrowthBegins(s, u, key, larger, a);
    CacheReaches(s, t);
    ScanSeesCapacities(CacheIn(s.caches, t), s.fine.shared.heap, s'.fine.shared.heap, key, needed);
    hide FineInv, CachesOwned, PcsOwned, EntryOwned, Proceed, LiveBuffer, Scan;
    LiveUnlessFreed(s'.fine, a);
  }

  /** One arena of one byte, in the front slot of thread 0. */
  function Warmed(key: Key): FineState {
    FineState(Fine(Shared(map[key := 0], [Arena(key, Some(0), 1)], {0}, [], 1), map[]),
              map[0 := [Some(Entry(key, 0)), None, None, None]], map[0 := Idle], false)
  }

  /** The first call of a thread for a key, up to the mutex: nothing is freed, as nothing is there. */
  lemma FirstCallBegins(key: Key)
    ensures StateInv(START) && StateInv(Advance(START, Enter(0, key, 1)))
    ensures Advance(Advance(START, Enter(0, key, 1)), Find(0))
            == START.(fine := Fine(Shared(map[key := 0], [Arena(key, None, 0)], {}, [], 0), map[]),
                      pcs := map[0 := Located(key, 1, 0)])
  {
    StartInv();
    AdvanceKeeps(START, Enter(0, key, 1));
    HitIsTheArena(START, 0, key, 1);
    var s1 := START.(pcs := map[0 := Missed(key, 1)]);
    assert HitOf(START, 0, key, 1).None?;
    assert Advance(START, Enter(0, key, 1)) == s1;
    assert Locate(s1.fine.shared, key) == Shared(map[key := 0], [Arena(key, None, 0)], {}, [], 0);
    assert s1.pcs[0 := Located(key, 1, 0)] == map[0 := Located(key, 1, 0)];
    hide StateInv, HitOf, Locate;
  }

  lemma FirstCallEnds(s: FineState, key: Key)
    requires StateInv(s)
    requires s == START.(fine := Fine(Shared(map[key := 0], [Arena(key, None, 0)], {}, [], 0), map[]),
                         pcs := map[0 := Located(key, 1, 0)])
    ensures Proceed(s, [Acquire(0), Free(0), Allocate(0, true), Store(0)]) == Warmed(key)
  {
    hide StateInv, Proceed;
    ProceedFour(s, Acquire(0), Free(0), Allocate(0, true), Store(0));
    var s3 := s.(fine := s.fine.(growth := map[0 := Growth(0, key, 1, Checked)]));
    assert Advance(s, Acquire(0)) == s3;
    var s4 := s3.(fine := s3.fine.(growth := map[0 := Growth(0, key, 1, Freed)]));
    assert Advance(s3, Free(0)) == s4;
    var s5 := s4.(fine := Fine(Shared(map[key := 0], [Arena(key, Some(0), 0)], {0}, [], 1),
                               map[0 := Growth(0, key, 1, Allocated)]));
    assert Advance(s4, Allocate(0, true)) == s5;
    assert Insert(EMPTY_CACHE, Entry(key, 0)) == [Some(Entry(key, 0)), None, None, None];
    assert s5.fine.growth - {0} == map[];
    assert StoreCapacity(s5.fine, 0) == Warmed(key).fine;
    assert Advance(s5, Store(0)) == Warmed(key);
  }

  lemma WarmUp(key: Key)
    ensures StateInv(START)
    ensures Proceed(START, [Enter(0, key, 1), Find(0), Acquire(0), Free(0), Allocate(0, true), Store(0)]) == Warmed(key)
  {
    hide StateInv, Advance, Proceed, Warmed;
    FirstCallBegins(key);
    var rest := [Acquire(0), Free(0), Allocate(0, true), Store(0)];
    assert [Enter(0, key, 1), Find(0), Acquire(0), Free(0), Allocate(0, true), Store(0)]
        == [Enter(0, key, 1)] + ([Find(0)] + rest);
    ProceedStep(START, Enter(0, key, 1), [Find(0)] + rest);
    ProceedStep(Advance(START, Enter(0, key, 1)), Find(0), rest);
    FirstCallEnds(Advance(Advance(START, Enter(0, key, 1)), Find(0)), key);
  }

  lemma {:induction false} ProceedOn(s: FineState, events: seq<Step>, later: seq<Step>)
    requires StateInv(s)
    ensures Proceed(s, events + later) == Proceed(Proceed(s, events), later)
    decreases |events|
  {
    hide StateInv, Advance;
    if events == [] {
      assert events + later == later;
    } else {
      assert events == [events[0]] + events[1..] && events + later == [events[0]] + (events[1..] + later);
      ProceedStep(s, events[0], events[1..] + later);
      ProceedStep(s, events[0], events[1..]);
      ProceedOn(Advance(s, events[0]), events[1..], later);
    }
  }

  /** So a run of ten steps ends with a hit of thread 0 on a buffer that thread 1 has freed. */
  lemma HitOnFreedBuffer(key: Key) returns (events: seq<Step>)
    ensures StateInv(START)
    ensures var s := Proceed(START, events);
      HitOf(s, 0, key, 1) == Some(0) && s.fine.shared.heap[0].buf == Some(0) && 0 in s.fine.shared.freed
  {
    hide StateInv, Proceed, HitOf, FineInv;
    StartInv();
    var first := [Enter(0, key, 1), Find(0), Acquire(0), Free(0), Allocate(0, true), Store(0)];
    var second := [Enter(1, key, 2), Find(1), Acquire(1), Free(0)];
    events := first + second;
    WarmUp(key);
    ProceedOn(START, first, second);
    WarmHit(key);
    LargerRequestUndermines(Warmed(key), 0, 1, key, 1, 2);
    GrowthBegins(Warmed(key), 1, key, 2, 0);
    StaleBuffer(Proceed(START, events), 0);
  }

  lemma WarmHit(key: Key)
    requires StateInv(Warmed(key))
    ensures HitOf(Warmed(key), 0, key, 1) == Some(0)
  {
  }

  lemma StaleBuffer(s: FineState, a: nat)
    requires StateInv(s) && InStage(s.fine, a, Freed) && s.fine.shared.heap[a].capacity > 0
    ensures s.fine.shared.heap[a].buf.Some? && s.fine.shared.heap[a].buf.value in s.fine.shared.freed
  {
  }
}
