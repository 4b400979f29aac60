/** `Operator::Call`: a cache of operators per thread, emptied lazily when the thread notices that
    the global generation counter has moved. A call is four steps, each with one access to shared
    state: reading the counter, reading it again to adopt it, the lookup, and the construction on a
    miss; `clear_cache` by any thread may come in between. A key stands for the arguments with their
    data pointers forgotten; `CacheKeys` says when key equality means that. */
module OperatorCache {
  import CacheKeys

  type Key = seq<CacheKeys.Arg>

  /** An operator, with the key of the arguments it was built from and the counter's value when its
      construction began. */
  datatype Instance = Instance(id: nat, key: Key, builtAt: nat)

  /** A thread inside `Call`: `seen` is the counter value the call read first. */
  datatype Pc = Idle | Adopting(key: Key, seen: nat) | Finding(key: Key, seen: nat) | Making(key: Key, seen: nat, begun: nat)

  datatype Thread = Thread(generation: nat, cache: map<Key, Instance>, pc: Pc)

  /** One use of an operator by a call. */
  datatype Use = Use(thread: nat, key: Key, seen: nat, op: Instance)

  datatype State = State(counter: nat, threads: map<nat, Thread>, nextId: nat, uses: seq<Use>) {
    function ThreadOf(t: nat): Thread {
      if t in threads then threads[t] else Thread(0, map[], Idle)
    }
  }

  datatype Event = Begin(thread: nat, key: Key) | Step(thread: nat) | Clear

  // ---------------------------------------------------------------------------
  // The steps
  // ---------------------------------------------------------------------------

  /** The comparison with the counter, and the clearing. */
  function Check(th: Thread, key: Key, counter: nat): Thread {
    if th.generation != counter then Thread(th.generation, map[], Adopting(key, counter))
    else th.(pc := Finding(key, counter))
  }

  /** The rest of a call: adopting the counter, the lookup, the construction. */
  function StepThread(s: State, t: nat): State {
    var th := s.ThreadOf(t);
    match th.pc
    case Idle => s
    case Adopting(key, seen) => s.(threads := s.threads[t := Thread(s.counter, th.cache, Finding(key, seen))])
    case Finding(key, seen) =>
      if key in th.cache then
        s.(threads := s.threads[t := th.(pc := Idle)], uses := s.uses + [Use(t, key, seen, th.cache[key])])
      else s.(threads := s.threads[t := th.(pc := Making(key, seen, s.counter))])
    case Making(key, seen, begun) =>
      var op := Instance(s.nextId, key, begun);
      s.(threads := s.threads[t := Thread(th.generation, th.cache[key := op], Idle)],
         nextId := s.nextId + 1, uses := s.uses + [Use(t, key, seen, op)])
  }

  /** One event; one that is not possible in the state changes nothing. */
  function Next(s: State, e: Event): State {
    match e
    case Begin(t, key) =>
      if s.ThreadOf(t).pc.Idle? then s.(threads := s.threads[t := Check(s.ThreadOf(t), key, s.counter)]) else s
    case Step(t) => StepThread(s, t)
    case Clear => s.(counter := s.counter + 1)
  }

  function Run(s: State, events: seq<Event>): State
    decreases |events|
  {
    if events == [] then s else Run(Next(s, events[0]), events[1..])
  }

  function Start(): State {
    State(0, map[], 0, [])
  }

  // ---------------------------------------------------------------------------
  // The invariant
  // ---------------------------------------------------------------------------

  /** A thread's own invariant: cached operators are not older than its generation, carry the key they
      are stored under, and the values a call has read are in order. */
  ghost predicate ThreadOk(th: Thread, counter: nat, nextId: nat) {
    && th.generation <= counter
    && (forall k :: k in th.cache ==>
          th.cache[k].key == k && th.generation <= th.cache[k].builtAt <= counter && th.cache[k].id < nextId)
    && match th.pc
       case Idle => true
       case Adopting(_, seen) => th.cache == map[] && th.generation < seen <= counter
       case Finding(_, seen) => seen <= th.generation
       case Making(key, seen, begun) => key !in th.cache && seen <= th.generation <= begun <= counter
  }

  /** What holds between a past use and its thread now: while the thread is still in the generation the
      use read, its cache leads to the operator used; a call that read an older value than it adopted
      comes after all uses that read that value. */
  ghost predicate UseOk(u: Use, th: Thread, nextId: nat) {
    && u.op.key == u.key && u.seen <= u.op.builtAt && u.op.id < nextId
    && u.seen <= th.generation
    && (u.seen == th.generation && !th.pc.Adopting? ==> u.key in th.cache && th.cache[u.key] == u.op)
    && ((th.pc.Finding? || th.pc.Making?) && th.pc.seen < th.generation ==> u.seen < th.pc.seen)
  }

  /** Two uses of a key by a thread that read the same counter value are of one instance. */
  ghost predicate SameInstance(u: Use, v: Use) {
    u.thread == v.thread && u.key == v.key && u.seen == v.seen ==> u.op == v.op
  }

  ghost predicate Inv(s: State) {
    && (forall t :: t in s.threads ==> ThreadOk(s.threads[t], s.counter, s.nextId))
    && (forall u :: u in s.uses ==> u.thread in s.threads && UseOk(u, s.threads[u.thread], s.nextId))
    && (forall u, v :: u in s.uses && v in s.uses ==> SameInstance(u, v))
  }

  /** The event of a thread leaves the others alone, and changes its own state and the uses so that the
      invariant survives. */
  lemma ThreadMoves(s: State, t: nat, th: Thread, nextId: nat)
    requires Inv(s) && nextId >= s.nextId && ThreadOk(th, s.counter, nextId)
    requires forall u :: u in s.uses && u.thread == t ==> UseOk(u, th, nextId)
    ensures Inv(s.(threads := s.threads[t := th], nextId := nextId))
  {
  }

  /** Recording a use of the operator the thread's cache now holds for the key. */
  lemma UseRecorded(s: State, u: Use)
    requires Inv(s) && u.thread in s.threads && UseOk(u, s.threads[u.thread], s.nextId)
    requires forall v :: v in s.uses ==> SameInstance(u, v)
    ensures Inv(s.(uses := s.uses + [u]))
  {
    var s' := s.(uses := s.uses + [u]);
    hide UseOk, ThreadOk;
    forall v, w | v in s'.uses && w in s'.uses ensures SameInstance(v, w) {
    }
  }

  lemma ThreadOfOk(s: State, t: nat)
    requires Inv(s)
    ensures ThreadOk(s.ThreadOf(t), s.counter, s.nextId)
    ensures forall u :: u in s.uses && u.thread == t ==> UseOk(u, s.ThreadOf(t), s.nextId)
  {
  }

  lemma BeginKeeps(s: State, t: nat, key: Key)
    requires Inv(s) && s.ThreadOf(t).pc.Idle?
    ensures Inv(Next(s, Begin(t, key)))
  {
    ThreadOfOk(s, t);
    var th := Check(s.ThreadOf(t), key, s.counter);
    assert ThreadOk(th, s.counter, s.nextId);
    assert forall u :: u in s.uses && u.thread == t ==> UseOk(u, th, s.nextId);
    ThreadMoves(s, t, th, s.nextId);
  }

  lemma AdoptKeeps(s: State, t: nat)
    requires Inv(s) && s.ThreadOf(t).pc.Adopting?
    ensures Inv(StepThread(s, t))
  {
    ThreadOfOk(s, t);
    var th := s.ThreadOf(t);
    var th' := Thread(s.counter, th.cache, Finding(th.pc.key, th.pc.seen));
    assert ThreadOk(th', s.counter, s.nextId);
    assert forall u :: u in s.uses && u.thread == t ==> UseOk(u, th', s.nextId);
    ThreadMoves(s, t, th', s.nextId);
  }

  lemma FindKeeps(s: State, t: nat)
    requires Inv(s) && s.ThreadOf(t).pc.Finding?
    ensures Inv(StepThread(s, t))
  {
    ThreadOfOk(s, t);
    var th := s.ThreadOf(t);
    var key, seen := th.pc.key, th.pc.seen;
    if key in th.cache {
      var th', u := th.(pc := Idle), Use(t, key, seen, th.cache[key]);
      assert ThreadOk(th', s.counter, s.nextId) && UseOk(u, th', s.nextId);
      assert forall v :: v in s.uses && v.thread == t ==> UseOk(v, th', s.nextId);
      ThreadMoves(s, t, th', s.nextId);
      assert forall v :: v in s.uses ==> SameInstance(u, v);
      UseRecorded(s.(threads := s.threads[t := th']), u);
    } else {
      var th' := th.(pc := Making(key, seen, s.counter));
      assert ThreadOk(th', s.counter, s.nextId);
      assert forall v :: v in s.uses && v.thread == t ==> UseOk(v, th', s.nextId);
      ThreadMoves(s, t, th', s.nextId);
    }
  }

  lemma MakeKeeps(s: State, t: nat)
    requires Inv(s) && s.ThreadOf(t).pc.Making?
    ensures Inv(StepThread(s, t))
  {
    ThreadOfOk(s, t);
    var th := s.ThreadOf(t);
    var key, seen := th.pc.key, th.pc.seen;
    var op := Instance(s.nextId, key, th.pc.begun);
    var th', u := Thread(th.generation, th.cache[key := op], Idle), Use(t, key, seen, op);
    assert ThreadOk(th', s.counter, s.nextId + 1) && UseOk(u, th', s.nextId + 1);
    assert forall v :: v in s.uses && v.thread == t ==> UseOk(v, th', s.nextId + 1);
    ThreadMoves(s, t, th', s.nextId + 1);
    assert forall v :: v in s.uses ==> SameInstance(u, v);
    UseRecorded(s.(threads := s.threads[t := th'], nextId := s.nextId + 1), u);
  }

  lemma NextKeeps(s: State, e: Event)
    requires Inv(s)
    ensures Inv(Next(s, e))
  {
    if e.Begin? {
      if s.ThreadOf(e.thread).pc.Idle? {
        BeginKeeps(s, e.thread, e.key);
      }
    } else if e.Step? {
      StepKeeps(s, e.thread);
    } else {
      ClearKeeps(s);
    }
    hide Inv, StepThread, Check;
  }

  lemma ClearKeeps(s: State)
    requires Inv(s)
    ensures Inv(Next(s, Clear))
  {
  }

  lemma StepKeeps(s: State, t: nat)
    requires Inv(s)
    ensures Inv(StepThread(s, t))
  {
    hide Inv;
    match s.ThreadOf(t).pc
    case Idle =>
    case Adopting(_, _) => AdoptKeeps(s, t);
    case Finding(_, _) => FindKeeps(s, t);
    case Making(_, _, _) => MakeKeeps(s, t);
  }

  lemma {:induction false} RunKeeps(s: State, events: seq<Event>)
    requires Inv(s)
    ensures Inv(Run(s, events))
    decreases |events|
  {
    if events != [] {
      hide Inv, Next;
      NextKeeps(s, events[0]);
      RunKeeps(Next(s, events[0]), events[1..]);
    }
  }

  // ---------------------------------------------------------------------------
  // Properties of every run
  // ---------------------------------------------------------------------------

  /** Every operator a call uses was built from arguments with the call's key, and its construction
      began after the counter reached the value the call read: nothing built before a clear that the
      call observed is used. */
  lemma NothingStaleIsUsed(events: seq<Event>)
    ensures forall u :: u in Run(Start(), events).uses ==> u.op.key == u.key && u.seen <= u.op.builtAt
  {
    RunKeeps(Start(), events);
    hide Run;
  }

  /** Between clears the calls of a thread with one key share one instance. */
  lemma OneInstancePerKey(events: seq<Event>)
    ensures forall u, v :: u in Run(Start(), events).uses && v in Run(Start(), events).uses ==> SameInstance(u, v)
  {
    RunKeeps(Start(), events);
    hide Run;
  }

  /** Since a state with counter `counter` and `count` operators: the thread's calls in progress began
      after a clear, and the thread's operators from before it are no newer than it. */
  ghost predicate Since(s: State, t: nat, counter: nat, count: nat, base: nat) {
    && s.counter > counter && s.nextId >= count && |s.uses| >= base
    && (!s.ThreadOf(t).pc.Idle? ==> s.ThreadOf(t).pc.seen > counter)
    && (forall k :: k in s.ThreadOf(t).cache && s.ThreadOf(t).cache[k].id < count ==>
          s.ThreadOf(t).cache[k].builtAt <= counter)
    && (forall i :: base <= i < |s.uses| && s.uses[i].thread == t ==> s.uses[i].op.id >= count)
  }

  lemma SinceStep(s: State, e: Event, t: nat, counter: nat, count: nat, base: nat)
    requires Inv(s) && Since(s, t, counter, count, base)
    ensures Since(Next(s, e), t, counter, count, base)
  {
    ThreadOfOk(s, t);
    hide Inv;
  }

  lemma {:induction false} SinceRun(s: State, events: seq<Event>, t: nat, counter: nat, count: nat, base: nat)
    requires Inv(s) && Since(s, t, counter, count, base)
    ensures Since(Run(s, events), t, counter, count, base)
    decreases |events|
  {
    if events != [] {
      hide Inv, Next, Since;
      NextKeeps(s, events[0]);
      SinceStep(s, events[0], t, counter, count, base);
      SinceRun(Next(s, events[0]), events[1..], t, counter, count, base);
    }
  }

  /** A clear takes effect: a thread outside `Call` when the cache is cleared never again uses an
      operator that existed then, whatever the other threads do. */
  lemma ClearTakesEffect(before: seq<Event>, t: nat, after: seq<Event>)
    requires Run(Start(), before).ThreadOf(t).pc.Idle?
    ensures var s := Run(Start(), before);
      var s' := Run(Next(s, Clear), after);
      |s.uses| <= |s'.uses|
      && forall i :: |s.uses| <= i < |s'.uses| && s'.uses[i].thread == t ==> s'.uses[i].op.id >= s.nextId
  {
    var s := Run(Start(), before);
    RunKeeps(Start(), before);
    ThreadOfOk(s, t);
    NextKeeps(s, Clear);
    hide Run, Inv;
    assert Since(Next(s, Clear), t, s.counter, s.nextId, |s.uses|);
    SinceRun(Next(s, Clear), after, t, s.counter, s.nextId, |s.uses|);
  }

  // ---------------------------------------------------------------------------
  // One call at a time
  // ---------------------------------------------------------------------------

  /** `Call` without interruption: the thread after it, the operator used, and the number of operators
      built so far. */
  function CallAlone(th: Thread, key: Key, counter: nat, built: nat): (Thread, Instance, nat) {
    var cache := if th.generation != counter then map[] else th.cache;
    if key in cache then (Thread(counter, cache, Idle), cache[key], built)
    else
      var op := Instance(built, key, counter);
      (Thread(counter, cache[key := op], Idle), op, built + 1)
  }

  /** That is the run of the call's steps with nothing in between. */
  lemma CallIsItsSteps(s: State, t: nat, key: Key)
    requires Inv(s) && s.ThreadOf(t).pc.Idle?
    ensures var s' := Run(s, [Begin(t, key), Step(t), Step(t), Step(t)]);
      var (th, op, built) := CallAlone(s.ThreadOf(t), key, s.counter, s.nextId);
      && s'.ThreadOf(t) == th && s'.uses == s.uses + [Use(t, key, s.counter, op)]
      && s'.counter == s.counter && s'.nextId == built
  {
    ThreadOfOk(s, t);
    hide Inv;
    var e, f := Begin(t, key), Step(t);
    var s1 := Next(s, e);
    var s2 := StepThread(s1, t);
    var s3 := StepThread(s2, t);
    RunThree(s1, t);
    assert [e, f, f, f][1..] == [f, f, f];
  }

  lemma RunThree(s: State, t: nat)
    ensures Run(s, [Step(t), Step(t), Step(t)]) == StepThread(StepThread(StepThread(s, t), t), t)
  {
    hide StepThread;
    var f: Event := Step(t);
    var s1 := StepThread(s, t);
    var s2 := StepThread(s1, t);
    assert [f, f, f][1..] == [f, f] && [f, f][1..] == [f] && [f][1..] == [];
    assert Run(StepThread(s2, t), []) == StepThread(s2, t);
    assert Run(s2, [f]) == StepThread(s2, t);
    assert Run(s1, [f, f]) == Run(s2, [f]);
  }

  /** The static counter of an operator type, and the number of operators built so far. */
  class OperatorType {
    var cacheGeneration: nat
    var built: nat

    constructor ()
      ensures cacheGeneration == 0 && built == 0
    {
      cacheGeneration, built := 0, 0;
    }

    /** The counters are those of the state. */
    ghost predicate Reflects(s: State)
      reads this
    {
      cacheGeneration == s.counter && built == s.nextId
    }

    /** `clear_cache` is the event of that name. */
    method ClearCache(ghost s: State)
      requires Reflects(s)
      modifies this`cacheGeneration
      ensures Reflects(Next(s, Clear))
    {
      cacheGeneration := cacheGeneration + 1;
    }
  }

  /** The thread-local variables of `Call`. */
  class ThreadLocal {
    var generation: nat
    var cache: map<Key, Instance>

    constructor ()
      ensures Value() == Thread(0, map[], Idle)
    {
      generation, cache := 0, map[];
    }

    ghost function Value(): Thread
      reads this
    {
      Thread(generation, cache, Idle)
    }

    method Call(operators: OperatorType, key: Key) returns (op: Instance)
      modifies this, operators`built
      ensures (Value(), op, operators.built)
           == CallAlone(old(Value()), key, operators.cacheGeneration, old(operators.built))
    {
      if generation != operators.cacheGeneration {
        cache := map[];
        generation := operators.cacheGeneration;
      }
      if key !in cache {
        cache := cache[key := Instance(operators.built, key, operators.cacheGeneration)];
        operators.built := operators.built + 1;
      }
      op := cache[key];
    }
  }
}
