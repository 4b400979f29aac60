/** Deferred cleanups: a cleanup submitted while a scope is open waits in the innermost one, and runs
    when that scope is destroyed; otherwise it runs at once. A cleanup may itself submit cleanups and
    open scopes. A thread's program is a sequence of commands; the machine runs it step by step, and
    `Execute` runs it the way the constructor, the destructor and the calls nest. */
module GraphCleanup {
  import opened Counting
  import opened Layout
  import opened Options

  /** A cleanup, and what it does when run. */
  datatype Callback = Callback(id: nat, body: seq<Cmd>)

  /** `Release(depth)` empties the scope `depth` levels outside the innermost one. */
  datatype Cmd = Submit(callback: Callback) | WithScope(body: seq<Cmd>) | Release(depth: nat)

  /** Scopes are numbered in order of construction. */
  datatype Scope = Scope(id: nat, callbacks: seq<Callback>)

  /** A callback with the scope it was submitted to, if any. */
  datatype Entry = Entry(origin: Option<nat>, callback: Callback)

  /** The open scopes, innermost last, and what has been submitted, run and released so far. */
  datatype Store = Store(live: seq<Scope>, nextId: nat, submitted: seq<Entry>, ran: seq<Entry>, released: seq<Entry>)

  // ---------------------------------------------------------------------------
  // Operations on the scopes
  // ---------------------------------------------------------------------------

  function Enter(st: Store): Store {
    st.(live := st.live + [Scope(st.nextId, [])], nextId := st.nextId + 1)
  }

  function Leave(st: Store): Store
    requires st.live != []
  {
    st.(live := Init(st.live))
  }

  function Defer(st: Store, cb: Callback): Store
    requires st.live != []
  {
    var top := Last(st.live);
    st.(live := Init(st.live) + [Scope(top.id, top.callbacks + [cb])],
        submitted := st.submitted + [Entry(Some(top.id), cb)])
  }

  function RunNow(st: Store, cb: Callback): Store {
    st.(submitted := st.submitted + [Entry(None, cb)], ran := st.ran + [Entry(None, cb)])
  }

  function RunFrom(st: Store, id: nat, cb: Callback): Store {
    st.(ran := st.ran + [Entry(Some(id), cb)])
  }

  function Tagged(id: nat, cbs: seq<Callback>): seq<Entry> {
    seq(|cbs|, i requires 0 <= i < |cbs| => Entry(Some(id), cbs[i]))
  }

  function ReleaseAt(st: Store, depth: nat): Store {
    if depth >= |st.live| then st
    else
      var k := |st.live| - 1 - depth;
      var scope := st.live[k];
      st.(live := st.live[k := Scope(scope.id, [])], released := st.released + Tagged(scope.id, scope.callbacks))
  }

  // ---------------------------------------------------------------------------
  // The machine
  // ---------------------------------------------------------------------------

  /** What remains to do: commands, the end of the scope with a number, or the rest of a destructor's loop. */
  datatype Item = Do(cmds: seq<Cmd>) | Close(id: nat) | Drain(id: nat, callbacks: seq<Callback>)

  datatype State = State(control: seq<Item>, store: Store)

  function Step(s: State): State
    requires s.control != []
  {
    var rest := s.control[1..];
    match s.control[0]
    case Do(cmds) =>
      if cmds == [] then State(rest, s.store)
      else
        var next := [Do(cmds[1..])] + rest;
        (match cmds[0]
         case Submit(cb) =>
           if s.store.live == [] then State([Do(cb.body)] + next, RunNow(s.store, cb))
           else State(next, Defer(s.store, cb))
         case WithScope(body) => State([Do(body), Close(s.store.nextId)] + next, Enter(s.store))
         case Release(depth) => State(next, ReleaseAt(s.store, depth)))
    case Close(_) =>
      if s.store.live == [] then State(rest, s.store)
      else State([Drain(Last(s.store.live).id, Last(s.store.live).callbacks)] + rest, Leave(s.store))
    case Drain(id, cbs) =>
      if cbs == [] then State(rest, s.store)
      else State([Do(cbs[0].body), Drain(id, cbs[1..])] + rest, RunFrom(s.store, id, cbs[0]))
  }

  // ---------------------------------------------------------------------------
  // Termination
  // ---------------------------------------------------------------------------

  function CmdSize(c: Cmd): nat
    decreases c
  {
    match c
    case Submit(cb) => 3 + CmdsSize(cb.body)
    case WithScope(body) => 4 + CmdsSize(body)
    case Release(_) => 1
  }

  function CmdsSize(cmds: seq<Cmd>): nat
    decreases cmds
  {
    if cmds == [] then 0 else CmdSize(cmds[0]) + CmdsSize(cmds[1..])
  }

  function CallbacksSize(cbs: seq<Callback>): nat {
    if cbs == [] then 0 else 2 + CmdsSize(cbs[0].body) + CallbacksSize(cbs[1..])
  }

  function ItemSize(item: Item): nat {
    match item
    case Do(cmds) => 1 + CmdsSize(cmds)
    case Close(_) => 2
    case Drain(_, cbs) => 1 + CallbacksSize(cbs)
  }

  function ControlSize(control: seq<Item>): nat {
    if control == [] then 0 else ItemSize(control[0]) + ControlSize(control[1..])
  }

  function LiveSize(live: seq<Scope>): nat {
    if live == [] then 0 else LiveSize(Init(live)) + CallbacksSize(Last(live).callbacks)
  }

  function Size(s: State): nat {
    ControlSize(s.control) + LiveSize(s.store.live)
  }

  lemma {:induction false} CallbacksSizeAppend(a: seq<Callback>, b: seq<Callback>)
    ensures CallbacksSize(a + b) == CallbacksSize(a) + CallbacksSize(b)
    decreases |a|
  {
    if a == [] {
      assert a + b == b;
    } else {
      assert (a + b)[1..] == a[1..] + b;
      CallbacksSizeAppend(a[1..], b);
    }
  }

  lemma {:induction false} ReleasedSize(live: seq<Scope>, k: nat)
    requires k < |live|
    ensures LiveSize(live[k := Scope(live[k].id, [])]) <= LiveSize(live)
    decreases |live|
  {
    var live' := live[k := Scope(live[k].id, [])];
    if k == |live| - 1 {
      assert Init(live') == Init(live);
    } else {
      assert Init(live') == Init(live)[k := Scope(live[k].id, [])];
      ReleasedSize(Init(live), k);
    }
  }

  lemma DeferSize(st: Store, cb: Callback)
    requires st.live != []
    ensures LiveSize(Defer(st, cb).live) == LiveSize(st.live) + 2 + CmdsSize(cb.body)
  {
    var top := Last(st.live);
    CallbacksSizeAppend(top.callbacks, [cb]);
    assert CallbacksSize([cb]) == 2 + CmdsSize(cb.body) by {
      assert [cb][1..] == [];
    }
    assert Init(Defer(st, cb).live) == Init(st.live);
  }

  lemma EnterSize(st: Store)
    ensures LiveSize(Enter(st).live) == LiveSize(st.live)
  {
    assert Init(Enter(st).live) == st.live;
  }

  lemma ControlSizeCons(item: Item, rest: seq<Item>)
    ensures ControlSize([item] + rest) == ItemSize(item) + ControlSize(rest)
  {
    assert ([item] + rest)[1..] == rest;
  }

  lemma CommandShrinks(cmds: seq<Cmd>, rest: seq<Item>, st: Store)
    requires cmds != []
    ensures Size(Step(State([Do(cmds)] + rest, st))) < Size(State([Do(cmds)] + rest, st))
  {
    var next := [Do(cmds[1..])] + rest;
    assert ([Do(cmds)] + rest)[1..] == rest;
    ControlSizeCons(Do(cmds), rest);
    ControlSizeCons(Do(cmds[1..]), rest);
    assert CmdsSize(cmds) == CmdSize(cmds[0]) + CmdsSize(cmds[1..]);
    match cmds[0]
    case Submit(cb) =>
      ControlSizeCons(Do(cb.body), next);
      if st.live != [] {
        DeferSize(st, cb);
      }
    case WithScope(body) =>
      var end := Close(st.nextId);
      ControlSizeCons(end, next);
      ControlSizeCons(Do(body), [end] + next);
      assert [Do(body), end] + next == [Do(body)] + ([end] + next);
      EnterSize(st);
    case Release(depth) =>
      if depth < |st.live| {
        ReleasedSize(st.live, |st.live| - 1 - depth);
      }
  }

  /** Every step makes the state smaller, so every run ends. */
  lemma StepShrinks(s: State)
    requires s.control != []
    ensures Size(Step(s)) < Size(s)
  {
    var rest, st := s.control[1..], s.store;
    assert s.control == [s.control[0]] + rest;
    ControlSizeCons(s.control[0], rest);
    match s.control[0]
    case Do(cmds) =>
      if cmds != [] {
        CommandShrinks(cmds, rest, st);
      }
    case Close(_) =>
      if st.live != [] {
        ControlSizeCons(Drain(Last(st.live).id, Last(st.live).callbacks), rest);
      }
    case Drain(id, cbs) =>
      if cbs != [] {
        var next := [Drain(id, cbs[1..])] + rest;
        ControlSizeCons(Drain(id, cbs[1..]), rest);
        ControlSizeCons(Do(cbs[0].body), next);
        assert [Do(cbs[0].body), Drain(id, cbs[1..])] + rest == [Do(cbs[0].body)] + next;
      }
  }

  /** The whole run. */
  function Run(s: State): Store
    decreases Size(s)
  {
    if s.control == [] then s.store
    else
      StepShrinks(s);
      Run(Step(s))
  }

  /** The state after at most `n` steps. */
  function After(s: State, n: nat): State
    decreases n
  {
    if n == 0 || s.control == [] then s else After(Step(s), n - 1)
  }

  const EMPTY: Store := Store([], 0, [], [], [])

  function Program(cmds: seq<Cmd>): State {
    State([Do(cmds)], EMPTY)
  }

  // ---------------------------------------------------------------------------
  // The books
  // ---------------------------------------------------------------------------

  /** The callbacks among the entries that belong to `origin`, in order. */
  function Of(entries: seq<Entry>, origin: Option<nat>): seq<Callback> {
    if entries == [] then []
    else Of(Init(entries), origin) + if Last(entries).origin == origin then [Last(entries).callback] else []
  }

  /** Those waiting in open scopes. */
  function Pending(live: seq<Scope>, origin: Option<nat>): seq<Callback> {
    if live == [] then []
    else Pending(Init(live), origin) + if origin == Some(Last(live).id) then Last(live).callbacks else []
  }

  /** Those waiting in the loops of destructors under way. */
  function Draining(control: seq<Item>, origin: Option<nat>): seq<Callback> {
    if control == [] then []
    else
      (if control[0].Drain? && origin == Some(control[0].id) then control[0].callbacks else [])
      + Draining(control[1..], origin)
  }

  /** What was submitted under an origin is, in this order: what was released, what has run, and what
      still waits, in its scope's destructor or in its scope. */
  ghost predicate Balanced(s: State, origin: Option<nat>) {
    BalancedWith(s.store, Draining(s.control, origin), origin)
  }

  ghost predicate BalancedWith(st: Store, draining: seq<Callback>, origin: Option<nat>) {
    Of(st.submitted, origin) == Of(st.released, origin) + Of(st.ran, origin) + draining + Pending(st.live, origin)
  }

  /** The numbers of the scopes whose end is ahead, the last one to end first. */
  function Ends(control: seq<Item>): seq<nat> {
    if control == [] then [] else Ends(control[1..]) + if control[0].Close? then [control[0].id] else []
  }

  /** The numbers of the open scopes, outermost first. */
  function OpenIds(live: seq<Scope>): (ids: seq<nat>)
    ensures |ids| == |live|
  {
    seq(|live|, i requires 0 <= i < |live| => live[i].id)
  }

  function DrainIds(control: seq<Item>): set<nat> {
    if control == [] then {} else (if control[0].Drain? then {control[0].id} else {}) + DrainIds(control[1..])
  }

  function RanIds(ran: seq<Entry>): set<nat> {
    if ran == [] then {} else RanIds(Init(ran)) + if Last(ran).origin.Some? then {Last(ran).origin.value} else {}
  }

  ghost predicate Increasing(live: seq<Scope>) {
    forall i, j :: 0 <= i < j < |live| ==> live[i].id < live[j].id
  }

  ghost predicate Untouched(st: Store, drains: set<nat>) {
    forall i :: 0 <= i < |st.live| ==>
      st.live[i].id < st.nextId && st.live[i].id !in drains && st.live[i].id !in RanIds(st.ran)
  }

  /** Open scopes are numbered from the outermost to the innermost, none of them is being destroyed or
      has run anything, and they end in the opposite order. */
  ghost predicate NumberedWith(st: Store, drains: set<nat>, ends: seq<nat>) {
    && Increasing(st.live) && Untouched(st, drains)
    && (forall id :: id in drains || id in RanIds(st.ran) ==> id < st.nextId)
    && ends == OpenIds(st.live)
  }

  ghost predicate Numbered(s: State) {
    NumberedWith(s.store, DrainIds(s.control), Ends(s.control))
  }

  ghost predicate Inv(s: State) {
    Numbered(s) && forall origin :: Balanced(s, origin)
  }

  lemma OfAppend(entries: seq<Entry>, e: Entry, origin: Option<nat>)
    ensures Of(entries + [e], origin) == Of(entries, origin) + if e.origin == origin then [e.callback] else []
  {
    assert Init(entries + [e]) == entries;
  }

  lemma {:induction false} OfTagged(entries: seq<Entry>, id: nat, cbs: seq<Callback>, origin: Option<nat>)
    ensures Of(entries + Tagged(id, cbs), origin) == Of(entries, origin) + if origin == Some(id) then cbs else []
    decreases |cbs|
  {
    if cbs == [] {
      assert entries + Tagged(id, cbs) == entries;
    } else {
      assert entries + Tagged(id, cbs) == entries + Tagged(id, Init(cbs)) + [Entry(Some(id), Last(cbs))];
      OfTagged(entries, id, Init(cbs), origin);
      OfAppend(entries + Tagged(id, Init(cbs)), Entry(Some(id), Last(cbs)), origin);
    }
  }

  lemma {:induction false} OfAbsent(entries: seq<Entry>, id: nat)
    requires id !in RanIds(entries)
    ensures Of(entries, Some(id)) == []
    decreases |entries|
  {
    if entries != [] {
      OfAbsent(Init(entries), id);
    }
  }

  lemma {:induction false} DrainingAbsent(control: seq<Item>, origin: Option<nat>)
    requires origin.Some? ==> origin.value !in DrainIds(control)
    ensures Draining(control, origin) == []
    decreases |control|
  {
    if control != [] {
      DrainingAbsent(control[1..], origin);
    }
  }

  lemma {:induction false} PendingAbsent(live: seq<Scope>, origin: Option<nat>)
    requires forall i :: 0 <= i < |live| ==> origin != Some(live[i].id)
    ensures Pending(live, origin) == []
    decreases |live|
  {
    if live != [] {
      PendingAbsent(Init(live), origin);
    }
  }

  /** An open scope's own list is all that waits for it. */
  lemma {:induction false} PendingAt(live: seq<Scope>, k: nat)
    requires k < |live| && forall i, j :: 0 <= i < j < |live| ==> live[i].id != live[j].id
    ensures Pending(live, Some(live[k].id)) == live[k].callbacks
    decreases |live|
  {
    if k == |live| - 1 {
      PendingAbsent(Init(live), Some(live[k].id));
    } else {
      PendingAt(Init(live), k);
    }
  }

  lemma {:induction false} PendingReplaced(live: seq<Scope>, k: nat, scope: Scope, origin: Option<nat>)
    requires k < |live| && scope.id == live[k].id && origin != Some(scope.id)
    ensures Pending(live[k := scope], origin) == Pending(live, origin)
    decreases |live|
  {
    var live' := live[k := scope];
    if k == |live| - 1 {
      assert Init(live') == Init(live);
    } else {
      assert Init(live') == Init(live)[k := scope];
      PendingReplaced(Init(live), k, scope, origin);
    }
  }

  // ---------------------------------------------------------------------------
  // Every step keeps the books balanced
  // ---------------------------------------------------------------------------

  lemma DrainingCons(item: Item, rest: seq<Item>, origin: Option<nat>)
    ensures Draining([item] + rest, origin)
         == (if item.Drain? && origin == Some(item.id) then item.callbacks else []) + Draining(rest, origin)
    ensures Ends([item] + rest) == Ends(rest) + if item.Close? then [item.id] else []
    ensures DrainIds([item] + rest) == (if item.Drain? then {item.id} else {}) + DrainIds(rest)
  {
    assert ([item] + rest)[1..] == rest;
  }

  lemma RunNowBalanced(st: Store, cb: Callback, draining: seq<Callback>, origin: Option<nat>)
    requires BalancedWith(st, draining, origin) && (origin == None ==> draining == [])
    ensures BalancedWith(RunNow(st, cb), draining, origin)
  {
    OfAppend(st.submitted, Entry(None, cb), origin);
    OfAppend(st.ran, Entry(None, cb), origin);
    PendingAbsent(st.live, None);
  }

  lemma DeferBalanced(st: Store, cb: Callback, draining: seq<Callback>, origin: Option<nat>)
    requires st.live != [] && BalancedWith(st, draining, origin)
    ensures BalancedWith(Defer(st, cb), draining, origin)
  {
    OfAppend(st.submitted, Entry(Some(Last(st.live).id), cb), origin);
    assert Init(Defer(st, cb).live) == Init(st.live);
  }

  lemma EnterBalanced(st: Store, draining: seq<Callback>, origin: Option<nat>)
    requires BalancedWith(st, draining, origin)
    ensures BalancedWith(Enter(st), draining, origin)
  {
    assert Init(Enter(st).live) == st.live;
  }

  lemma ReleaseBalanced(st: Store, depth: nat, draining: seq<Callback>, origin: Option<nat>)
    requires BalancedWith(st, draining, origin) && depth < |st.live| && Increasing(st.live)
    requires origin == Some(st.live[|st.live| - 1 - depth].id) ==> draining == [] && Of(st.ran, origin) == []
    ensures BalancedWith(ReleaseAt(st, depth), draining, origin)
  {
    var k := |st.live| - 1 - depth;
    var scope := st.live[k];
    var live' := st.live[k := Scope(scope.id, [])];
    OfTagged(st.released, scope.id, scope.callbacks, origin);
    if origin == Some(scope.id) {
      PendingAt(st.live, k);
      PendingAt(live', k);
      Released(Of(st.released, origin), scope.callbacks);
    } else {
      PendingReplaced(st.live, k, Scope(scope.id, []), origin);
      assert Of(st.released, origin) + [] == Of(st.released, origin);
    }
    hide Of, Pending, Tagged;
    assert ReleaseAt(st, depth).live == live' && ReleaseAt(st, depth).released == st.released + Tagged(scope.id, scope.callbacks);
  }

  lemma Released<T>(a: seq<T>, b: seq<T>)
    ensures a + [] + [] + b == (a + b) + [] + [] + []
  {
  }

  lemma Shifted<T>(a: seq<T>, b: seq<T>, x: T, c: seq<T>, d: seq<T>)
    ensures a + b + ([x] + c) + d == a + (b + [x]) + c + d
  {
  }

  lemma LeaveBalanced(st: Store, draining: seq<Callback>, origin: Option<nat>)
    requires st.live != [] && BalancedWith(st, draining, origin) && Increasing(st.live)
    requires origin == Some(Last(st.live).id) ==> draining == []
    ensures BalancedWith(Leave(st), (if origin == Some(Last(st.live).id) then Last(st.live).callbacks else []) + draining, origin)
  {
    if origin == Some(Last(st.live).id) {
      PendingAbsent(Init(st.live), origin);
    }
  }

  lemma RunFromBalanced(st: Store, id: nat, cbs: seq<Callback>, draining: seq<Callback>, origin: Option<nat>)
    requires cbs != [] && BalancedWith(st, (if origin == Some(id) then cbs else []) + draining, origin)
    ensures BalancedWith(RunFrom(st, id, cbs[0]), (if origin == Some(id) then cbs[1..] else []) + draining, origin)
  {
    OfAppend(st.ran, Entry(Some(id), cbs[0]), origin);
    Shifted(Of(st.released, origin), Of(st.ran, origin), cbs[0], cbs[1..] + draining, Pending(st.live, origin));
    hide Of, Pending;
    if origin == Some(id) {
      assert cbs + draining == [cbs[0]] + (cbs[1..] + draining);
    } else {
      assert Of(st.ran, origin) + [] == Of(st.ran, origin);
    }
  }

  // The numbering.

  lemma RanIdsAppend(ran: seq<Entry>, e: Entry)
    ensures RanIds(ran + [e]) == RanIds(ran) + if e.origin.Some? then {e.origin.value} else {}
  {
    assert Init(ran + [e]) == ran;
  }

  lemma RunNumbered(st: Store, id: nat, cb: Callback, drains: set<nat>, ends: seq<nat>)
    requires NumberedWith(st, drains, ends)
    ensures NumberedWith(RunNow(st, cb), drains, ends)
    ensures id in drains ==> NumberedWith(RunFrom(st, id, cb), drains, ends)
  {
    RanIdsAppend(st.ran, Entry(None, cb));
    RanIdsAppend(st.ran, Entry(Some(id), cb));
  }

  lemma DeferNumbered(st: Store, cb: Callback, drains: set<nat>, ends: seq<nat>)
    requires st.live != [] && NumberedWith(st, drains, ends)
    ensures NumberedWith(Defer(st, cb), drains, ends)
  {
    var live' := Defer(st, cb).live;
    assert forall i :: 0 <= i < |live'| ==> live'[i].id == st.live[i].id;
  }

  lemma EnterNumbered(st: Store, drains: set<nat>, ends: seq<nat>)
    requires NumberedWith(st, drains, ends)
    ensures NumberedWith(Enter(st), drains, ends + [st.nextId])
  {
  }

  lemma ReleaseNumbered(st: Store, depth: nat, drains: set<nat>, ends: seq<nat>)
    requires NumberedWith(st, drains, ends)
    ensures NumberedWith(ReleaseAt(st, depth), drains, ends)
  {
    var live' := ReleaseAt(st, depth).live;
    assert forall i :: 0 <= i < |live'| ==> live'[i].id == st.live[i].id;
  }

  lemma LeaveNumbered(st: Store, drains: set<nat>, ends: seq<nat>)
    requires st.live != [] && NumberedWith(st, drains, ends)
    ensures ends != [] && Last(ends) == Last(st.live).id
    ensures NumberedWith(Leave(st), drains + {Last(st.live).id}, Init(ends))
  {
  }

  lemma DropNumbered(st: Store, drains: set<nat>, drains': set<nat>, ends: seq<nat>)
    requires NumberedWith(st, drains, ends) && drains' <= drains
    ensures NumberedWith(st, drains', ends)
  {
  }

  // One step at a time.

  /** Commands hold no scopes and no waiting callbacks. */
  lemma DoIsNeutral(cmds: seq<Cmd>, rest: seq<Item>, st: Store)
    ensures Inv(State([Do(cmds)] + rest, st)) <==> Inv(State(rest, st))
  {
    forall origin ensures Draining([Do(cmds)] + rest, origin) == Draining(rest, origin) {
      DrainingCons(Do(cmds), rest, origin);
    }
    DrainingCons(Do(cmds), rest, None);
    var s, s' := State([Do(cmds)] + rest, st), State(rest, st);
    hide NumberedWith, BalancedWith, Draining, DrainIds, Ends;
    assert Numbered(s) <==> Numbered(s');
    assert forall origin :: Balanced(s, origin) <==> Balanced(s', origin);
  }

  lemma RunNowKeeps(rest: seq<Item>, st: Store, cb: Callback)
    requires Inv(State(rest, st))
    ensures Inv(State(rest, RunNow(st, cb)))
  {
    var s := State(rest, st);
    hide NumberedWith, BalancedWith;
    RunNumbered(st, 0, cb, DrainIds(rest), Ends(rest));
    forall origin ensures BalancedWith(RunNow(st, cb), Draining(rest, origin), origin) {
      assert Balanced(s, origin);
      DrainingAbsent(rest, None);
      RunNowBalanced(st, cb, Draining(rest, origin), origin);
    }
  }

  lemma DeferKeeps(rest: seq<Item>, st: Store, cb: Callback)
    requires Inv(State(rest, st)) && st.live != []
    ensures Inv(State(rest, Defer(st, cb)))
  {
    var s := State(rest, st);
    hide NumberedWith, BalancedWith;
    DeferNumbered(st, cb, DrainIds(rest), Ends(rest));
    forall origin ensures BalancedWith(Defer(st, cb), Draining(rest, origin), origin) {
      assert Balanced(s, origin);
      DeferBalanced(st, cb, Draining(rest, origin), origin);
    }
  }

  lemma EnterKeeps(rest: seq<Item>, st: Store)
    requires Inv(State(rest, st))
    ensures Inv(State([Close(st.nextId)] + rest, Enter(st)))
  {
    var s, end := State(rest, st), Close(st.nextId);
    hide NumberedWith, BalancedWith;
    DrainingCons(end, rest, None);
    EnterNumbered(st, DrainIds(rest), Ends(rest));
    assert DrainIds([end] + rest) == DrainIds(rest) && Ends([end] + rest) == Ends(rest) + [st.nextId];
    assert Numbered(State([end] + rest, Enter(st)));
    forall origin ensures BalancedWith(Enter(st), Draining([end] + rest, origin), origin) {
      assert Balanced(s, origin);
      DrainingCons(end, rest, origin);
      assert Draining([end] + rest, origin) == Draining(rest, origin);
      EnterBalanced(st, Draining(rest, origin), origin);
    }
  }

  lemma ReleaseKeeps(rest: seq<Item>, st: Store, depth: nat)
    requires Inv(State(rest, st))
    ensures Inv(State(rest, ReleaseAt(st, depth)))
  {
    var s := State(rest, st);
    ReleaseNumbered(st, depth, DrainIds(rest), Ends(rest));
    if depth < |st.live| {
      var k := |st.live| - 1 - depth;
      var id := st.live[k].id;
      DrainingAbsent(rest, Some(id));
      OfAbsent(st.ran, id);
      hide BalancedWith, Draining, Of, Untouched;
      forall origin ensures BalancedWith(ReleaseAt(st, depth), Draining(rest, origin), origin) {
        assert Balanced(s, origin);
        ReleaseBalanced(st, depth, Draining(rest, origin), origin);
      }
    }
  }

  lemma EndMatches(id: nat, rest: seq<Item>, st: Store)
    requires Numbered(State([Close(id)] + rest, st))
    ensures st.live != [] && Last(st.live).id == id && id !in DrainIds(rest)
    ensures NumberedWith(Leave(st), DrainIds(rest) + {id}, Ends(rest))
  {
    DrainingCons(Close(id), rest, None);
    hide DrainIds, RanIds, Ends;
    assert OpenIds(st.live) == Ends(rest) + [id];
    LeaveNumbered(st, DrainIds(rest), Ends(rest) + [id]);
    assert Init(Ends(rest) + [id]) == Ends(rest);
  }

  lemma CloseKeeps(id: nat, rest: seq<Item>, st: Store)
    requires Inv(State([Close(id)] + rest, st))
    ensures st.live != [] && Last(st.live).id == id
    ensures Inv(State([Drain(Last(st.live).id, Last(st.live).callbacks)] + rest, Leave(st)))
  {
    hide BalancedWith, Draining, Untouched, DrainIds, Ends, OpenIds, RanIds;
    var s := State([Close(id)] + rest, st);
    EndMatches(id, rest, st);
    var item := Drain(id, Last(st.live).callbacks);
    DrainingCons(item, rest, None);
    DrainingAbsent(rest, Some(id));
    assert DrainIds([item] + rest) == DrainIds(rest) + {id};
    forall origin ensures BalancedWith(Leave(st), Draining([item] + rest, origin), origin) {
      assert Balanced(s, origin);
      DrainingCons(Close(id), rest, origin);
      assert Draining([Close(id)] + rest, origin) == Draining(rest, origin);
      DrainingCons(item, rest, origin);
      LeaveBalanced(st, Draining(rest, origin), origin);
    }
  }

  lemma DrainKeeps(rest: seq<Item>, st: Store, id: nat, cbs: seq<Callback>)
    requires Inv(State([Drain(id, cbs)] + rest, st))
    ensures cbs == [] ==> Inv(State(rest, st))
    ensures cbs != [] ==> Inv(State([Drain(id, cbs[1..])] + rest, RunFrom(st, id, cbs[0])))
  {
    var s := State([Drain(id, cbs)] + rest, st);
    DrainingCons(Drain(id, cbs), rest, None);
    if cbs == [] {
      DropNumbered(st, DrainIds([Drain(id, cbs)] + rest), DrainIds(rest), Ends(rest));
      hide BalancedWith, NumberedWith;
      forall origin ensures BalancedWith(st, Draining(rest, origin), origin) {
        assert Balanced(s, origin);
        DrainingCons(Drain(id, cbs), rest, origin);
      }
    } else {
      var item := Drain(id, cbs[1..]);
      DrainingCons(item, rest, None);
      RunNumbered(st, id, cbs[0], DrainIds([Drain(id, cbs)] + rest), Ends(rest));
      hide BalancedWith, NumberedWith;
      forall origin ensures BalancedWith(RunFrom(st, id, cbs[0]), Draining([item] + rest, origin), origin) {
        assert Balanced(s, origin);
        DrainingCons(Drain(id, cbs), rest, origin);
        DrainingCons(item, rest, origin);
        RunFromBalanced(st, id, cbs, Draining(rest, origin), origin);
      }
    }
  }

  lemma StepKeeps(s: State)
    requires s.control != [] && Inv(s)
    ensures Inv(Step(s))
  {
    hide Inv, RunNow, Defer, Enter, ReleaseAt, Leave, RunFrom;
    var rest, st := s.control[1..], s.store;
    assert s.control == [s.control[0]] + rest;
    match s.control[0]
    case Do(cmds) =>
      DoIsNeutral(cmds, rest, st);
      if cmds != [] {
        CommandKeeps(cmds, rest, st);
      }
    case Close(id) => CloseKeeps(id, rest, st);
    case Drain(id, cbs) =>
      DrainKeeps(rest, st, id, cbs);
      if cbs != [] {
        var next := [Drain(id, cbs[1..])] + rest;
        DoIsNeutral(cbs[0].body, next, RunFrom(st, id, cbs[0]));
        assert [Do(cbs[0].body), Drain(id, cbs[1..])] + rest == [Do(cbs[0].body)] + next;
      }
  }

  lemma CommandKeeps(cmds: seq<Cmd>, rest: seq<Item>, st: Store)
    requires cmds != [] && Inv(State(rest, st))
    ensures Inv(Step(State([Do(cmds)] + rest, st)))
  {
    hide Inv, RunNow, Defer, Enter, ReleaseAt;
    var next := [Do(cmds[1..])] + rest;
    assert ([Do(cmds)] + rest)[1..] == rest;
    DoIsNeutral(cmds[1..], rest, st);
    match cmds[0]
    case Submit(cb) =>
      if st.live == [] {
        RunNowKeeps(next, st, cb);
        DoIsNeutral(cb.body, next, RunNow(st, cb));
      } else {
        DeferKeeps(next, st, cb);
      }
    case WithScope(body) =>
      EnterKeeps(next, st);
      var end := Close(st.nextId);
      DoIsNeutral(body, [end] + next, Enter(st));
      assert [Do(body), end] + next == [Do(body)] + ([end] + next);
    case Release(depth) => ReleaseKeeps(next, st, depth);
  }

  lemma EmptyInv()
    ensures Inv(State([], EMPTY))
  {
  }

  lemma ProgramInv(cmds: seq<Cmd>)
    ensures Inv(Program(cmds))
  {
    hide Inv;
    assert [Do(cmds)] == [Do(cmds)] + [];
    EmptyInv();
    DoIsNeutral(cmds, [], EMPTY);
  }

  lemma {:induction false} AfterKeeps(s: State, n: nat)
    requires Inv(s)
    ensures Inv(After(s, n))
    decreases n
  {
    if n > 0 && s.control != [] {
      hide Inv, Step;
      StepKeeps(s);
      AfterKeeps(Step(s), n - 1);
    }
  }

  // ---------------------------------------------------------------------------
  // Properties of every run
  // ---------------------------------------------------------------------------

  /** At every moment of every program, for each scope, and for submissions outside any: what was
      submitted is, in the order of submission, what was released, what has run, what waits in the
      scope's destructor and what waits in the open scope. */
  lemma EverySubmissionAccounted(cmds: seq<Cmd>, n: nat, origin: Option<nat>)
    ensures var s := After(Program(cmds), n);
      Of(s.store.submitted, origin) == Of(s.store.released, origin) + Of(s.store.ran, origin)
                                       + Draining(s.control, origin) + Pending(s.store.live, origin)
  {
    ProgramInv(cmds);
    AfterKeeps(Program(cmds), n);
    assert Balanced(After(Program(cmds), n), origin);
  }

  /** The scopes open at any moment are those whose end is still ahead; with none open, nothing is
      pending in a scope. */
  lemma OpenScopesMatchEnds(cmds: seq<Cmd>, n: nat)
    ensures var s := After(Program(cmds), n);
      OpenIds(s.store.live) == Ends(s.control) && (s.store.live == [] ==> forall origin :: Pending(s.store.live, origin) == [])
  {
    ProgramInv(cmds);
    AfterKeeps(Program(cmds), n);
  }

  lemma {:induction false} RunIsAfter(s: State) returns (n: nat)
    ensures After(s, n).control == [] && After(s, n).store == Run(s)
    decreases Size(s)
  {
    if s.control == [] {
      n := 0;
    } else {
      StepShrinks(s);
      n := RunIsAfter(Step(s));
      n := n + 1;
    }
  }

  /** When a program ends no scope is open, and under every origin what was submitted was either
      released or has run, once, in the order of submission. */
  lemma EveryCleanupSettled(cmds: seq<Cmd>, origin: Option<nat>)
    ensures var st := Run(Program(cmds));
      st.live == [] && Of(st.submitted, origin) == Of(st.released, origin) + Of(st.ran, origin)
  {
    var n := RunIsAfter(Program(cmds));
    var s := After(Program(cmds), n);
    OpenScopesMatchEnds(cmds, n);
    EverySubmissionAccounted(cmds, n, origin);
    assert s.control == [] && s.store.live == [];
  }

  // ---------------------------------------------------------------------------
  // Scopes nest
  // ---------------------------------------------------------------------------

  /** `x` is the open scope constructed last. */
  predicate IsNewest(live: seq<Scope>, x: nat) {
    (exists i :: 0 <= i < |live| && live[i].id == x) && (forall i :: 0 <= i < |live| ==> live[i].id <= x)
  }

  /** Open scopes are numbered upwards from the outermost to the innermost. */
  lemma Nested(cmds: seq<Cmd>, n: nat)
    ensures var st := After(Program(cmds), n).store;
      (forall i, j :: 0 <= i < j < |st.live| ==> st.live[i].id < st.live[j].id)
      && (forall i :: 0 <= i < |st.live| ==> st.live[i].id < st.nextId)
  {
    ProgramInv(cmds);
    AfterKeeps(Program(cmds), n);
    hide After;
  }

  /** A new scope is empty and newer than all open ones, and its end comes right after its body. */
  lemma ScopeOpens(cmds: seq<Cmd>, n: nat, body: seq<Cmd>, more: seq<Cmd>, rest: seq<Item>)
    requires After(Program(cmds), n).control == [Do([WithScope(body)] + more)] + rest
    ensures var s := After(Program(cmds), n);
      exists x :: (forall i :: 0 <= i < |s.store.live| ==> s.store.live[i].id < x)
        && IsNewest(Step(s).store.live, x) && Pending(Step(s).store.live, Some(x)) == []
        && Step(s).control == [Do(body), Close(x), Do(more)] + rest
  {
    var s := After(Program(cmds), n);
    Nested(cmds, n);
    hide After;
    var x := s.store.nextId;
    StepOfCommand(s, WithScope(body), more, rest);
    assert [Do(body), Close(x)] + ([Do(more)] + rest) == [Do(body), Close(x), Do(more)] + rest;
    assert Init(Enter(s.store).live) == s.store.live;
    PendingAbsent(s.store.live, Some(x));
    assert Enter(s.store).live[|s.store.live|].id == x;
    assert IsNewest(Enter(s.store).live, x);
  }

  lemma StepOfCommand(s: State, cmd: Cmd, more: seq<Cmd>, rest: seq<Item>)
    requires s.control == [Do([cmd] + more)] + rest
    ensures s.control[1..] == rest && s.control[0] == Do([cmd] + more) && ([cmd] + more)[0] == cmd && ([cmd] + more)[1..] == more
  {
  }

  /** A cleanup submitted while scopes are open waits in the newest one. */
  lemma SubmissionJoinsNewest(cmds: seq<Cmd>, n: nat, cb: Callback, more: seq<Cmd>, rest: seq<Item>)
    requires After(Program(cmds), n).control == [Do([Submit(cb)] + more)] + rest
    requires After(Program(cmds), n).store.live != []
    ensures var s := After(Program(cmds), n);
      exists x :: IsNewest(s.store.live, x)
        && Step(s).store.submitted == s.store.submitted + [Entry(Some(x), cb)]
        && Step(s).control == [Do(more)] + rest && Step(s).store.ran == s.store.ran
  {
    var s := After(Program(cmds), n);
    Nested(cmds, n);
    hide After;
    StepOfCommand(s, Submit(cb), more, rest);
    var x := Last(s.store.live).id;
    assert s.store.live[|s.store.live| - 1].id == x;
    assert IsNewest(s.store.live, x);
  }

  /** The end of a scope finds that scope the newest, takes it out and runs its own callbacks. */
  lemma EndClosesItsScope(cmds: seq<Cmd>, n: nat, id: nat, rest: seq<Item>)
    requires After(Program(cmds), n).control == [Close(id)] + rest
    ensures var s := After(Program(cmds), n);
      && IsNewest(s.store.live, id)
      && Step(s).control == [Drain(id, Pending(s.store.live, Some(id)))] + rest
      && forall i :: 0 <= i < |Step(s).store.live| ==> Step(s).store.live[i].id < id
  {
    hide *;
    ProgramInv(cmds);
    AfterKeeps(Program(cmds), n);
    EndStep(After(Program(cmds), n), id, rest);
  }

  lemma EndStep(s: State, id: nat, rest: seq<Item>)
    requires Inv(s) && s.control == [Close(id)] + rest
    ensures IsNewest(s.store.live, id) && Step(s).control == [Drain(id, Pending(s.store.live, Some(id)))] + rest
    ensures forall i :: 0 <= i < |Step(s).store.live| ==> Step(s).store.live[i].id < id
  {
    hide BalancedWith, Draining, DrainIds, RanIds, Ends, Pending;
    var st := s.store;
    assert s.control[0] == Close(id) && s.control[1..] == rest && s == State([Close(id)] + rest, st);
    EndMatches(id, rest, st);
    var k := |st.live| - 1;
    assert st.live[k].id == id;
    PendingAt(st.live, k);
  }

  function Newer(live: seq<Scope>, x: nat): set<nat> {
    set i | 0 <= i < |live| && live[i].id > x :: live[i].id
  }

  /** `Release(depth)` names the open scope that has `depth` newer ones, and leaves the others alone. */
  lemma ReleaseNamesScope(cmds: seq<Cmd>, n: nat, depth: nat, more: seq<Cmd>, rest: seq<Item>)
    requires After(Program(cmds), n).control == [Do([Release(depth)] + more)] + rest
    requires depth < |After(Program(cmds), n).store.live|
    ensures var st, st' := After(Program(cmds), n).store, Step(After(Program(cmds), n)).store;
      exists x :: |Newer(st.live, x)| == depth && (exists i :: 0 <= i < |st.live| && st.live[i].id == x)
        && st'.released == st.released + Tagged(x, Pending(st.live, Some(x)))
        && Pending(st'.live, Some(x)) == []
        && forall origin :: origin != Some(x) ==> Pending(st'.live, origin) == Pending(st.live, origin)
  {
    var s := After(Program(cmds), n);
    Nested(cmds, n);
    hide After;
    StepOfCommand(s, Release(depth), more, rest);
    var live, k := s.store.live, |s.store.live| - 1 - depth;
    var x := live[k].id;
    NewerCount(live, k);
    PendingAt(live, k);
    var live' := live[k := Scope(x, [])];
    PendingAt(live', k);
    forall origin | origin != Some(x) ensures Pending(live', origin) == Pending(live, origin) {
      PendingReplaced(live, k, Scope(x, []), origin);
    }
    assert Step(s).store == ReleaseAt(s.store, depth);
    hide Step, Pending, Newer, Tagged;
    assert |Newer(live, x)| == depth && live[k].id == x;
  }

  lemma NewerAre(live: seq<Scope>, k: nat, x: nat)
    requires k < |live| && forall i, j :: 0 <= i < j < |live| ==> live[i].id < live[j].id
    ensures x in Newer(live, live[k].id) <==> x in OpenIds(live)[k + 1..]
  {
    var ids := OpenIds(live);
    if x in Newer(live, live[k].id) {
      var i :| 0 <= i < |live| && live[i].id > live[k].id && live[i].id == x;
      assert i > k;
      assert ids[k + 1..][i - k - 1] == x;
    }
    if x in ids[k + 1..] {
      var i :| 0 <= i < |ids| - k - 1 && ids[k + 1..][i] == x;
      assert live[k + 1 + i].id == x;
    }
  }

  lemma NewerCount(live: seq<Scope>, k: nat)
    requires k < |live| && forall i, j :: 0 <= i < j < |live| ==> live[i].id < live[j].id
    ensures |Newer(live, live[k].id)| == |live| - 1 - k
  {
    hide Newer, Elements;
    var ids := OpenIds(live)[k + 1..];
    assert forall i :: 0 <= i < |ids| ==> ids[i] == live[k + 1 + i].id;
    DistinctElements(ids);
    forall x: nat ensures x in Newer(live, live[k].id) <==> x in Elements(ids) {
      NewerAre(live, k, x);
    }
    assert Newer(live, live[k].id) == Elements(ids);
  }

  // ---------------------------------------------------------------------------
  // Every command of the program text is carried out
  // ---------------------------------------------------------------------------

  /** The cleanups a program text submits, those in bodies of scopes and of cleanups included. */
  function Submits(cmds: seq<Cmd>): multiset<Callback>
    decreases cmds
  {
    if cmds == [] then multiset{} else SubmitsOf(cmds[0]) + Submits(cmds[1..])
  }

  function SubmitsOf(c: Cmd): multiset<Callback>
    decreases c
  {
    match c
    case Submit(cb) => multiset{cb} + Submits(cb.body)
    case WithScope(body) => Submits(body)
    case Release(_) => multiset{}
  }

  /** What the bodies of some cleanups would submit. */
  function Bodies(cbs: seq<Callback>): multiset<Callback> {
    if cbs == [] then multiset{} else Submits(cbs[0].body) + Bodies(cbs[1..])
  }

  function CallbacksOf(entries: seq<Entry>): (cbs: seq<Callback>)
    ensures |cbs| == |entries|
  {
    seq(|entries|, i requires 0 <= i < |entries| => entries[i].callback)
  }

  /** What the rest of the machine's work submits: its commands, and the bodies in destructors' loops. */
  function ControlSubmits(control: seq<Item>): multiset<Callback> {
    if control == [] then multiset{}
    else
      (match control[0] case Do(cmds) => Submits(cmds) case Close(_) => multiset{} case Drain(_, cbs) => Bodies(cbs))
      + ControlSubmits(control[1..])
  }

  function LiveBodies(live: seq<Scope>): multiset<Callback> {
    if live == [] then multiset{} else LiveBodies(Init(live)) + Bodies(Last(live).callbacks)
  }

  /** All cleanups waiting in destructors' loops, and in open scopes. */
  function DrainingAll(control: seq<Item>): multiset<Callback> {
    if control == [] then multiset{}
    else (if control[0].Drain? then multiset(control[0].callbacks) else multiset{}) + DrainingAll(control[1..])
  }

  function PendingAll(live: seq<Scope>): multiset<Callback> {
    if live == [] then multiset{} else PendingAll(Init(live)) + multiset(Last(live).callbacks)
  }

  lemma {:induction false} BodiesAppend(a: seq<Callback>, b: seq<Callback>)
    ensures Bodies(a + b) == Bodies(a) + Bodies(b)
    decreases |a|
  {
    if a == [] {
      assert a + b == b;
    } else {
      assert (a + b)[1..] == a[1..] + b;
      BodiesAppend(a[1..], b);
    }
  }

  lemma BodiesOne(cb: Callback)
    ensures Bodies([cb]) == Submits(cb.body)
  {
    assert [cb][1..] == [];
  }

  lemma CallbacksAppend(entries: seq<Entry>, e: Entry)
    ensures CallbacksOf(entries + [e]) == CallbacksOf(entries) + [e.callback]
  {
  }

  lemma CallbacksTagged(entries: seq<Entry>, id: nat, cbs: seq<Callback>)
    ensures CallbacksOf(entries + Tagged(id, cbs)) == CallbacksOf(entries) + cbs
  {
  }

  lemma ControlCons(item: Item, rest: seq<Item>)
    ensures ControlSubmits([item] + rest)
         == (match item case Do(cmds) => Submits(cmds) case Close(_) => multiset{} case Drain(_, cbs) => Bodies(cbs))
            + ControlSubmits(rest)
    ensures DrainingAll([item] + rest)
         == (if item.Drain? then multiset(item.callbacks) else multiset{}) + DrainingAll(rest)
  {
    assert ([item] + rest)[1..] == rest;
  }

  lemma LastScope(live: seq<Scope>)
    requires live != []
    ensures LiveBodies(live) == LiveBodies(Init(live)) + Bodies(Last(live).callbacks)
    ensures PendingAll(live) == PendingAll(Init(live)) + multiset(Last(live).callbacks)
  {
  }

  lemma {:induction false} Emptied(live: seq<Scope>, k: nat)
    requires k < |live|
    ensures LiveBodies(live) == LiveBodies(live[k := Scope(live[k].id, [])]) + Bodies(live[k].callbacks)
    ensures PendingAll(live) == PendingAll(live[k := Scope(live[k].id, [])]) + multiset(live[k].callbacks)
    decreases |live|
  {
    hide LiveBodies, PendingAll, Submits;
    var live' := live[k := Scope(live[k].id, [])];
    LastScope(live);
    LastScope(live');
    if k == |live| - 1 {
      assert Init(live') == Init(live) && Bodies(Last(live').callbacks) == multiset{};
    } else {
      assert Init(live') == Init(live)[k := Scope(live[k].id, [])];
      Emptied(Init(live), k);
    }
  }

  /** The sums over a store: submitted, run, released, bodies ahead, and waiting in scopes. */
  datatype Sums = Sums(submitted: multiset<Callback>, ran: multiset<Callback>, released: multiset<Callback>,
                       bodies: multiset<Callback>, pending: multiset<Callback>)

  function SumsOf(st: Store): Sums {
    Sums(multiset(CallbacksOf(st.submitted)), multiset(CallbacksOf(st.ran)), multiset(CallbacksOf(st.released)),
         LiveBodies(st.live) + Bodies(CallbacksOf(st.released)), PendingAll(st.live))
  }

  lemma RunSums(st: Store, id: nat, cb: Callback)
    ensures var a := SumsOf(st);
      && SumsOf(RunNow(st, cb)) == a.(submitted := a.submitted + multiset{cb}, ran := a.ran + multiset{cb})
      && SumsOf(RunFrom(st, id, cb)) == a.(ran := a.ran + multiset{cb})
  {
    CallbacksAppend(st.submitted, Entry(None, cb));
    CallbacksAppend(st.ran, Entry(None, cb));
    CallbacksAppend(st.ran, Entry(Some(id), cb));
    hide LiveBodies, Bodies, PendingAll, Submits, CallbacksOf;
  }

  lemma DeferSums(st: Store, cb: Callback)
    requires st.live != []
    ensures var a := SumsOf(st);
      SumsOf(Defer(st, cb)) == a.(submitted := a.submitted + multiset{cb}, bodies := a.bodies + Submits(cb.body),
                                  pending := a.pending + multiset{cb})
  {
    hide LiveBodies, Bodies, PendingAll, Submits, CallbacksOf;
    var top, st' := Last(st.live), Defer(st, cb);
    CallbacksAppend(st.submitted, Entry(Some(top.id), cb));
    LastScope(st.live);
    LastScope(st'.live);
    assert Init(st'.live) == Init(st.live);
    BodiesAppend(top.callbacks, [cb]);
    BodiesOne(cb);
  }

  lemma EnterSums(st: Store)
    ensures SumsOf(Enter(st)) == SumsOf(st)
  {
    hide LiveBodies, PendingAll, Submits, CallbacksOf;
    LastScope(Enter(st).live);
    assert Init(Enter(st).live) == st.live;
    assert Bodies([]) == multiset{};
  }

  lemma LeaveSums(st: Store)
    requires st.live != []
    ensures var a, a' := SumsOf(st), SumsOf(Leave(st));
      && a == a'.(bodies := a'.bodies + Bodies(Last(st.live).callbacks),
                  pending := a'.pending + multiset(Last(st.live).callbacks))
  {
    hide LiveBodies, Bodies, PendingAll, Submits, CallbacksOf;
    LastScope(st.live);
  }

  lemma ReleaseSums(st: Store, depth: nat)
    ensures var a, a' := SumsOf(st), SumsOf(ReleaseAt(st, depth));
      && a'.submitted == a.submitted && a'.ran == a.ran && a'.bodies == a.bodies
      && a'.released + a'.pending == a.released + a.pending
  {
    hide LiveBodies, Bodies, PendingAll, Submits, CallbacksOf, Tagged;
    if depth < |st.live| {
      var k := |st.live| - 1 - depth;
      Emptied(st.live, k);
      CallbacksTagged(st.released, st.live[k].id, st.live[k].callbacks);
      BodiesAppend(CallbacksOf(st.released), st.live[k].callbacks);
    }
  }

  /** Both laws of the books: nothing of the text is lost, and nothing that was submitted. `ahead` is what
      the control submits, `draining` what destructors' loops hold. */
  predicate CompleteWith(a: Sums, ahead: multiset<Callback>, draining: multiset<Callback>, text: multiset<Callback>) {
    && text == a.submitted + a.bodies + ahead
    && a.submitted == a.ran + a.released + a.pending + draining
  }

  predicate Complete(s: State, text: multiset<Callback>) {
    CompleteWith(SumsOf(s.store), ControlSubmits(s.control), DrainingAll(s.control), text)
  }

  lemma CmdsCons(cmd: Cmd, more: seq<Cmd>)
    ensures Submits([cmd] + more) == SubmitsOf(cmd) + Submits(more)
  {
    assert ([cmd] + more)[1..] == more;
  }

  lemma NoCommands()
    ensures Submits([]) == multiset{}
  {
  }

  /** Commands in front of the control. */
  lemma DoComplete(cmds: seq<Cmd>, rest: seq<Item>, st: Store, text: multiset<Callback>)
    ensures Complete(State([Do(cmds)] + rest, st), text)
       <==> CompleteWith(SumsOf(st), Submits(cmds) + ControlSubmits(rest), DrainingAll(rest), text)
  {
    hide CompleteWith, SumsOf, ControlSubmits, DrainingAll, Submits;
    ControlCons(Do(cmds), rest);
    assert multiset{} + DrainingAll(rest) == DrainingAll(rest);
  }

  lemma RunNowComplete(cb: Callback, next: seq<Item>, st: Store, text: multiset<Callback>)
    requires CompleteWith(SumsOf(st), multiset{cb} + Submits(cb.body) + ControlSubmits(next), DrainingAll(next), text)
    ensures Complete(State([Do(cb.body)] + next, RunNow(st, cb)), text)
  {
    hide SumsOf, ControlSubmits, DrainingAll, Submits, RunNow, Complete;
    RunSums(st, 0, cb);
    DoComplete(cb.body, next, RunNow(st, cb), text);
  }

  lemma DeferComplete(cb: Callback, next: seq<Item>, st: Store, text: multiset<Callback>)
    requires st.live != []
    requires CompleteWith(SumsOf(st), multiset{cb} + Submits(cb.body) + ControlSubmits(next), DrainingAll(next), text)
    ensures Complete(State(next, Defer(st, cb)), text)
  {
    hide SumsOf, ControlSubmits, DrainingAll, Submits, Defer;
    DeferSums(st, cb);
  }

  lemma EnterComplete(body: seq<Cmd>, next: seq<Item>, st: Store, text: multiset<Callback>)
    requires CompleteWith(SumsOf(st), Submits(body) + ControlSubmits(next), DrainingAll(next), text)
    ensures Complete(State([Do(body), Close(st.nextId)] + next, Enter(st)), text)
  {
    hide SumsOf, ControlSubmits, DrainingAll, Submits, Enter, Complete;
    var end := Close(st.nextId);
    ControlCons(end, next);
    EnterSums(st);
    DoComplete(body, [end] + next, Enter(st), text);
    assert [Do(body), end] + next == [Do(body)] + ([end] + next);
  }

  lemma ReleaseComplete(depth: nat, next: seq<Item>, st: Store, text: multiset<Callback>)
    requires CompleteWith(SumsOf(st), ControlSubmits(next), DrainingAll(next), text)
    ensures Complete(State(next, ReleaseAt(st, depth)), text)
  {
    hide SumsOf, ControlSubmits, DrainingAll, Submits, ReleaseAt;
    ReleaseSums(st, depth);
    var a, a' := SumsOf(st), SumsOf(ReleaseAt(st, depth));
    assert a.ran + a.released + a.pending == a.ran + (a.released + a.pending);
    assert a'.ran + a'.released + a'.pending == a'.ran + (a'.released + a'.pending);
  }

  lemma CommandComplete(cmd: Cmd, more: seq<Cmd>, rest: seq<Item>, st: Store, text: multiset<Callback>)
    requires Complete(State([Do([cmd] + more)] + rest, st), text)
    ensures Complete(Step(State([Do([cmd] + more)] + rest, st)), text)
  {
    hide SumsOf, ControlSubmits, DrainingAll, Submits, RunNow, Defer, Enter, ReleaseAt, Complete;
    var s, next := State([Do([cmd] + more)] + rest, st), [Do(more)] + rest;
    StepOfCommand(s, cmd, more, rest);
    DoComplete([cmd] + more, rest, st, text);
    ControlCons(Do(more), rest);
    CmdsCons(cmd, more);
    match cmd {
      case Submit(cb) =>
        if st.live == [] {
          RunNowComplete(cb, next, st, text);
        } else {
          DeferComplete(cb, next, st, text);
        }
      case WithScope(body) =>
        EnterComplete(body, next, st, text);
      case Release(depth) =>
        ReleaseComplete(depth, next, st, text);
    }
  }

  lemma CloseComplete(id: nat, rest: seq<Item>, st: Store, text: multiset<Callback>)
    requires Complete(State([Close(id)] + rest, st), text)
    ensures Complete(Step(State([Close(id)] + rest, st)), text)
  {
    hide SumsOf, ControlSubmits, DrainingAll, Bodies, Leave;
    ControlCons(Close(id), rest);
    assert ([Close(id)] + rest)[1..] == rest;
    if st.live != [] {
      ControlCons(Drain(Last(st.live).id, Last(st.live).callbacks), rest);
      LeaveSums(st);
    }
  }

  lemma CallbacksCons(cb: Callback, more: seq<Callback>)
    ensures Bodies([cb] + more) == Submits(cb.body) + Bodies(more)
    ensures multiset([cb] + more) == multiset{cb} + multiset(more)
  {
    assert ([cb] + more)[1..] == more;
  }

  /** One callback of a destructor's loop has run and its body is next. */
  lemma OneMoreRan(a: Sums, cb: Callback, body: multiset<Callback>, more: multiset<Callback>, bodies: multiset<Callback>,
      ahead: multiset<Callback>, draining: multiset<Callback>, text: multiset<Callback>)
    requires CompleteWith(a, (body + bodies) + ahead, (multiset{cb} + more) + draining, text)
    ensures CompleteWith(a.(ran := a.ran + multiset{cb}), body + (bodies + ahead), more + draining, text)
  {
  }

  lemma DrainComplete(id: nat, cb: Callback, more: seq<Callback>, rest: seq<Item>, st: Store, text: multiset<Callback>)
    requires Complete(State([Drain(id, [cb] + more)] + rest, st), text)
    ensures Complete(State([Do(cb.body), Drain(id, more)] + rest, RunFrom(st, id, cb)), text)
  {
    hide SumsOf, ControlSubmits, DrainingAll, Submits, Bodies, RunFrom, CompleteWith;
    ControlCons(Drain(id, [cb] + more), rest);
    ControlCons(Drain(id, more), rest);
    CallbacksCons(cb, more);
    RunSums(st, id, cb);
    OneMoreRan(SumsOf(st), cb, Submits(cb.body), multiset(more), Bodies(more), ControlSubmits(rest), DrainingAll(rest), text);
    DoComplete(cb.body, [Drain(id, more)] + rest, RunFrom(st, id, cb), text);
    assert [Do(cb.body), Drain(id, more)] + rest == [Do(cb.body)] + ([Drain(id, more)] + rest);
  }

  lemma DrainedComplete(id: nat, rest: seq<Item>, st: Store, text: multiset<Callback>)
    requires Complete(State([Drain(id, [])] + rest, st), text)
    ensures Complete(State(rest, st), text)
  {
    hide SumsOf, ControlSubmits, DrainingAll, Submits;
    ControlCons(Drain(id, []), rest);
  }

  lemma StepComplete(s: State, text: multiset<Callback>)
    requires s.control != [] && Complete(s, text)
    ensures Complete(Step(s), text)
  {
    hide Complete, Submits, ControlSubmits, DrainingAll, SumsOf;
    var rest, st := s.control[1..], s.store;
    assert s.control == [s.control[0]] + rest && s == State([s.control[0]] + rest, st);
    match s.control[0] {
      case Do(cmds) =>
        if cmds == [] {
          NoCommands();
          DoComplete([], rest, st, text);
          RestComplete(rest, st, text);
        } else {
          assert cmds == [cmds[0]] + cmds[1..];
          hide Step;
          CommandComplete(cmds[0], cmds[1..], rest, st, text);
        }
      case Close(id) =>
        CloseComplete(id, rest, st, text);
      case Drain(id, cbs) =>
        if cbs == [] {
          DrainedComplete(id, rest, st, text);
        } else {
          assert cbs == [cbs[0]] + cbs[1..];
          DrainComplete(id, cbs[0], cbs[1..], rest, st, text);
        }
    }
  }

  lemma RestComplete(rest: seq<Item>, st: Store, text: multiset<Callback>)
    requires CompleteWith(SumsOf(st), multiset{} + ControlSubmits(rest), DrainingAll(rest), text)
    ensures Complete(State(rest, st), text)
  {
    hide SumsOf, ControlSubmits, DrainingAll;
    assert multiset{} + ControlSubmits(rest) == ControlSubmits(rest);
  }

  lemma {:induction false} AfterComplete(s: State, n: nat, text: multiset<Callback>)
    requires Complete(s, text)
    ensures Complete(After(s, n), text)
    decreases n
  {
    hide Complete, Step;
    if n > 0 && s.control != [] {
      StepComplete(s, text);
      AfterComplete(Step(s), n - 1, text);
    }
  }

  lemma ProgramComplete(cmds: seq<Cmd>)
    ensures Complete(Program(cmds), Submits(cmds))
  {
    ControlCons(Do(cmds), []);
    assert [Do(cmds)] + [] == [Do(cmds)];
    hide Submits;
  }

  /** At every moment the cleanups in the program text, bodies included, are those submitted so far and
      those ahead: in commands not yet carried out, in bodies of waiting cleanups and of released ones. */
  lemma TextAccounted(cmds: seq<Cmd>, n: nat)
    ensures var s := After(Program(cmds), n);
      Submits(cmds) == multiset(CallbacksOf(s.store.submitted)) + ControlSubmits(s.control)
                       + LiveBodies(s.store.live) + Bodies(CallbacksOf(s.store.released))
  {
    hide *;
    ProgramComplete(cmds);
    AfterComplete(Program(cmds), n, Submits(cmds));
    CompleteText(After(Program(cmds), n), Submits(cmds));
  }

  lemma CompleteText(s: State, text: multiset<Callback>)
    requires Complete(s, text)
    ensures text == multiset(CallbacksOf(s.store.submitted)) + ControlSubmits(s.control)
                    + LiveBodies(s.store.live) + Bodies(CallbacksOf(s.store.released))
    ensures s.control == [] && s.store.live == [] ==>
              && text == multiset(CallbacksOf(s.store.ran)) + multiset(CallbacksOf(s.store.released))
                         + Bodies(CallbacksOf(s.store.released))
  {
    hide Bodies, CallbacksOf;
  }

  /** So when a program ends, every cleanup in its text has run or was released, as often as the text says,
      but for those in bodies of released ones. */
  lemma TextSettled(cmds: seq<Cmd>)
    ensures var st := Run(Program(cmds));
      Submits(cmds) == multiset(CallbacksOf(st.ran)) + multiset(CallbacksOf(st.released)) + Bodies(CallbacksOf(st.released))
  {
    hide *;
    var n := RunIsAfter(Program(cmds));
    var s := After(Program(cmds), n);
    ProgramComplete(cmds);
    AfterComplete(Program(cmds), n, Submits(cmds));
    EveryCleanupSettled(cmds, None);
    CompleteText(s, Submits(cmds));
  }

  // ---------------------------------------------------------------------------
  // Nested execution
  // ---------------------------------------------------------------------------

  /** The commands as nested calls: a scope's destructor pops it before running its callbacks. */
  function Execute(cmds: seq<Cmd>, st: Store): (r: Store)
    ensures |r.live| == |st.live| && LiveSize(r.live) <= LiveSize(st.live) + CmdsSize(cmds)
    decreases CmdsSize(cmds) + LiveSize(st.live), 2
  {
    if cmds == [] then st
    else
      assert CmdsSize(cmds) == CmdSize(cmds[0]) + CmdsSize(cmds[1..]);
      Execute(cmds[1..], ExecuteOne(cmds[0], st))
  }

  function ExecuteOne(c: Cmd, st: Store): (r: Store)
    ensures |r.live| == |st.live| && LiveSize(r.live) < LiveSize(st.live) + CmdSize(c)
    decreases CmdSize(c) + LiveSize(st.live), 1
  {
    match c
    case Submit(cb) =>
      if st.live == [] then Execute(cb.body, RunNow(st, cb))
      else
        DeferSize(st, cb);
        Defer(st, cb)
    case WithScope(body) =>
      EnterSize(st);
      var st' := Execute(body, Enter(st));
      DrainAll(Last(st'.live).id, Last(st'.live).callbacks, Leave(st'))
    case Release(depth) =>
      ReleaseSize(st, depth);
      ReleaseAt(st, depth)
  }

  function DrainAll(id: nat, cbs: seq<Callback>, st: Store): (r: Store)
    ensures |r.live| == |st.live| && LiveSize(r.live) <= LiveSize(st.live) + CallbacksSize(cbs)
    decreases CallbacksSize(cbs) + LiveSize(st.live), 0
  {
    if cbs == [] then st
    else DrainAll(id, cbs[1..], Execute(cbs[0].body, RunFrom(st, id, cbs[0])))
  }

  lemma ReleaseSize(st: Store, depth: nat)
    ensures |ReleaseAt(st, depth).live| == |st.live| && LiveSize(ReleaseAt(st, depth).live) <= LiveSize(st.live)
  {
    if depth < |st.live| {
      ReleasedSize(st.live, |st.live| - 1 - depth);
    }
  }

  lemma {:induction false} DoRuns(cmds: seq<Cmd>, rest: seq<Item>, st: Store)
    ensures Run(State([Do(cmds)] + rest, st)) == Run(State(rest, Execute(cmds, st)))
    decreases CmdsSize(cmds) + LiveSize(st.live), 2
  {
    assert ([Do(cmds)] + rest)[1..] == rest;
    if cmds != [] {
      assert CmdsSize(cmds) == CmdSize(cmds[0]) + CmdsSize(cmds[1..]);
      CommandRuns(cmds, rest, st);
      DoRuns(cmds[1..], rest, ExecuteOne(cmds[0], st));
    }
  }

  lemma {:induction false} CommandRuns(cmds: seq<Cmd>, rest: seq<Item>, st: Store)
    requires cmds != []
    ensures Run(State([Do(cmds)] + rest, st)) == Run(State([Do(cmds[1..])] + rest, ExecuteOne(cmds[0], st)))
    decreases CmdSize(cmds[0]) + LiveSize(st.live), 1
  {
    var s, next := State([Do(cmds)] + rest, st), [Do(cmds[1..])] + rest;
    assert s.control[1..] == rest;
    assert Run(s) == Run(Step(s));
    match cmds[0]
    case Submit(cb) =>
      if st.live == [] {
        DoRuns(cb.body, next, RunNow(st, cb));
      }
    case WithScope(body) =>
      EnterSize(st);
      var end := Close(st.nextId);
      assert [Do(body), end] + next == [Do(body)] + ([end] + next);
      DoRuns(body, [end] + next, Enter(st));
      CloseRuns(st.nextId, next, Execute(body, Enter(st)));
      var st' := Execute(body, Enter(st));
      DrainRuns(Last(st'.live).id, Last(st'.live).callbacks, next, Leave(st'));
    case Release(depth) =>
  }

  lemma CloseRuns(id: nat, rest: seq<Item>, st: Store)
    requires st.live != []
    ensures Run(State([Close(id)] + rest, st))
         == Run(State([Drain(Last(st.live).id, Last(st.live).callbacks)] + rest, Leave(st)))
  {
    assert ([Close(id)] + rest)[1..] == rest;
  }

  lemma {:induction false} DrainRuns(id: nat, cbs: seq<Callback>, rest: seq<Item>, st: Store)
    ensures Run(State([Drain(id, cbs)] + rest, st)) == Run(State(rest, DrainAll(id, cbs, st)))
    decreases CallbacksSize(cbs) + LiveSize(st.live), 0
  {
    var s := State([Drain(id, cbs)] + rest, st);
    assert s.control[1..] == rest;
    assert Run(s) == Run(Step(s));
    if cbs != [] {
      var next, st' := [Drain(id, cbs[1..])] + rest, RunFrom(st, id, cbs[0]);
      assert [Do(cbs[0].body), Drain(id, cbs[1..])] + rest == [Do(cbs[0].body)] + next;
      DoRuns(cbs[0].body, next, st');
      DrainRuns(id, cbs[1..], rest, Execute(cbs[0].body, st'));
    }
  }

  /** The machine computes what the nested calls do. */
  lemma MachineIsExecution(cmds: seq<Cmd>)
    ensures Run(Program(cmds)) == Execute(cmds, EMPTY)
  {
    assert [Do(cmds)] == [Do(cmds)] + [];
    DoRuns(cmds, [], EMPTY);
  }

  /** A thread's open scopes, and a record of what happened to every callback. */
  class CleanupThread {
    var live: seq<Scope>
    var nextId: nat
    ghost var submitted: seq<Entry>
    ghost var ran: seq<Entry>
    ghost var released: seq<Entry>

    ghost function Value(): Store
      reads this
    {
      Store(live, nextId, submitted, ran, released)
    }

    constructor ()
      ensures Value() == EMPTY
    {
      live, nextId, submitted, ran, released := [], 0, [], [], [];
    }

    /** The constructor of a scope: it becomes the active one. */
    method OpenScope()
      modifies this
      ensures Value() == Enter(old(Value()))
    {
      live, nextId := live + [Scope(nextId, [])], nextId + 1;
    }

    /** `DeferOrRunAclCleanup`. */
    method DeferOrRun(cb: Callback)
      modifies this
      ensures Value() == ExecuteOne(Submit(cb), old(Value()))
      decreases CmdSize(Submit(cb)) + LiveSize(live), 1
    {
      if live != [] {
        DeferSize(Value(), cb);
        var top := Last(live);
        submitted := submitted + [Entry(Some(top.id), cb)];
        live := Init(live) + [Scope(top.id, top.callbacks + [cb])];
        return;
      }
      submitted := submitted + [Entry(None, cb)];
      ran := ran + [Entry(None, cb)];
      Perform(cb.body);
    }

    /** The destructor of the innermost scope. */
    method CloseScope()
      requires live != []
      modifies this
      ensures Value() == DrainAll(old(Last(live).id), old(Last(live).callbacks), Leave(old(Value())))
      decreases LiveSize(live), 3
    {
      var dying := Last(live);
      live := Init(live);
      var i := 0;
      while i < |dying.callbacks|
        invariant i <= |dying.callbacks|
        invariant DrainAll(dying.id, dying.callbacks[i..], Value())
               == DrainAll(dying.id, dying.callbacks, Leave(old(Value())))
        invariant CallbacksSize(dying.callbacks[i..]) + LiveSize(live) <= old(LiveSize(live))
        decreases |dying.callbacks| - i
      {
        var cleanup := dying.callbacks[i];
        assert dying.callbacks[i..][0] == cleanup && dying.callbacks[i..][1..] == dying.callbacks[i + 1..];
        ran := ran + [Entry(Some(dying.id), cleanup)];
        Perform(cleanup.body);
        i := i + 1;
      }
    }

    /** `Release` on the scope `depth` levels out. */
    method ReleaseScope(depth: nat) returns (callbacks: seq<Callback>)
      modifies this
      ensures Value() == ReleaseAt(old(Value()), depth)
      ensures callbacks == if depth < |old(live)| then old(live[|live| - 1 - depth].callbacks) else []
    {
      callbacks := [];
      if depth < |live| {
        var k := |live| - 1 - depth;
        var scope := live[k];
        callbacks := scope.callbacks;
        live := live[k := Scope(scope.id, [])];
        released := released + Tagged(scope.id, callbacks);
      }
    }

    /** One command of a thread's code. */
    method PerformOne(cmd: Cmd)
      modifies this
      ensures Value() == ExecuteOne(cmd, old(Value()))
      decreases CmdSize(cmd) + LiveSize(live), 2
    {
      match cmd
      case Submit(cb) => DeferOrRun(cb);
      case WithScope(body) =>
        EnterSize(Value());
        OpenScope();
        Perform(body);
        CloseScope();
      case Release(depth) =>
        var callbacks := ReleaseScope(depth);
    }

    /** A thread's program, or the body of a cleanup. */
    method Perform(cmds: seq<Cmd>)
      modifies this
      ensures Value() == Execute(cmds, old(Value()))
      decreases CmdsSize(cmds) + LiveSize(live), 3
    {
      hide ExecuteOne;
      var i := 0;
      assert cmds[0..] == cmds;
      while i < |cmds|
        invariant i <= |cmds| && Execute(cmds[i..], Value()) == Execute(cmds, old(Value()))
        invariant CmdsSize(cmds[i..]) + LiveSize(live) <= CmdsSize(cmds) + old(LiveSize(live))
        decreases |cmds| - i
      {
        assert cmds[i..][0] == cmds[i] && cmds[i..][1..] == cmds[i + 1..];
        PerformOne(cmds[i]);
        i := i + 1;
      }
    }
  }
}
