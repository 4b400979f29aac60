/** The order in which cleanups run, without scopes' numbers or a store: what a program text does inside an
    open scope, and outside any. Releases are left out. */
module CleanupOrder {
  import opened GraphCleanup
  import opened Layout
  import opened Options

  /** Inside a scope: the cleanups that run, and those that then wait in the scope, in order. */
  datatype Effect = Effect(ran: seq<Callback>, waiting: seq<Callback>)

  function Then(a: Effect, b: Effect): Effect {
    Effect(a.ran + b.ran, a.waiting + b.waiting)
  }

  function Inside(cmds: seq<Cmd>): (e: Effect)
    ensures CallbacksSize(e.waiting) <= CmdsSize(cmds)
    decreases CmdsSize(cmds), 2
  {
    if cmds == [] then Effect([], [])
    else
      assert CmdsSize(cmds) == CmdSize(cmds[0]) + CmdsSize(cmds[1..]);
      var first, rest := InsideOne(cmds[0]), Inside(cmds[1..]);
      CallbacksSizeAppend(first.waiting, rest.waiting);
      Then(first, rest)
  }

  /** A nested scope ends inside the outer one: its cleanups run there, and what they submit waits there. */
  function InsideOne(c: Cmd): (e: Effect)
    ensures CallbacksSize(e.waiting) < CmdSize(c)
    decreases CmdSize(c), 1
  {
    match c
    case Submit(cb) =>
      assert [cb][1..] == [];
      Effect([], [cb])
    case WithScope(body) =>
      var e := Inside(body);
      var d := DrainInside(e.waiting);
      Effect(e.ran + d.ran, d.waiting)
    case Release(_) => Effect([], [])
  }

  function DrainInside(cbs: seq<Callback>): (e: Effect)
    ensures CallbacksSize(e.waiting) <= CallbacksSize(cbs)
    decreases CallbacksSize(cbs), 0
  {
    if cbs == [] then Effect([], [])
    else
      var first, rest := Inside(cbs[0].body), DrainInside(cbs[1..]);
      CallbacksSizeAppend(first.waiting, rest.waiting);
      Then(Effect([cbs[0]] + first.ran, first.waiting), rest)
  }

  /** Outside any scope a cleanup runs when it is submitted, and what it submits right after it. */
  function Outside(cmds: seq<Cmd>): seq<Callback>
    decreases CmdsSize(cmds), 2
  {
    if cmds == [] then []
    else
      assert CmdsSize(cmds) == CmdSize(cmds[0]) + CmdsSize(cmds[1..]);
      OutsideOne(cmds[0]) + Outside(cmds[1..])
  }

  function OutsideOne(c: Cmd): seq<Callback>
    decreases CmdSize(c), 1
  {
    match c
    case Submit(cb) => [cb] + Outside(cb.body)
    case WithScope(body) => Inside(body).ran + DrainOutside(Inside(body).waiting)
    case Release(_) => []
  }

  function DrainOutside(cbs: seq<Callback>): seq<Callback>
    decreases CallbacksSize(cbs), 0
  {
    if cbs == [] then [] else [cbs[0]] + Outside(cbs[0].body) + DrainOutside(cbs[1..])
  }

  // ---------------------------------------------------------------------------
  // Texts without releases
  // ---------------------------------------------------------------------------

  predicate NoRelease(cmds: seq<Cmd>)
    decreases cmds
  {
    cmds == [] || (NoReleaseIn(cmds[0]) && NoRelease(cmds[1..]))
  }

  predicate NoReleaseIn(c: Cmd)
    decreases c
  {
    match c
    case Submit(cb) => NoRelease(cb.body)
    case WithScope(body) => NoRelease(body)
    case Release(_) => false
  }

  predicate NoneRelease(cbs: seq<Callback>) {
    forall i :: 0 <= i < |cbs| ==> NoRelease(cbs[i].body)
  }

  lemma {:induction false} WaitingNoRelease(cmds: seq<Cmd>)
    requires NoRelease(cmds)
    ensures NoneRelease(Inside(cmds).waiting)
    decreases CmdsSize(cmds), 2
  {
    if cmds != [] {
      assert CmdsSize(cmds) == CmdSize(cmds[0]) + CmdsSize(cmds[1..]);
      WaitingNoReleaseIn(cmds[0]);
      WaitingNoRelease(cmds[1..]);
    }
  }

  lemma {:induction false} WaitingNoReleaseIn(c: Cmd)
    requires NoReleaseIn(c)
    ensures NoneRelease(InsideOne(c).waiting)
    decreases CmdSize(c), 1
  {
    if c.WithScope? {
      WaitingNoRelease(c.body);
      DrainedNoRelease(Inside(c.body).waiting);
    }
  }

  lemma {:induction false} DrainedNoRelease(cbs: seq<Callback>)
    requires NoneRelease(cbs)
    ensures NoneRelease(DrainInside(cbs).waiting)
    decreases CallbacksSize(cbs), 0
  {
    if cbs != [] {
      WaitingNoRelease(cbs[0].body);
      DrainedNoRelease(cbs[1..]);
    }
  }

  // ---------------------------------------------------------------------------
  // The execution has that effect
  // ---------------------------------------------------------------------------

  /** The effect on a store: the runs are recorded, the waiting ones join the innermost scope. */
  predicate Shows(st: Store, r: Store, e: Effect) {
    && st.live != [] && CallbacksOf(r.ran) == CallbacksOf(st.ran) + e.ran
    && r.live == Init(st.live) + [Scope(Last(st.live).id, Last(st.live).callbacks + e.waiting)]
  }

  lemma ShowsThen(st: Store, m: Store, r: Store, a: Effect, b: Effect)
    requires Shows(st, m, a) && Shows(m, r, b)
    ensures Shows(st, r, Then(a, b))
  {
    assert Init(m.live) == Init(st.live);
    var was, x, y := Last(st.live).callbacks, a.waiting, b.waiting;
    assert (was + x) + y == was + (x + y);
    assert (CallbacksOf(st.ran) + a.ran) + b.ran == CallbacksOf(st.ran) + (a.ran + b.ran);
  }

  lemma ShowsNothing(st: Store)
    requires st.live != []
    ensures Shows(st, st, Effect([], []))
  {
    assert Last(st.live).callbacks + [] == Last(st.live).callbacks;
  }

  lemma ShowsRun(st: Store, id: nat, cb: Callback)
    requires st.live != []
    ensures Shows(st, RunFrom(st, id, cb), Effect([cb], []))
  {
    CallbacksAppend(st.ran, Entry(Some(id), cb));
    assert Last(st.live).callbacks + [] == Last(st.live).callbacks;
  }

  lemma ShowsDefer(st: Store, cb: Callback)
    requires st.live != []
    ensures Shows(st, Defer(st, cb), Effect([], [cb]))
  {
    assert CallbacksOf(st.ran) + [] == CallbacksOf(st.ran);
  }

  lemma {:induction false} ExecutesInside(cmds: seq<Cmd>, st: Store)
    requires NoRelease(cmds) && st.live != []
    ensures Shows(st, Execute(cmds, st), Inside(cmds))
    decreases CmdsSize(cmds), 2
  {
    if cmds == [] {
      ShowsNothing(st);
    } else {
      assert CmdsSize(cmds) == CmdSize(cmds[0]) + CmdsSize(cmds[1..]);
      hide Shows, ExecuteOne, InsideOne;
      var m := ExecuteOne(cmds[0], st);
      ExecutesOneInside(cmds[0], st);
      ExecutesInside(cmds[1..], m);
      ShowsThen(st, m, Execute(cmds[1..], m), InsideOne(cmds[0]), Inside(cmds[1..]));
    }
  }

  lemma {:induction false} ExecutesOneInside(c: Cmd, st: Store)
    requires NoReleaseIn(c) && st.live != []
    ensures Shows(st, ExecuteOne(c, st), InsideOne(c))
    decreases CmdSize(c), 1
  {
    match c {
      case Submit(cb) =>
        ShowsDefer(st, cb);
      case WithScope(body) =>
        var st' := Execute(body, Enter(st));
        ExecutesInside(body, Enter(st));
        WaitingNoRelease(body);
        var e := Inside(body);
        ScopeBody(st, st', e);
        DrainsInside(st.nextId, e.waiting, Leave(st'));
        ScopeEnds(st, Leave(st'), DrainAll(st.nextId, e.waiting, Leave(st')), e, DrainInside(e.waiting));
    }
  }

  /** After the body of a new scope: the outer scopes are as they were, and the new one holds what waits. */
  lemma ScopeBody(st: Store, st': Store, e: Effect)
    requires Shows(Enter(st), st', e)
    ensures st'.live != [] && Last(st'.live) == Scope(st.nextId, e.waiting)
    ensures Leave(st').live == st.live && CallbacksOf(Leave(st').ran) == CallbacksOf(st.ran) + e.ran
  {
    assert Init(Enter(st).live) == st.live && Last(Enter(st).live) == Scope(st.nextId, []);
    assert [] + e.waiting == e.waiting;
    assert Init(st'.live) == st.live;
  }

  lemma ScopeEnds(st: Store, m: Store, r: Store, e: Effect, d: Effect)
    requires st.live != [] && m.live == st.live && CallbacksOf(m.ran) == CallbacksOf(st.ran) + e.ran && Shows(m, r, d)
    ensures Shows(st, r, Effect(e.ran + d.ran, d.waiting))
  {
    assert (CallbacksOf(st.ran) + e.ran) + d.ran == CallbacksOf(st.ran) + (e.ran + d.ran);
  }

  lemma {:induction false} DrainsInside(id: nat, cbs: seq<Callback>, st: Store)
    requires NoneRelease(cbs) && st.live != []
    ensures Shows(st, DrainAll(id, cbs, st), DrainInside(cbs))
    decreases CallbacksSize(cbs), 0
  {
    if cbs == [] {
      ShowsNothing(st);
    } else {
      var run := RunFrom(st, id, cbs[0]);
      var m := Execute(cbs[0].body, run);
      ShowsRun(st, id, cbs[0]);
      ExecutesInside(cbs[0].body, run);
      ShowsThen(st, run, m, Effect([cbs[0]], []), Inside(cbs[0].body));
      DrainsInside(id, cbs[1..], m);
      var first := Inside(cbs[0].body);
      assert Then(Effect([cbs[0]], []), first) == Effect([cbs[0]] + first.ran, first.waiting);
      ShowsThen(st, m, DrainAll(id, cbs[1..], m), Effect([cbs[0]] + first.ran, first.waiting), DrainInside(cbs[1..]));
    }
  }

  /** Outside any scope. */
  predicate Ran(st: Store, r: Store, cbs: seq<Callback>) {
    st.live == [] && r.live == [] && CallbacksOf(r.ran) == CallbacksOf(st.ran) + cbs
  }

  lemma RanThen(st: Store, m: Store, r: Store, a: seq<Callback>, b: seq<Callback>)
    requires Ran(st, m, a) && Ran(m, r, b)
    ensures Ran(st, r, a + b)
  {
    assert (CallbacksOf(st.ran) + a) + b == CallbacksOf(st.ran) + (a + b);
  }

  lemma RanOne(st: Store, id: nat, cb: Callback)
    requires st.live == []
    ensures Ran(st, RunNow(st, cb), [cb]) && Ran(st, RunFrom(st, id, cb), [cb])
  {
    CallbacksAppend(st.ran, Entry(None, cb));
    CallbacksAppend(st.ran, Entry(Some(id), cb));
  }

  lemma {:induction false} ExecutesOutside(cmds: seq<Cmd>, st: Store)
    requires NoRelease(cmds) && st.live == []
    ensures Ran(st, Execute(cmds, st), Outside(cmds))
    decreases CmdsSize(cmds), 2
  {
    if cmds == [] {
      assert CallbacksOf(st.ran) + [] == CallbacksOf(st.ran);
    } else {
      assert CmdsSize(cmds) == CmdSize(cmds[0]) + CmdsSize(cmds[1..]);
      hide Ran, ExecuteOne, OutsideOne;
      var m := ExecuteOne(cmds[0], st);
      ExecutesOneOutside(cmds[0], st);
      assert m.live == [];
      ExecutesOutside(cmds[1..], m);
      RanThen(st, m, Execute(cmds[1..], m), OutsideOne(cmds[0]), Outside(cmds[1..]));
    }
  }

  lemma {:induction false} ExecutesOneOutside(c: Cmd, st: Store)
    requires NoReleaseIn(c) && st.live == []
    ensures Ran(st, ExecuteOne(c, st), OutsideOne(c))
    decreases CmdSize(c), 1
  {
    match c {
      case Submit(cb) =>
        RanOne(st, 0, cb);
        ExecutesOutside(cb.body, RunNow(st, cb));
        RanThen(st, RunNow(st, cb), Execute(cb.body, RunNow(st, cb)), [cb], Outside(cb.body));
      case WithScope(body) =>
        var st' := Execute(body, Enter(st));
        ExecutesInside(body, Enter(st));
        WaitingNoRelease(body);
        var e := Inside(body);
        ScopeBody(st, st', e);
        DrainsOutside(st.nextId, e.waiting, Leave(st'));
        RanThen(st, Leave(st'), DrainAll(st.nextId, e.waiting, Leave(st')), e.ran, DrainOutside(e.waiting));
    }
  }

  lemma {:induction false} DrainsOutside(id: nat, cbs: seq<Callback>, st: Store)
    requires NoneRelease(cbs) && st.live == []
    ensures Ran(st, DrainAll(id, cbs, st), DrainOutside(cbs))
    decreases CallbacksSize(cbs), 0
  {
    if cbs == [] {
      assert CallbacksOf(st.ran) + [] == CallbacksOf(st.ran);
    } else {
      var run := RunFrom(st, id, cbs[0]);
      var m := Execute(cbs[0].body, run);
      RanOne(st, id, cbs[0]);
      ExecutesOutside(cbs[0].body, run);
      RanThen(st, run, m, [cbs[0]], Outside(cbs[0].body));
      DrainsOutside(id, cbs[1..], m);
      RanThen(st, m, DrainAll(id, cbs[1..], m), [cbs[0]] + Outside(cbs[0].body), DrainOutside(cbs[1..]));
    }
  }

  /** The cleanups of a program without releases run in exactly that order. */
  lemma RunsInOrder(cmds: seq<Cmd>)
    requires NoRelease(cmds)
    ensures CallbacksOf(Run(Program(cmds)).ran) == Outside(cmds)
  {
    MachineIsExecution(cmds);
    ExecutesOutside(cmds, EMPTY);
    assert CallbacksOf([]) + Outside(cmds) == Outside(cmds);
  }

  /** Two nested scopes with one cleanup each: the inner one's runs first. */
  lemma InnerScopeFirst(a: nat, b: nat)
    ensures var outer, inner := Callback(a, []), Callback(b, []);
      CallbacksOf(Run(Program([WithScope([Submit(outer), WithScope([Submit(inner)])])])).ran) == [inner, outer]
  {
    var outer, inner := Callback(a, []), Callback(b, []);
    var nested := WithScope([Submit(inner)]);
    LeafOnly(outer);
    LeafOnly(inner);
    TwoCommands(Submit(outer), nested);
    OneCommand(nested);
    var body := [Submit(outer), nested];
    OneCommand(WithScope(body));
    assert NoRelease(body);
    assert InsideOne(nested) == Effect([inner], []);
    assert Inside(body) == Effect([inner], [outer]);
    assert OutsideOne(WithScope(body)) == [inner] + DrainOutside([outer]);
    RunsInOrder([WithScope(body)]);
  }

  lemma LeafOnly(cb: Callback)
    requires cb.body == []
    ensures NoRelease([Submit(cb)]) && Inside([Submit(cb)]) == Effect([], [cb])
    ensures DrainInside([cb]) == Effect([cb], []) && DrainOutside([cb]) == [cb]
  {
    assert [Submit(cb)][1..] == [] && [cb][1..] == [];
    assert Inside([]) == Effect([], []) && Outside([]) == [];
  }

  lemma OneCommand(c: Cmd)
    ensures NoRelease([c]) <==> NoReleaseIn(c)
    ensures Inside([c]) == InsideOne(c) && Outside([c]) == OutsideOne(c)
  {
    assert [c][1..] == [];
    assert Inside([]) == Effect([], []) && Outside([]) == [];
    assert Then(InsideOne(c), Effect([], [])) == InsideOne(c);
  }

  lemma TwoCommands(c: Cmd, d: Cmd)
    ensures NoRelease([c, d]) <==> NoReleaseIn(c) && NoReleaseIn(d)
    ensures Inside([c, d]) == Then(InsideOne(c), InsideOne(d))
  {
    assert [c, d][1..] == [d];
    OneCommand(d);
  }
}
