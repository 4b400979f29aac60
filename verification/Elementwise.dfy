/** The element-wise addition loop: its contiguous fast path, and why its iterations may run in
    parallel. The three tensors are views of one memory, so in-place use and broadcast (stride 0)
    inputs are covered; `plus` is the addition of the element type with its casts. */
module Elementwise {
  import opened Layout

  /** The cells iteration `i` reads and writes, for every `i`. */
  datatype Plan = Plan(input: seq<nat>, other: seq<nat>, out: seq<nat>) {
    predicate Valid(size: nat) {
      && |input| == |other| == |out|
      && forall i :: 0 <= i < |out| ==> input[i] < size && other[i] < size && out[i] < size
    }

    /** No iteration writes a cell that another iteration writes or reads. */
    predicate NoInterference()
      requires |input| == |other| == |out|
    {
      forall i, j :: 0 <= i < |out| && 0 <= j < |out| && i != j ==>
        out[i] != out[j] && out[i] != input[j] && out[i] != other[j]
    }
  }

  /** `after` holds the sums in the output's cells and is `before` everywhere else. */
  predicate IsSum<T(==)>(before: seq<T>, after: seq<T>, p: Plan, plus: (T, T) -> T)
    requires p.Valid(|before|)
  {
    && |after| == |before|
    && (forall i :: 0 <= i < |p.out| ==> after[p.out[i]] == plus(before[p.input[i]], before[p.other[i]]))
    && (forall k :: 0 <= k < |before| && k !in p.out ==> after[k] == before[k])
  }

  /** The specification leaves no freedom, so everything meeting it computes the same memory. */
  lemma SumUnique<T>(before: seq<T>, x: seq<T>, y: seq<T>, p: Plan, plus: (T, T) -> T)
    requires p.Valid(|before|) && IsSum(before, x, p, plus) && IsSum(before, y, p, plus)
    ensures x == y
  {
    forall k | 0 <= k < |before| ensures x[k] == y[k] {
      if k in p.out {
        var i :| 0 <= i < |p.out| && p.out[i] == k;
      }
    }
  }

  /** The memory is the coordinate-wise sum: tuple by tuple, whatever the strides. */
  lemma SumByCoordinates<T>(before: seq<T>, after: seq<T>, shape: Shape, input: View, other: View, out: View,
      plus: (T, T) -> T, c: Coords)
    requires Fits(input, shape, |before|) && Fits(other, shape, |before|) && Fits(out, shape, |before|)
    requires IsSum(before, after, PlanOf(shape, input, other, out, |before|), plus) && InBounds(c, shape)
    ensures 0 <= input.base + Dot(c, input.strides) < |before|
    ensures 0 <= other.base + Dot(c, other.strides) < |before|
    ensures 0 <= out.base + Dot(c, out.strides) < |before|
    ensures after[out.base + Dot(c, out.strides)]
         == plus(before[input.base + Dot(c, input.strides)], before[other.base + Dot(c, other.strides)])
  {
    DecodeFlatten(c, shape);
    var i := Flatten(c, shape);
    CellsAt(input, shape, |before|, c);
    CellsAt(other, shape, |before|, c);
    CellsAt(out, shape, |before|, c);
  }

  function PlanOf(shape: Shape, input: View, other: View, out: View, size: nat): (p: Plan)
    requires Fits(input, shape, size) && Fits(other, shape, size) && Fits(out, shape, size)
    ensures p.Valid(size) && |p.out| == Volume(shape)
  {
    Plan(Cells(input, shape, size), Cells(other, shape, size), Cells(out, shape, size))
  }

  /** Output strides nested in some order of the dimensions, and cells disjoint from the inputs',
      rule out interference. */
  lemma DisjointViewsDoNotInterfere(shape: Shape, input: View, other: View, out: View, size: nat, order: seq<nat>)
    requires Fits(input, shape, size) && Fits(other, shape, size) && Fits(out, shape, size)
    requires Positive(shape) && IsOrder(order, |shape|) && Positive(Permuted(shape, order))
    requires Nested(Permuted(shape, order), Permuted(out.strides, order))
    requires forall k :: k in Cells(out, shape, size) ==> k !in Cells(input, shape, size) && k !in Cells(other, shape, size)
    ensures PlanOf(shape, input, other, out, size).NoInterference()
  {
    NestedInjective(shape, out.strides, order);
    var p := PlanOf(shape, input, other, out, size);
    forall i, j | 0 <= i < |p.out| && 0 <= j < |p.out| && i != j
      ensures p.out[i] != p.out[j] && p.out[i] != p.input[j] && p.out[i] != p.other[j]
    {
      assert Offset(i, shape, out.strides) != Offset(j, shape, out.strides);
      assert p.out[i] in Cells(out, shape, size);
      assert p.input[j] in Cells(input, shape, size) && p.other[j] in Cells(other, shape, size);
    }
  }

  // ---------------------------------------------------------------------------
  // The loop, run in any order of its iterations
  // ---------------------------------------------------------------------------

  method GetIdx(i: nat, isContiguous: bool, shape: Shape, strides: Strides) returns (idx: int)
    requires Positive(shape) && |strides| == |shape| && i < Volume(shape)
    requires isContiguous ==> strides == RowMajor(shape)
    ensures idx == Offset(i, shape, strides)
  {
    if isContiguous {
      ContiguousOffset(i, shape);
      idx := i;
    } else {
      idx := IndexToOffset(i, shape, strides);
    }
  }

  /** The memory after the iterations of `order[..done]`. */
  predicate Progress<T(==)>(before: seq<T>, now: seq<T>, p: Plan, plus: (T, T) -> T, order: seq<nat>, done: nat)
    requires p.Valid(|before|) && IsOrder(order, |p.out|) && done <= |order|
  {
    && |now| == |before|
    && (forall s :: 0 <= s < done ==> now[p.out[order[s]]] == plus(before[p.input[order[s]]], before[p.other[order[s]]]))
    && (forall k :: 0 <= k < |before| && (forall s :: 0 <= s < done ==> p.out[order[s]] != k) ==> now[k] == before[k])
  }

  /** Reading, adding and storing at one more index extends the progress. */
  lemma ProgressStep<T>(before: seq<T>, now: seq<T>, p: Plan, plus: (T, T) -> T, order: seq<nat>, step: nat)
    requires p.Valid(|before|) && p.NoInterference()
    requires IsOrder(order, |p.out|) && step < |order| && Progress(before, now, p, plus, order, step)
    ensures var i := order[step];
      Progress(before, now[p.out[i] := plus(now[p.input[i]], now[p.other[i]])], p, plus, order, step + 1)
  {
    var i := order[step];
    assert forall s :: 0 <= s < step ==> order[s] != i;
    assert now[p.input[i]] == before[p.input[i]] && now[p.other[i]] == before[p.other[i]];
    var after := now[p.out[i] := plus(now[p.input[i]], now[p.other[i]])];
    forall k | 0 <= k < |before| && (forall s :: 0 <= s < step + 1 ==> p.out[order[s]] != k)
      ensures after[k] == before[k]
    {
      assert p.out[order[step]] != k;
    }
  }

  /** The cell of one operand's element. */
  method CellOf(i: nat, isContiguous: bool, shape: Shape, v: View, size: nat) returns (cell: nat)
    requires Fits(v, shape, size) && Positive(shape) && i < Volume(shape)
    requires isContiguous ==> v.strides == RowMajor(shape)
    ensures cell < size && cell == Cells(v, shape, size)[i]
  {
    var idx := GetIdx(i, isContiguous, shape, v.strides);
    cell := v.base + idx;
  }

  /** One iteration of the loop body. */
  method Iterate<T>(mem: array<T>, shape: Shape, input: View, other: View, out: View, plus: (T, T) -> T, i: nat,
      isInputContiguous: bool, isOtherContiguous: bool, isOutContiguous: bool)
    requires Fits(input, shape, mem.Length) && Fits(other, shape, mem.Length) && Fits(out, shape, mem.Length)
    requires isInputContiguous ==> input.strides == RowMajor(shape)
    requires isOtherContiguous ==> other.strides == RowMajor(shape)
    requires isOutContiguous ==> out.strides == RowMajor(shape)
    requires Positive(shape) && i < Volume(shape)
    modifies mem
    ensures var p := PlanOf(shape, input, other, out, mem.Length);
      mem[..] == old(mem[..])[p.out[i] := plus(old(mem[p.input[i]]), old(mem[p.other[i]]))]
  {
    hide Fits;
    var inputCell := CellOf(i, isInputContiguous, shape, input, mem.Length);
    var otherCell := CellOf(i, isOtherContiguous, shape, other, mem.Length);
    var outCell := CellOf(i, isOutContiguous, shape, out, mem.Length);
    mem[outCell] := plus(mem[inputCell], mem[otherCell]);
  }

  method ContiguityFlag(shape: Shape, strides: Strides) returns (r: bool)
    requires |strides| == |shape|
    ensures r ==> strides == RowMajor(shape)
  {
    r := IsContiguous(shape, strides);
  }

  /** `omp parallel for` promises no order, so the iterations run in an arbitrary one. */
  method Compute<T(==)>(mem: array<T>, shape: Shape, input: View, other: View, out: View, plus: (T, T) -> T,
      order: seq<nat>)
    requires Fits(input, shape, mem.Length) && Fits(other, shape, mem.Length) && Fits(out, shape, mem.Length)
    requires PlanOf(shape, input, other, out, mem.Length).NoInterference()
    requires IsOrder(order, Volume(shape))
    modifies mem
    ensures IsSum(old(mem[..]), mem[..], PlanOf(shape, input, other, out, mem.Length), plus)
  {
    var isInputContiguous := ContiguityFlag(shape, input.strides);
    var isOtherContiguous := ContiguityFlag(shape, other.strides);
    var isOutContiguous := ContiguityFlag(shape, out.strides);
    ghost var before := mem[..];
    ghost var p := PlanOf(shape, input, other, out, mem.Length);
    for step := 0 to |order|
      invariant Progress(before, mem[..], p, plus, order, step)
    {
      ProgressStep(before, mem[..], p, plus, order, step);
      VolumePositive(shape);
      Iterate(mem, shape, input, other, out, plus, order[step], isInputContiguous, isOtherContiguous, isOutContiguous);
    }
    ProgressComplete(before, mem[..], p, plus, order);
  }

  lemma ProgressComplete<T>(before: seq<T>, now: seq<T>, p: Plan, plus: (T, T) -> T, order: seq<nat>)
    requires p.Valid(|before|) && IsOrder(order, |p.out|)
    requires Progress(before, now, p, plus, order, |order|)
    ensures IsSum(before, now, p, plus)
  {
    forall i | 0 <= i < |p.out|
      ensures now[p.out[i]] == plus(before[p.input[i]], before[p.other[i]])
    {
      assert i in order;
      var s :| 0 <= s < |order| && order[s] == i;
    }
  }

  // ---------------------------------------------------------------------------
  // The loop, interleaved at the level of loads and stores
  // ---------------------------------------------------------------------------

  datatype Event = LoadInput(i: nat) | LoadOther(i: nat) | Store(i: nat)

  /** The memory, the values loaded so far, and the iterations finished. */
  datatype Machine<T> = Machine(mem: seq<T>, inputs: map<nat, T>, others: map<nat, T>, stored: set<nat>)

  predicate Enabled<T>(m: Machine<T>, e: Event, n: nat) {
    match e
    case LoadInput(i) => i < n && i !in m.inputs
    case LoadOther(i) => i < n && i !in m.others
    case Store(i) => i < n && i in m.inputs && i in m.others && i !in m.stored
  }

  function Step<T>(m: Machine<T>, p: Plan, plus: (T, T) -> T, e: Event): (r: Machine<T>)
    requires p.Valid(|m.mem|) && Enabled(m, e, |p.out|)
  {
    match e
    case LoadInput(i) => m.(inputs := m.inputs[i := m.mem[p.input[i]]])
    case LoadOther(i) => m.(others := m.others[i := m.mem[p.other[i]]])
    case Store(i) => m.(mem := m.mem[p.out[i] := plus(m.inputs[i], m.others[i])], stored := m.stored + {i})
  }

  /** Loads hold values of the initial memory; exactly the stored iterations have written. */
  predicate Consistent<T(==)>(before: seq<T>, m: Machine<T>, p: Plan, plus: (T, T) -> T)
    requires p.Valid(|before|)
  {
    && |m.mem| == |before|
    && m.stored <= m.inputs.Keys && m.stored <= m.others.Keys
    && (forall i :: i in m.inputs ==> i < |p.out| && m.inputs[i] == before[p.input[i]])
    && (forall i :: i in m.others ==> i < |p.out| && m.others[i] == before[p.other[i]])
    && (forall i :: i in m.stored ==> m.mem[p.out[i]] == plus(m.inputs[i], m.others[i]))
    && (forall k :: 0 <= k < |before| && (forall i :: i in m.stored ==> p.out[i] != k) ==> m.mem[k] == before[k])
  }

  lemma LoadConsistent<T>(before: seq<T>, m: Machine<T>, p: Plan, plus: (T, T) -> T, e: Event)
    requires p.Valid(|before|) && p.NoInterference() && !e.Store?
    requires Consistent(before, m, p, plus) && Enabled(m, e, |p.out|)
    ensures Consistent(before, Step(m, p, plus, e), p, plus)
  {
    if e.LoadInput? {
      assert forall j :: j in m.stored ==> j in m.inputs && j < |p.out| && j != e.i;
      assert m.mem[p.input[e.i]] == before[p.input[e.i]];
    } else {
      assert forall j :: j in m.stored ==> j in m.others && j < |p.out| && j != e.i;
      assert m.mem[p.other[e.i]] == before[p.other[e.i]];
    }
  }

  /** A store changes no cell that another iteration has written, and no cell but its own. */
  lemma StoreApart<T>(before: seq<T>, m: Machine<T>, p: Plan, plus: (T, T) -> T, i: nat, x: T)
    requires p.Valid(|before|) && p.NoInterference() && Consistent(before, m, p, plus) && i < |p.out| && i !in m.stored
    ensures forall j :: j in m.stored ==> m.mem[p.out[i] := x][p.out[j]] == plus(m.inputs[j], m.others[j])
    ensures forall k :: 0 <= k < |before| && (forall j :: j in m.stored + {i} ==> p.out[j] != k) ==>
              m.mem[p.out[i] := x][k] == before[k]
  {
    forall j | j in m.stored ensures p.out[j] != p.out[i] {
      assert j in m.inputs && j < |p.out|;
    }
    forall k | 0 <= k < |before| && (forall j :: j in m.stored + {i} ==> p.out[j] != k)
      ensures m.mem[p.out[i] := x][k] == before[k]
    {
      assert i in m.stored + {i};
      assert forall j :: j in m.stored ==> j in m.stored + {i};
    }
  }

  lemma StoreConsistent<T>(before: seq<T>, m: Machine<T>, p: Plan, plus: (T, T) -> T, i: nat)
    requires p.Valid(|before|) && p.NoInterference()
    requires Consistent(before, m, p, plus) && Enabled(m, Store(i), |p.out|)
    ensures Consistent(before, Step(m, p, plus, Store(i)), p, plus)
  {
    hide Plan.NoInterference;
    StoreApart(before, m, p, plus, i, plus(m.inputs[i], m.others[i]));
  }

  lemma StepConsistent<T>(before: seq<T>, m: Machine<T>, p: Plan, plus: (T, T) -> T, e: Event)
    requires p.Valid(|before|) && p.NoInterference()
    requires Consistent(before, m, p, plus) && Enabled(m, e, |p.out|)
    ensures Consistent(before, Step(m, p, plus, e), p, plus)
  {
    if e.Store? {
      StoreConsistent(before, m, p, plus, e.i);
    } else {
      LoadConsistent(before, m, p, plus, e);
    }
  }

  /** A run from `m` to `final`: each event is enabled when it happens. */
  predicate Runs<T(==)>(m: Machine<T>, p: Plan, plus: (T, T) -> T, events: seq<Event>, final: Machine<T>)
    decreases |events|
  {
    if events == [] then final == m
    else
      && p.Valid(|m.mem|) && Enabled(m, events[0], |p.out|)
      && Runs(Step(m, p, plus, events[0]), p, plus, events[1..], final)
  }

  lemma {:induction false} RunConsistent<T>(before: seq<T>, m: Machine<T>, p: Plan, plus: (T, T) -> T,
      events: seq<Event>, final: Machine<T>)
    requires p.Valid(|before|) && p.NoInterference()
    requires Consistent(before, m, p, plus) && Runs(m, p, plus, events, final)
    ensures Consistent(before, final, p, plus)
    decreases |events|
  {
    if events != [] {
      StepConsistent(before, m, p, plus, events[0]);
      RunConsistent(before, Step(m, p, plus, events[0]), p, plus, events[1..], final);
    }
  }

  /** Any interleaving of the iterations' loads and stores that finishes them all leaves the same
      memory: the sum. */
  lemma AnyInterleavingSums<T>(before: seq<T>, p: Plan, plus: (T, T) -> T, events: seq<Event>, final: Machine<T>)
    requires p.Valid(|before|) && p.NoInterference()
    requires Runs(Machine(before, map[], map[], {}), p, plus, events, final)
    requires forall i: nat :: i < |p.out| ==> i in final.stored
    ensures IsSum(before, final.mem, p, plus)
  {
    RunConsistent(before, Machine(before, map[], map[], {}), p, plus, events, final);
    forall i | 0 <= i < |p.out|
      ensures final.mem[p.out[i]] == plus(before[p.input[i]], before[p.other[i]])
    {
      assert i in final.stored && i in final.inputs;
    }
    forall k | 0 <= k < |before| && k !in p.out ensures final.mem[k] == before[k] {
      forall i | i in final.stored ensures p.out[i] != k {
        assert i in final.inputs;
      }
    }
  }
}
