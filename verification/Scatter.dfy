/** Writing values to cells: in a fixed order to distinct cells, or by interleaved stores. */
module Scatter {

  predicate Distinct(cells: seq<nat>) {
    forall i, j :: 0 <= i < j < |cells| ==> cells[i] != cells[j]
  }

  predicate InRange(cells: seq<nat>, size: nat) {
    forall i :: 0 <= i < |cells| ==> cells[i] < size
  }

  /** `now` is `before` with the first `done` values stored. */
  predicate Scattered<T(==)>(before: seq<T>, now: seq<T>, cells: seq<nat>, values: seq<T>, done: nat)
    requires InRange(cells, |before|) && |values| == |cells| && done <= |cells|
  {
    && |now| == |before|
    && (forall s :: 0 <= s < done ==> now[cells[s]] == values[s])
    && (forall k :: 0 <= k < |before| && k !in cells[..done] ==> now[k] == before[k])
  }

  datatype Store<T> = Store(cell: nat, value: T)

  predicate StoresInside<T>(stores: seq<Store<T>>, size: nat) {
    forall i :: 0 <= i < |stores| ==> stores[i].cell < size
  }

  /** Stores to one cell store one value. */
  predicate StoresAgree<T(==)>(stores: seq<Store<T>>) {
    forall i, j :: 0 <= i < j < |stores| && stores[i].cell == stores[j].cell ==> stores[i].value == stores[j].value
  }

  /** The memory after the stores. */
  function StoreAll<T>(memory: seq<T>, stores: seq<Store<T>>): (r: seq<T>)
    requires StoresInside(stores, |memory|)
    ensures |r| == |memory|
    decreases |stores|
  {
    if stores == [] then memory
    else
      var n := |stores| - 1;
      StoreAll(memory, stores[..n])[stores[n].cell := stores[n].value]
  }

  /** Whatever the order, every cell stored to ends with its value and every other cell is unchanged. */
  lemma {:induction false} StoresSettle<T>(memory: seq<T>, stores: seq<Store<T>>)
    requires StoresInside(stores, |memory|) && StoresAgree(stores)
    ensures forall i :: 0 <= i < |stores| ==> StoreAll(memory, stores)[stores[i].cell] == stores[i].value
    ensures forall k :: 0 <= k < |memory| && (forall i :: 0 <= i < |stores| ==> stores[i].cell != k) ==>
              StoreAll(memory, stores)[k] == memory[k]
    decreases |stores|
  {
    if stores != [] {
      var n := |stores| - 1;
      StoresSettle(memory, stores[..n]);
      assert forall i :: 0 <= i < n ==> stores[..n][i] == stores[i];
    }
  }
}
