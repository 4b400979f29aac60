/** Operator cache keys: what `CacheKey::Build` absorbs, when two keys compare equal, and what equal
    keys say about the arguments. Hashing is a parameter: how a value updates a seed. */
module CacheKeys {

  /** A tensor: its data pointer, and its metadata. */
  datatype Tensor = Tensor(data: int, shape: seq<nat>, dtype: int, device: int, strides: seq<int>)

  /** A call argument: a tensor, a vector of tensors, or any other value. */
  datatype Arg = One(tensor: Tensor) | Many(tensors: seq<Tensor>) | Scalar(value: int)

  /** `mix(seed, h)` is the seed after combining a hash `h`; `atom` hashes single values. */
  datatype Hashing = Hashing(mix: (nat, nat) -> nat, atom: int -> nat)

  datatype Key = Key(hash: nat, tensors: seq<Tensor>, scalarHash: nat)

  /** `std::equal_to<Tensor>`: everything but the data pointer. */
  predicate SameTensor(a: Tensor, b: Tensor) {
    a.dtype == b.dtype && a.device == b.device && a.shape == b.shape && a.strides == b.strides
  }

  predicate SameTensors(a: seq<Tensor>, b: seq<Tensor>) {
    |a| == |b| && forall i :: 0 <= i < |a| ==> SameTensor(a[i], b[i])
  }

  predicate SameArg(a: Arg, b: Arg) {
    match a
    case One(t) => b.One? && SameTensor(t, b.tensor)
    case Many(ts) => b.Many? && SameTensors(ts, b.tensors)
    case Scalar(v) => b.Scalar? && v == b.value
  }

  /** The arguments agree in metadata and scalars. */
  predicate SameArgs(a: seq<Arg>, b: seq<Arg>) {
    |a| == |b| && forall i :: 0 <= i < |a| ==> SameArg(a[i], b[i])
  }

  // ---------------------------------------------------------------------------
  // Building a key
  // ---------------------------------------------------------------------------

  function MixAll(h: Hashing, seed: nat, values: seq<int>): nat
    decreases |values|
  {
    if values == [] then seed else MixAll(h, h.mix(seed, h.atom(values[0])), values[1..])
  }

  /** `std::hash<Tensor>`: sizes, data type, device, strides. */
  function HashTensor(h: Hashing, t: Tensor): nat {
    MixAll(h, MixAll(h, 0, t.shape) , [t.dtype, t.device] + t.strides)
  }

  function MixTensors(h: Hashing, seed: nat, ts: seq<Tensor>): nat
    decreases |ts|
  {
    if ts == [] then seed else MixTensors(h, h.mix(seed, HashTensor(h, ts[0])), ts[1..])
  }

  function Absorb(h: Hashing, key: Key, arg: Arg): Key {
    match arg
    case One(t) => Key(h.mix(key.hash, HashTensor(h, t)), key.tensors + [t], key.scalarHash)
    case Many(ts) => Key(MixTensors(h, h.mix(key.hash, h.atom(|ts|)), ts), key.tensors + ts, key.scalarHash)
    case Scalar(v) => Key(h.mix(key.hash, h.atom(v)), key.tensors, h.mix(key.scalarHash, h.atom(v)))
  }

  function AbsorbAll(h: Hashing, key: Key, args: seq<Arg>): Key
    decreases |args|
  {
    if args == [] then key else AbsorbAll(h, Absorb(h, key, args[0]), args[1..])
  }

  function BuildKey(h: Hashing, args: seq<Arg>): Key {
    AbsorbAll(h, Key(0, [], 0), args)
  }

  /** The key under construction. */
  class CacheKey {
    var hash: nat
    var tensors: seq<Tensor>
    var scalarHash: nat

    ghost function Value(): Key
      reads this
    {
      Key(hash, tensors, scalarHash)
    }

    constructor ()
      ensures Value() == Key(0, [], 0)
    {
      hash, tensors, scalarHash := 0, [], 0;
    }

    method AbsorbTensor(h: Hashing, t: Tensor)
      modifies this
      ensures Value() == Absorb(h, old(Value()), One(t))
    {
      hash := h.mix(hash, HashTensor(h, t));
      tensors := tensors + [t];
    }

    method AbsorbTensors(h: Hashing, ts: seq<Tensor>)
      modifies this
      ensures Value() == Absorb(h, old(Value()), Many(ts))
    {
      hash := h.mix(hash, h.atom(|ts|));
      for i := 0 to |ts|
        invariant MixTensors(h, hash, ts[i..]) == MixTensors(h, h.mix(old(hash), h.atom(|ts|)), ts)
        invariant tensors == old(tensors) + ts[..i] && scalarHash == old(scalarHash)
      {
        assert ts[i..][0] == ts[i] && ts[i..][1..] == ts[i + 1..];
        hash := h.mix(hash, HashTensor(h, ts[i]));
        tensors := tensors + [ts[i]];
      }
    }

    method AbsorbScalar(h: Hashing, v: int)
      modifies this
      ensures Value() == Absorb(h, old(Value()), Scalar(v))
    {
      hash := h.mix(hash, h.atom(v));
      scalarHash := h.mix(scalarHash, h.atom(v));
    }
  }

  /** `CacheKey::Build`, absorbing the arguments from left to right. */
  method Build(h: Hashing, args: seq<Arg>) returns (key: CacheKey)
    ensures fresh(key) && key.Value() == BuildKey(h, args)
  {
    key := new CacheKey();
    assert args[0..] == args;
    for i := 0 to |args|
      invariant fresh(key) && AbsorbAll(h, key.Value(), args[i..]) == BuildKey(h, args)
    {
      assert args[i..][0] == args[i] && args[i..][1..] == args[i + 1..];
      match args[i]
      case One(t) => key.AbsorbTensor(h, t);
      case Many(ts) => key.AbsorbTensors(h, ts);
      case Scalar(v) => key.AbsorbScalar(h, v);
    }
  }

  predicate KeysEqual(a: Key, b: Key) {
    a.scalarHash == b.scalarHash && SameTensors(a.tensors, b.tensors)
  }

  /** `std::equal_to<CacheKey>`. */
  method EqualTo(a: Key, b: Key) returns (r: bool)
    ensures r <==> KeysEqual(a, b)
  {
    if a.scalarHash != b.scalarHash {
      return false;
    }
    if |a.tensors| != |b.tensors| {
      return false;
    }
    for i := 0 to |a.tensors|
      invariant forall j :: 0 <= j < i ==> SameTensor(a.tensors[j], b.tensors[j])
    {
      if !SameTensor(a.tensors[i], b.tensors[i]) {
        return false;
      }
    }
    r := true;
  }

  // ---------------------------------------------------------------------------
  // What a key remembers
  // ---------------------------------------------------------------------------

  /** All tensors of the call, in order. */
  function Flatten(args: seq<Arg>): seq<Tensor> {
    if args == [] then []
    else (match args[0] case One(t) => [t] case Many(ts) => ts case Scalar(_) => []) + Flatten(args[1..])
  }

  function Scalars(args: seq<Arg>): seq<int> {
    if args == [] then []
    else (if args[0].Scalar? then [args[0].value] else []) + Scalars(args[1..])
  }

  lemma {:induction false} KeyParts(h: Hashing, key: Key, args: seq<Arg>)
    ensures AbsorbAll(h, key, args).tensors == key.tensors + Flatten(args)
    ensures AbsorbAll(h, key, args).scalarHash == MixAll(h, key.scalarHash, Scalars(args))
    decreases |args|
  {
    hide HashTensor, MixTensors;
    if args != [] {
      var key' := Absorb(h, key, args[0]);
      KeyParts(h, key', args[1..]);
      var rest := Scalars(args[1..]);
      if args[0].Scalar? {
        assert ([args[0].value] + rest)[1..] == rest;
      } else {
        assert [] + rest == rest;
      }
    }
  }

  /** The parameter signature: for each argument which kind it is. */
  datatype Kind = Tensor1 | TensorVector | Other

  function KindOf(arg: Arg): Kind {
    match arg case One(_) => Tensor1 case Many(_) => TensorVector case Scalar(_) => Other
  }

  predicate HasSignature(args: seq<Arg>, signature: seq<Kind>) {
    |args| == |signature| && forall i :: 0 <= i < |args| ==> KindOf(args[i]) == signature[i]
  }

  function Vectors(signature: seq<Kind>): nat {
    if signature == [] then 0 else (if signature[0] == TensorVector then 1 else 0) + Vectors(signature[1..])
  }

  /** Calls of the same signature with the same tensors, read in one row, and the same scalars. */
  predicate Indistinct(a: seq<Arg>, b: seq<Arg>) {
    SameTensors(Flatten(a), Flatten(b)) && Scalars(a) == Scalars(b)
  }

  lemma SameTensorsAppend(a: seq<Tensor>, b: seq<Tensor>, a': seq<Tensor>, b': seq<Tensor>)
    requires |a| == |a'|
    ensures SameTensors(a + b, a' + b') <==> SameTensors(a, a') && SameTensors(b, b')
  {
    if SameTensors(a + b, a' + b') {
      forall i | 0 <= i < |a| ensures SameTensor(a[i], a'[i]) {
        assert (a + b)[i] == a[i] && (a' + b')[i] == a'[i];
      }
      forall i | 0 <= i < |b| ensures SameTensor(b[i], b'[i]) {
        assert (a + b)[|a| + i] == b[i] && (a' + b')[|a| + i] == b'[i];
      }
    }
  }

  /** Without a vector the number of tensors is fixed by the signature. */
  lemma {:induction false} FlattenLength(a: seq<Arg>, b: seq<Arg>, signature: seq<Kind>)
    requires HasSignature(a, signature) && HasSignature(b, signature) && Vectors(signature) == 0
    ensures |Flatten(a)| == |Flatten(b)|
    decreases |signature|
  {
    if signature != [] {
      assert KindOf(a[0]) == signature[0] && KindOf(b[0]) == signature[0];
      RestHasSignature(a, signature);
      RestHasSignature(b, signature);
      FlattenLength(a[1..], b[1..], signature[1..]);
    }
  }

  lemma RestHasSignature(a: seq<Arg>, signature: seq<Kind>)
    requires HasSignature(a, signature) && signature != []
    ensures HasSignature(a[1..], signature[1..])
  {
  }

  lemma {:induction false} SameArgsIndistinct(a: seq<Arg>, b: seq<Arg>)
    requires SameArgs(a, b)
    ensures Indistinct(a, b)
    decreases |a|
  {
    if a != [] {
      assert SameArg(a[0], b[0]);
      SameArgsIndistinct(a[1..], b[1..]);
      SameTensorsAppend(HeadTensors(a), Flatten(a[1..]), HeadTensors(b), Flatten(b[1..]));
    }
  }

  function HeadTensors(args: seq<Arg>): seq<Tensor>
    requires args != []
  {
    match args[0] case One(t) => [t] case Many(ts) => ts case Scalar(_) => []
  }

  lemma SameArgsCons(a: seq<Arg>, b: seq<Arg>)
    requires a != [] && b != [] && SameArg(a[0], b[0]) && SameArgs(a[1..], b[1..])
    ensures SameArgs(a, b)
  {
    hide SameArg;
    assert |a| == |a[1..]| + 1;
    forall i | 0 <= i < |a| ensures SameArg(a[i], b[i]) {
      if i > 0 {
        assert a[i] == a[1..][i - 1] && b[i] == b[1..][i - 1];
      }
    }
  }

  lemma HeadsAgree(a: seq<Arg>, b: seq<Arg>)
    requires a != [] && b != [] && KindOf(a[0]) == KindOf(b[0]) && SameTensors(HeadTensors(a), HeadTensors(b))
    requires a[0].Scalar? ==> a[0].value == b[0].value
    ensures SameArg(a[0], b[0])
  {
    if a[0].One? {
      assert HeadTensors(a)[0] == a[0].tensor && HeadTensors(b)[0] == b[0].tensor;
    }
  }

  /** With at most one vector the row of tensors can be cut in only one way. */
  lemma {:induction false} IndistinctSameArgs(a: seq<Arg>, b: seq<Arg>, signature: seq<Kind>)
    requires HasSignature(a, signature) && HasSignature(b, signature) && Vectors(signature) <= 1 && Indistinct(a, b)
    ensures SameArgs(a, b)
    decreases |signature|
  {
    if signature != [] {
      assert KindOf(a[0]) == signature[0] && KindOf(b[0]) == signature[0];
      RestHasSignature(a, signature);
      RestHasSignature(b, signature);
      if signature[0] == TensorVector {
        FlattenLength(a[1..], b[1..], signature[1..]);
      }
      assert |HeadTensors(a)| == |HeadTensors(b)|;
      SameTensorsAppend(HeadTensors(a), Flatten(a[1..]), HeadTensors(b), Flatten(b[1..]));
      ScalarsRest(a, b);
      IndistinctSameArgs(a[1..], b[1..], signature[1..]);
      HeadsAgree(a, b);
      SameArgsCons(a, b);
    }
  }

  lemma ScalarsRest(a: seq<Arg>, b: seq<Arg>)
    requires a != [] && b != [] && KindOf(a[0]) == KindOf(b[0]) && Scalars(a) == Scalars(b)
    ensures Scalars(a[1..]) == Scalars(b[1..])
    ensures a[0].Scalar? ==> a[0].value == b[0].value
  {
    assert Scalars(a) == (if a[0].Scalar? then [a[0].value] else []) + Scalars(a[1..]);
    assert Scalars(b) == (if b[0].Scalar? then [b[0].value] else []) + Scalars(b[1..]);
    if a[0].Scalar? {
      assert Scalars(a)[0] == a[0].value && Scalars(b)[0] == b[0].value;
      assert Scalars(a)[1..] == Scalars(a[1..]) && Scalars(b)[1..] == Scalars(b[1..]);
    } else {
      assert Scalars(a) == Scalars(a[1..]) && Scalars(b) == Scalars(b[1..]);
    }
  }

  /** If the scalar hashes of the two calls do not collide and the signature has at most one vector, the
      keys are equal exactly when all arguments agree in metadata and scalars. */
  lemma EqualKeysExactly(h: Hashing, a: seq<Arg>, b: seq<Arg>, signature: seq<Kind>)
    requires HasSignature(a, signature) && HasSignature(b, signature) && Vectors(signature) <= 1
    requires MixAll(h, 0, Scalars(a)) == MixAll(h, 0, Scalars(b)) ==> Scalars(a) == Scalars(b)
    ensures KeysEqual(BuildKey(h, a), BuildKey(h, b)) <==> SameArgs(a, b)
  {
    KeyParts(h, Key(0, [], 0), a);
    KeyParts(h, Key(0, [], 0), b);
    assert [] + Flatten(a) == Flatten(a) && [] + Flatten(b) == Flatten(b);
    if SameArgs(a, b) {
      SameArgsIndistinct(a, b);
    }
    if KeysEqual(BuildKey(h, a), BuildKey(h, b)) {
      IndistinctSameArgs(a, b, signature);
    }
  }

  /** Two calls that differ and have equal keys. */
  ghost predicate Conflated(h: Hashing, signature: seq<Kind>, a: seq<Arg>, b: seq<Arg>) {
    && HasSignature(a, signature) && HasSignature(b, signature) && Scalars(a) == Scalars(b)
    && KeysEqual(BuildKey(h, a), BuildKey(h, b)) && !SameArgs(a, b)
  }

  /** At most one vector is what it takes: with two or more, some calls that differ have equal keys. */
  lemma SignatureExactly(h: Hashing, signature: seq<Kind>)
    ensures (exists a, b :: Conflated(h, signature, a, b)) <==> Vectors(signature) >= 2
  {
    if Vectors(signature) >= 2 {
      var a, b := TwoVectorsConflate(h, signature);
    } else {
      forall a, b | HasSignature(a, signature) && HasSignature(b, signature) && Scalars(a) == Scalars(b)
        ensures !Conflated(h, signature, a, b)
      {
        EqualKeysExactly(h, a, b, signature);
      }
    }
  }

  lemma TwoVectorsConflate(h: Hashing, signature: seq<Kind>) returns (a: seq<Arg>, b: seq<Arg>)
    requires Vectors(signature) >= 2
    ensures Conflated(h, signature, a, b)
  {
    var i, j := TwoVectors(signature);
    a, b := Sample(signature, i), Sample(signature, j);
    SamplesConflate(h, signature, i, j);
  }

  /** One tensor in the one vector, or the same tensor in the other. */
  lemma SamplesConflate(h: Hashing, signature: seq<Kind>, i: nat, j: nat)
    requires i < j < |signature| && signature[i] == TensorVector && signature[j] == TensorVector
    ensures Conflated(h, signature, Sample(signature, i), Sample(signature, j))
  {
    var a, b := Sample(signature, i), Sample(signature, j);
    SampleFlattens(signature, i);
    SampleFlattens(signature, j);
    assert a[i] == Many([T0]) && b[i] == Many([]);
    assert !SameArg(a[i], b[i]);
    hide Sample, Flatten, Scalars, SameArg, HasSignature;
    assert SameTensors(Flatten(a), Flatten(b));
    KeyParts(h, Key(0, [], 0), a);
    KeyParts(h, Key(0, [], 0), b);
    assert [] + Flatten(a) == Flatten(a) && [] + Flatten(b) == Flatten(b);
  }

  const T0 := Tensor(0, [1], 0, 0, [1])

  /** A call of the signature with one tensor in the vector at `at` and none in the others. */
  function Sample(signature: seq<Kind>, at: int): (args: seq<Arg>)
    ensures HasSignature(args, signature)
  {
    seq(|signature|, i requires 0 <= i < |signature| =>
      match signature[i]
      case Tensor1 => One(T0)
      case TensorVector => Many(if i == at then [T0] else [])
      case Other => Scalar(0))
  }

  lemma {:induction false} SampleFlattens(signature: seq<Kind>, at: int)
    ensures forall k :: 0 <= k < |Flatten(Sample(signature, at))| ==> Flatten(Sample(signature, at))[k] == T0
    ensures |Flatten(Sample(signature, at))|
         == Singles(signature) + if 0 <= at < |signature| && signature[at] == TensorVector then 1 else 0
    ensures Scalars(Sample(signature, at)) == Scalars(Sample(signature, 0))
    decreases |signature|
  {
    if signature != [] {
      assert Sample(signature, at)[1..] == Sample(signature[1..], at - 1);
      assert Sample(signature, 0)[1..] == Sample(signature[1..], -1);
      SampleFlattens(signature[1..], at - 1);
      SampleFlattens(signature[1..], -1);
    }
  }

  function Singles(signature: seq<Kind>): nat {
    if signature == [] then 0 else (if signature[0] == Tensor1 then 1 else 0) + Singles(signature[1..])
  }

  lemma {:induction false} OneVector(signature: seq<Kind>) returns (i: nat)
    requires Vectors(signature) >= 1
    ensures i < |signature| && signature[i] == TensorVector
    decreases |signature|
  {
    if signature[0] == TensorVector {
      i := 0;
    } else {
      i := OneVector(signature[1..]);
      i := i + 1;
    }
  }

  lemma {:induction false} TwoVectors(signature: seq<Kind>) returns (i: nat, j: nat)
    requires Vectors(signature) >= 2
    ensures i < j < |signature| && signature[i] == TensorVector && signature[j] == TensorVector
    decreases |signature|
  {
    if signature[0] == TensorVector {
      i := 0;
      j := OneVector(signature[1..]);
    } else {
      i, j := TwoVectors(signature[1..]);
      i := i + 1;
    }
    j := j + 1;
  }

  /** Arguments that agree give the same hash, as the hash table requires of equal keys. */
  lemma {:induction false} SameArgsSameHash(h: Hashing, key: Key, key': Key, a: seq<Arg>, b: seq<Arg>)
    requires key.hash == key'.hash && SameArgs(a, b)
    ensures AbsorbAll(h, key, a).hash == AbsorbAll(h, key', b).hash
    decreases |a|
  {
    if a != [] {
      assert SameArg(a[0], b[0]);
      if a[0].Many? {
        SameTensorsSameHash(h, h.mix(key.hash, h.atom(|a[0].tensors|)), a[0].tensors, b[0].tensors);
      }
      assert Absorb(h, key, a[0]).hash == Absorb(h, key', b[0]).hash;
      SameArgsSameHash(h, Absorb(h, key, a[0]), Absorb(h, key', b[0]), a[1..], b[1..]);
    }
  }

  lemma {:induction false} SameTensorsSameHash(h: Hashing, seed: nat, a: seq<Tensor>, b: seq<Tensor>)
    requires SameTensors(a, b)
    ensures MixTensors(h, seed, a) == MixTensors(h, seed, b)
    decreases |a|
  {
    if a != [] {
      assert SameTensor(a[0], b[0]);
      SameTensorsSameHash(h, h.mix(seed, HashTensor(h, a[0])), a[1..], b[1..]);
    }
  }

  /** Equal keys have equal hashes. */
  lemma EqualKeysEqualHashes(h: Hashing, a: seq<Arg>, b: seq<Arg>, signature: seq<Kind>)
    requires HasSignature(a, signature) && HasSignature(b, signature) && Vectors(signature) <= 1
    requires MixAll(h, 0, Scalars(a)) == MixAll(h, 0, Scalars(b)) ==> Scalars(a) == Scalars(b)
    requires KeysEqual(BuildKey(h, a), BuildKey(h, b))
    ensures BuildKey(h, a).hash == BuildKey(h, b).hash
  {
    EqualKeysExactly(h, a, b, signature);
    SameArgsSameHash(h, Key(0, [], 0), Key(0, [], 0), a, b);
  }

  // ---------------------------------------------------------------------------
  // A hash without collisions
  // ---------------------------------------------------------------------------

  /** Mixing and hashing lose nothing. */
  ghost predicate Ideal(h: Hashing) {
    && (forall s, t, x, y :: h.mix(s, x) == h.mix(t, y) ==> s == t && x == y)
    && (forall v, w :: h.atom(v) == h.atom(w) ==> v == w)
  }

  lemma {:induction false} MixAllInjective(h: Hashing, s: nat, t: nat, a: seq<int>, b: seq<int>)
    requires Ideal(h) && |a| == |b| && MixAll(h, s, a) == MixAll(h, t, b)
    ensures s == t && a == b
    decreases |a|
  {
    if a != [] {
      var x, y := h.atom(a[0]), h.atom(b[0]);
      MixAllInjective(h, h.mix(s, x), h.mix(t, y), a[1..], b[1..]);
      assert s == t && x == y;
      assert a[0] == b[0];
      assert a == [a[0]] + a[1..] && b == [b[0]] + b[1..];
    } else {
      assert b == [];
    }
  }

  lemma {:induction false} ScalarCount(a: seq<Arg>, b: seq<Arg>, signature: seq<Kind>)
    requires HasSignature(a, signature) && HasSignature(b, signature)
    ensures |Scalars(a)| == |Scalars(b)|
    decreases |signature|
  {
    if signature != [] {
      assert KindOf(a[0]) == signature[0] && KindOf(b[0]) == signature[0];
      RestHasSignature(a, signature);
      RestHasSignature(b, signature);
      ScalarCount(a[1..], b[1..], signature[1..]);
    }
  }

  /** Every scalar and every tensor counts: with such a hash and at most one vector, keys are equal exactly
      when all arguments agree. */
  lemma IdealKeysExactly(h: Hashing, a: seq<Arg>, b: seq<Arg>, signature: seq<Kind>)
    requires Ideal(h) && HasSignature(a, signature) && HasSignature(b, signature) && Vectors(signature) <= 1
    ensures KeysEqual(BuildKey(h, a), BuildKey(h, b)) <==> SameArgs(a, b)
  {
    hide Ideal, HasSignature, BuildKey, KeysEqual, SameArgs, Scalars, MixAll, Vectors;
    ScalarCount(a, b, signature);
    if MixAll(h, 0, Scalars(a)) == MixAll(h, 0, Scalars(b)) {
      MixAllInjective(h, 0, 0, Scalars(a), Scalars(b));
    }
    EqualKeysExactly(h, a, b, signature);
  }

  function Hashes(h: Hashing, ts: seq<Tensor>): (r: seq<nat>)
    ensures |r| == |ts|
  {
    seq(|ts|, i requires 0 <= i < |ts| => HashTensor(h, ts[i]))
  }

  /** What an argument mixes into the hash: a vector its length first. */
  function PartsOf(h: Hashing, arg: Arg): seq<nat> {
    match arg
    case One(t) => [HashTensor(h, t)]
    case Many(ts) => [h.atom(|ts|)] + Hashes(h, ts)
    case Scalar(v) => [h.atom(v)]
  }

  function Parts(h: Hashing, args: seq<Arg>): seq<nat> {
    if args == [] then [] else PartsOf(h, args[0]) + Parts(h, args[1..])
  }

  function Fold(h: Hashing, seed: nat, parts: seq<nat>): nat
    decreases |parts|
  {
    if parts == [] then seed else Fold(h, h.mix(seed, parts[0]), parts[1..])
  }

  lemma {:induction false} FoldAppend(h: Hashing, seed: nat, a: seq<nat>, b: seq<nat>)
    ensures Fold(h, seed, a + b) == Fold(h, Fold(h, seed, a), b)
    decreases |a|
  {
    if a == [] {
      assert a + b == b;
    } else {
      assert (a + b)[1..] == a[1..] + b;
      FoldAppend(h, h.mix(seed, a[0]), a[1..], b);
    }
  }

  lemma {:induction false} FoldTensors(h: Hashing, seed: nat, ts: seq<Tensor>)
    ensures Fold(h, seed, Hashes(h, ts)) == MixTensors(h, seed, ts)
    decreases |ts|
  {
    if ts != [] {
      hide HashTensor;
      assert Hashes(h, ts)[1..] == Hashes(h, ts[1..]);
      FoldTensors(h, h.mix(seed, HashTensor(h, ts[0])), ts[1..]);
    }
  }

  lemma PartsFold(h: Hashing, key: Key, arg: Arg)
    ensures Absorb(h, key, arg).hash == Fold(h, key.hash, PartsOf(h, arg))
  {
    hide HashTensor, MixTensors, Hashes;
    if arg.Many? {
      var seed := h.mix(key.hash, h.atom(|arg.tensors|));
      FoldTensors(h, seed, arg.tensors);
      assert PartsOf(h, arg)[1..] == Hashes(h, arg.tensors);
    }
  }

  lemma {:induction false} HashIsFold(h: Hashing, key: Key, args: seq<Arg>)
    ensures AbsorbAll(h, key, args).hash == Fold(h, key.hash, Parts(h, args))
    decreases |args|
  {
    if args != [] {
      hide Absorb, PartsOf, Fold;
      var key' := Absorb(h, key, args[0]);
      PartsFold(h, key, args[0]);
      HashIsFold(h, key', args[1..]);
      FoldAppend(h, key.hash, PartsOf(h, args[0]), Parts(h, args[1..]));
    } else {
      assert Parts(h, args) == [];
    }
  }

  lemma {:induction false} FoldInjective(h: Hashing, s: nat, t: nat, a: seq<nat>, b: seq<nat>)
    requires Ideal(h) && |a| == |b| && Fold(h, s, a) == Fold(h, t, b)
    ensures s == t && a == b
    decreases |a|
  {
    if a != [] {
      FoldInjective(h, h.mix(s, a[0]), h.mix(t, b[0]), a[1..], b[1..]);
      assert a == [a[0]] + a[1..] && b == [b[0]] + b[1..];
    } else {
      assert b == [];
    }
  }

  lemma {:induction false} PartsCount(h: Hashing, signature: seq<Kind>, at: int)
    ensures |Parts(h, Sample(signature, at))|
         == |signature| + if 0 <= at < |signature| && signature[at] == TensorVector then 1 else 0
    decreases |signature|
  {
    if signature != [] {
      hide HashTensor;
      assert Sample(signature, at)[1..] == Sample(signature[1..], at - 1);
      PartsCount(h, signature[1..], at - 1);
    }
  }

  /** The two samples part where the first vector's length is mixed in. */
  lemma {:induction false} PartsDiffer(h: Hashing, signature: seq<Kind>, i: nat, j: nat)
    requires Ideal(h) && i < j < |signature| && signature[i] == TensorVector && signature[j] == TensorVector
    ensures Parts(h, Sample(signature, i)) != Parts(h, Sample(signature, j))
    decreases |signature|
  {
    var a, b := Sample(signature, i), Sample(signature, j);
    if i == 0 {
      assert Parts(h, a)[0] == h.atom(1) && Parts(h, b)[0] == h.atom(0);
      assert h.atom(1) != h.atom(0);
    } else {
      assert a[1..] == Sample(signature[1..], i - 1) && b[1..] == Sample(signature[1..], j - 1);
      assert a[0] == b[0];
      hide Ideal, HashTensor, PartsOf;
      PartsDiffer(h, signature[1..], i - 1, j - 1);
      var first := PartsOf(h, a[0]);
      assert Parts(h, a)[|first|..] == Parts(h, a[1..]) && Parts(h, b)[|first|..] == Parts(h, b[1..]);
    }
  }

  /** Equal keys with unequal hashes: what a hash table must not see. */
  ghost predicate Unhashable(h: Hashing, signature: seq<Kind>, a: seq<Arg>, b: seq<Arg>) {
    && HasSignature(a, signature) && HasSignature(b, signature)
    && KeysEqual(BuildKey(h, a), BuildKey(h, b)) && BuildKey(h, a).hash != BuildKey(h, b).hash
  }

  /** Without collisions, the hash table's requirement on keys holds for a signature if and only if it has at
      most one tensor vector. */
  lemma HashContractExactly(h: Hashing, signature: seq<Kind>)
    requires Ideal(h)
    ensures (exists a, b :: Unhashable(h, signature, a, b)) <==> Vectors(signature) >= 2
  {
    hide Ideal, KeysEqual, Parts, Fold, Sample, HasSignature, MixAll, Scalars;
    if Vectors(signature) >= 2 {
      var i, j := TwoVectors(signature);
      var a, b := Sample(signature, i), Sample(signature, j);
      SamplesConflate(h, signature, i, j);
      PartsDiffer(h, signature, i, j);
      PartsCount(h, signature, i);
      PartsCount(h, signature, j);
      HashIsFold(h, Key(0, [], 0), a);
      HashIsFold(h, Key(0, [], 0), b);
      if BuildKey(h, a).hash == BuildKey(h, b).hash {
        FoldInjective(h, 0, 0, Parts(h, a), Parts(h, b));
      }
      assert Unhashable(h, signature, a, b);
    } else {
      forall a, b | HasSignature(a, signature) && HasSignature(b, signature) && KeysEqual(BuildKey(h, a), BuildKey(h, b))
        ensures BuildKey(h, a).hash == BuildKey(h, b).hash
      {
        IdealKeysExactly(h, a, b, signature);
        SameArgsSameHash(h, Key(0, [], 0), Key(0, [], 0), a, b);
      }
    }
  }

  /** The arguments with their data pointers forgotten: the keys of `OperatorCache`. */
  function Canonical(args: seq<Arg>): (r: seq<Arg>)
    ensures |r| == |args|
  {
    seq(|args|, i requires 0 <= i < |args| => Forget(args[i]))
  }

  function Forget(arg: Arg): Arg {
    match arg
    case One(t) => One(t.(data := 0))
    case Many(ts) => Many(seq(|ts|, i requires 0 <= i < |ts| => ts[i].(data := 0)))
    case Scalar(_) => arg
  }

  lemma ForgetExactly(a: Arg, b: Arg)
    ensures SameArg(a, b) <==> Forget(a) == Forget(b)
  {
    if a.Many? && b.Many? {
      var x, y := Forget(a).tensors, Forget(b).tensors;
      if SameArg(a, b) {
        assert x == y;
      }
      if x == y {
        forall i | 0 <= i < |a.tensors| ensures SameTensor(a.tensors[i], b.tensors[i]) {
          assert x[i] == y[i];
        }
      }
    }
  }

  /** Equal keys of a signature with at most one vector, without a scalar collision, are the same arguments
      up to data pointers: what a cached operator was built from is what a new one would be built from. */
  lemma EqualKeysSameCanonical(h: Hashing, a: seq<Arg>, b: seq<Arg>, signature: seq<Kind>)
    requires HasSignature(a, signature) && HasSignature(b, signature) && Vectors(signature) <= 1
    requires MixAll(h, 0, Scalars(a)) == MixAll(h, 0, Scalars(b)) ==> Scalars(a) == Scalars(b)
    ensures KeysEqual(BuildKey(h, a), BuildKey(h, b)) <==> Canonical(a) == Canonical(b)
  {
    EqualKeysExactly(h, a, b, signature);
    hide KeysEqual, BuildKey, SameArg, Forget, Scalars, MixAll, Vectors;
    forall i | 0 <= i < |a| ensures SameArg(a[i], b[i]) <==> Canonical(a)[i] == Canonical(b)[i] {
      ForgetExactly(a[i], b[i]);
    }
    assert SameArgs(a, b) ==> Canonical(a) == Canonical(b);
  }
}
