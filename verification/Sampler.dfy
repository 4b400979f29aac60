/** Top-k and top-p filtering of one row of logits. Probabilities are exact reals; `exp` is any
    positive, increasing function, and the draw from the kept tokens is arbitrary. */
module Sampler {
  import opened Counting
  import opened Options
  import opened Layout

  ghost predicate PositiveIncreasing(exp: real -> real) {
    (forall x :: exp(x) > 0.0) && (forall x, y :: x < y ==> exp(x) < exp(y))
  }

  /** Token indices, each once, in the order of their logits, the largest first. */
  predicate Ranks(logits: seq<real>, indices: seq<nat>) {
    && IsOrder(indices, |logits|)
    && forall i, j :: 0 <= i < j < |indices| ==> logits[indices[i]] >= logits[indices[j]]
  }

  // ---------------------------------------------------------------------------
  // Sorting
  // ---------------------------------------------------------------------------

  /** The indices still to be placed. */
  ghost predicate Remaining(rest: set<nat>, placed: seq<nat>, n: nat) {
    && (forall i :: i in rest <==> 0 <= i < n && i !in placed)
    && (forall i :: 0 <= i < |placed| ==> placed[i] < n)
    && (forall i, j :: 0 <= i < j < |placed| ==> placed[i] != placed[j])
  }

  lemma {:induction false} Largest(logits: seq<real>, rest: set<nat>) returns (m: nat)
    requires rest != {} && forall i :: i in rest ==> i < |logits|
    ensures m in rest && forall i :: i in rest ==> logits[i] <= logits[m]
    decreases rest
  {
    var x :| x in rest;
    if rest == {x} {
      m := x;
    } else {
      m := Largest(logits, rest - {x});
      if logits[x] > logits[m] {
        m := x;
      }
    }
  }

  /** The sorted index vector; which of two equal logits comes first is left open. */
  method SortIndices(logits: seq<real>) returns (indices: seq<nat>)
    ensures Ranks(logits, indices)
  {
    indices := [];
    var rest := UpTo(|logits|);
    while rest != {}
      invariant Remaining(rest, indices, |logits|)
      invariant forall i, j :: 0 <= i < j < |indices| ==> logits[indices[i]] >= logits[indices[j]]
      invariant forall i, k :: 0 <= i < |indices| && k in rest ==> logits[indices[i]] >= logits[k]
      decreases rest
    {
      ghost var top := Largest(logits, rest);
      var next :| next in rest && forall i :: i in rest ==> logits[i] <= logits[next];
      indices := indices + [next];
      rest := rest - {next};
    }
    AllPlaced(indices, |logits|);
  }

  lemma AllPlaced(placed: seq<nat>, n: nat)
    requires Remaining({}, placed, n)
    ensures IsOrder(placed, n)
  {
    assert forall i :: 0 <= i < n ==> i in placed by {
      assert forall i :: 0 <= i < n && i !in placed ==> i in {};
    }
    DistinctElements(placed);
    assert Elements(placed) == UpTo(n);
  }

  // ---------------------------------------------------------------------------
  // Mass
  // ---------------------------------------------------------------------------

  function Total(ws: seq<real>): real {
    if ws == [] then 0.0 else Total(Init(ws)) + Last(ws)
  }

  lemma TotalEmpty()
    ensures Total([]) == 0.0
  {
  }

  lemma TotalNext(ws: seq<real>, w: real)
    ensures Total(ws + [w]) == Total(ws) + w
  {
    assert Init(ws + [w]) == ws;
  }

  /** The share of the whole that the first `n` weights have. */
  function Mass(ws: seq<real>, n: nat): real
    requires n <= |ws| && Total(ws) != 0.0
  {
    Total(ws[..n]) / Total(ws)
  }

  lemma {:induction false} TotalPositive(ws: seq<real>)
    requires ws != [] && forall i :: 0 <= i < |ws| ==> ws[i] > 0.0
    ensures Total(ws) > 0.0
    decreases |ws|
  {
    if |ws| == 1 {
      assert Init(ws) == [];
    } else {
      TotalPositive(Init(ws));
    }
  }

  lemma MassNext(ws: seq<real>, n: nat)
    requires n < |ws| && Total(ws) > 0.0
    ensures Mass(ws, n + 1) == Mass(ws, n) + ws[n] / Total(ws)
  {
    hide Total;
    TotalNext(ws[..n], ws[n]);
    assert ws[..n + 1] == ws[..n] + [ws[n]];
    AddShares(Total(ws[..n]), ws[n], Total(ws[..n + 1]), Total(ws));
  }

  lemma AddShares(a: real, b: real, c: real, s: real)
    requires s > 0.0 && a + b == c
    ensures c / s == a / s + b / s
  {
  }

  lemma WholeMass(ws: seq<real>)
    requires Total(ws) > 0.0
    ensures Mass(ws, 0) == 0.0 && Mass(ws, |ws|) == 1.0
  {
    assert ws[..|ws|] == ws;
    assert ws[..0] == [];
  }

  /** The weights `exp(logit - max)` of the first `k` tokens in rank order. */
  function Weights(exp: real -> real, logits: seq<real>, indices: seq<nat>, k: nat): (ws: seq<real>)
    requires k <= |indices| && forall i :: 0 <= i < |indices| ==> indices[i] < |logits|
    requires k > 0
    ensures |ws| == k
  {
    seq(k, i requires 0 <= i < k => exp(logits[indices[i]] - logits[indices[0]]))
  }

  lemma WeightsDescend(exp: real -> real, logits: seq<real>, indices: seq<nat>, k: nat)
    requires PositiveIncreasing(exp) && Ranks(logits, indices) && 0 < k <= |indices|
    ensures var ws := Weights(exp, logits, indices, k);
      && (forall i :: 0 <= i < k ==> ws[i] > 0.0)
      && (forall i, j :: 0 <= i < j < k ==> ws[i] >= ws[j])
      && Total(ws) > 0.0
  {
    var ws := Weights(exp, logits, indices, k);
    forall i, j | 0 <= i < j < k ensures ws[i] >= ws[j] {
      var x, y := logits[indices[j]] - logits[indices[0]], logits[indices[i]] - logits[indices[0]];
      assert x <= y;
    }
    TotalPositive(ws);
  }

  /** The sum of exp(l - l0) over the first `n` tokens in rank order, where l0 is the largest logit. */
  function ExpSum(exp: real -> real, logits: seq<real>, indices: seq<nat>, n: nat): real
    requires n <= |indices| && forall i :: 0 <= i < |indices| ==> indices[i] < |logits|
  {
    if n == 0 then 0.0
    else ExpSum(exp, logits, indices, n - 1) + exp(logits[indices[n - 1]] - logits[indices[0]])
  }

  lemma {:induction false} TotalIsExpSum(exp: real -> real, logits: seq<real>, indices: seq<nat>, k: nat, n: nat)
    requires n <= k <= |indices| && k > 0 && forall i :: 0 <= i < |indices| ==> indices[i] < |logits|
    ensures Total(Weights(exp, logits, indices, k)[..n]) == ExpSum(exp, logits, indices, n)
    decreases n
  {
    if n > 0 {
      var ws := Weights(exp, logits, indices, k);
      assert Init(ws[..n]) == ws[..n - 1];
      TotalIsExpSum(exp, logits, indices, k, n - 1);
    }
  }

  // ---------------------------------------------------------------------------
  // The filters
  // ---------------------------------------------------------------------------

  /** `keep` is the least number of tokens, out of the first `k`, for which the sum of exp(l - l0) is at
      least `p` times that of all `k`. */
  ghost predicate Nucleus(exp: real -> real, logits: seq<real>, indices: seq<nat>, p: real, k: nat, keep: nat)
    requires k <= |indices| && forall i :: 0 <= i < |indices| ==> indices[i] < |logits|
  {
    && 1 <= keep <= k
    && ExpSum(exp, logits, indices, keep) >= p * ExpSum(exp, logits, indices, k)
    && forall n: nat :: n < keep ==> ExpSum(exp, logits, indices, n) < p * ExpSum(exp, logits, indices, k)
  }

  lemma ShareReaches(part: real, whole: real, p: real)
    requires whole > 0.0
    ensures part / whole >= p <==> part >= p * whole
  {
    assert part == (part / whole) * whole;
    if part / whole >= p {
      assert (part / whole - p) * whole >= 0.0;
    } else {
      assert (p - part / whole) * whole > 0.0;
    }
  }

  /** The shortest prefix that reaches mass `p`, in sums of exponentials. */
  lemma PrefixIsNucleus(exp: real -> real, logits: seq<real>, indices: seq<nat>, p: real, k: nat, keep: nat)
    requires 0 < k <= |indices| && forall i :: 0 <= i < |indices| ==> indices[i] < |logits|
    requires Total(Weights(exp, logits, indices, k)) > 0.0
    ensures ShortestPrefix(Weights(exp, logits, indices, k), p, keep) <==> Nucleus(exp, logits, indices, p, k, keep)
  {
    hide Total, Weights, ExpSum;
    var ws := Weights(exp, logits, indices, k);
    assert ws[..k] == ws;
    TotalIsExpSum(exp, logits, indices, k, k);
    forall n: nat | n <= k
      ensures Mass(ws, n) >= p <==> ExpSum(exp, logits, indices, n) >= p * ExpSum(exp, logits, indices, k)
    {
      TotalIsExpSum(exp, logits, indices, k, n);
      ShareReaches(Total(ws[..n]), Total(ws), p);
    }
  }

  /** One token is kept exactly when exp(0) alone is at least `p` times the sum. */
  lemma OneTokenKept(exp: real -> real, logits: seq<real>, indices: seq<nat>, p: real, k: nat, keep: nat)
    requires k <= |indices| && forall i :: 0 <= i < |indices| ==> indices[i] < |logits|
    requires Nucleus(exp, logits, indices, p, k, keep)
    ensures keep == 1 <==> exp(0.0) >= p * ExpSum(exp, logits, indices, k)
  {
    assert logits[indices[0]] - logits[indices[0]] == 0.0;
    assert ExpSum(exp, logits, indices, 1) == exp(0.0);
  }

  /** Top-k: out-of-range values keep everything. */
  function NormalizeTopK(topK: int, vocabSize: nat): (k: nat)
    ensures 1 <= topK <= vocabSize ==> k == topK
    ensures topK <= 0 || topK > vocabSize ==> k == vocabSize
  {
    if topK <= 0 || topK > vocabSize then vocabSize else topK
  }

  /** `keep` is the length of the shortest prefix whose mass reaches `p`. */
  predicate ShortestPrefix(ws: seq<real>, p: real, keep: nat)
    requires Total(ws) > 0.0
  {
    && 1 <= keep <= |ws| && Mass(ws, keep) >= p
    && forall n: nat :: n < keep ==> Mass(ws, n) < p
  }

  /** The largest of the first `k` logits, which is the first one's. */
  method MaxOfPrefix(logits: seq<real>, indices: seq<nat>, k: nat) returns (maxVal: real)
    requires Ranks(logits, indices) && 0 < k <= |indices|
    ensures maxVal == logits[indices[0]]
  {
    // No value yet stands for minus infinity.
    var best: Option<real> := None;
    for i := 0 to k
      invariant best == if i == 0 then None else Some(logits[indices[0]])
    {
      var v := logits[indices[i]];
      if best == None || v > best.value {
        best := Some(v);
      }
    }
    maxVal := best.value;
  }

  /** The weights and their sum, largest logit subtracted first. */
  method ComputeWeights(exp: real -> real, logits: seq<real>, indices: seq<nat>, keepCount: nat)
      returns (probs: seq<real>, sum: real)
    requires Ranks(logits, indices) && 0 < keepCount <= |indices|
    ensures probs == Weights(exp, logits, indices, keepCount) && sum == Total(probs)
  {
    hide Total;
    ghost var ws := Weights(exp, logits, indices, keepCount);
    TotalEmpty();
    var maxVal := MaxOfPrefix(logits, indices, keepCount);
    probs := [];
    sum := 0.0;
    for i := 0 to keepCount
      invariant probs == ws[..i] && sum == Total(probs)
    {
      TotalNext(probs, exp(logits[indices[i]] - maxVal));
      probs := probs + [exp(logits[indices[i]] - maxVal)];
      sum := sum + probs[i];
    }
    assert ws[..keepCount] == ws;
  }

  /** Top-p: the shortest prefix of the top-k tokens that reaches mass `p`. The loop always returns
      from inside. */
  method ApplyTopP(exp: real -> real, logits: seq<real>, topP: real, indices: seq<nat>, keepCount: nat) returns (keep: nat)
    requires PositiveIncreasing(exp) && Ranks(logits, indices) && 0 < keepCount <= |indices| && 0.0 < topP < 1.0
    ensures Nucleus(exp, logits, indices, topP, keepCount, keep)
    ensures Total(Weights(exp, logits, indices, keepCount)) > 0.0
    ensures ShortestPrefix(Weights(exp, logits, indices, keepCount), topP, keep)
  {
    WeightsDescend(exp, logits, indices, keepCount);
    var probs, sum := ComputeWeights(exp, logits, indices, keepCount);
    forall n: nat ensures ShortestPrefix(probs, topP, n) ==> Nucleus(exp, logits, indices, topP, keepCount, n) {
      PrefixIsNucleus(exp, logits, indices, topP, keepCount, n);
    }
    hide Weights, PositiveIncreasing, Ranks, Total, Nucleus;
    WholeMass(probs);
    var cumulative := 0.0;
    for i := 0 to keepCount
      invariant cumulative == Mass(probs, i)
      invariant forall n: nat :: n <= i ==> Mass(probs, n) < topP
    {
      MassNext(probs, i);
      cumulative := cumulative + probs[i] / sum;
      if cumulative >= topP {
        return i + 1;
      }
    }
    assert false;
  }

  /** The places of some of the first `k` tokens, in rank order. */
  predicate Selection(places: seq<nat>, k: nat) {
    && (forall i :: 0 <= i < |places| ==> places[i] < k)
    && (forall i, j :: 0 <= i < j < |places| ==> places[i] < places[j])
  }

  function Select(ws: seq<real>, places: seq<nat>): (r: seq<real>)
    requires forall i :: 0 <= i < |places| ==> places[i] < |ws|
    ensures |r| == |places|
  {
    seq(|places|, i requires 0 <= i < |places| => ws[places[i]])
  }

  lemma {:induction false} SelectionBehind(places: seq<nat>, k: nat, i: nat)
    requires Selection(places, k) && i < |places|
    ensures places[i] >= i
    decreases i
  {
    if i > 0 {
      SelectionBehind(places, k, i - 1);
    }
  }

  lemma {:induction false} TotalMonotone(a: seq<real>, b: seq<real>)
    requires |a| == |b| && forall i :: 0 <= i < |a| ==> a[i] <= b[i]
    ensures Total(a) <= Total(b)
    decreases |a|
  {
    if a != [] {
      TotalMonotone(Init(a), Init(b));
    }
  }

  lemma DivideMonotone(a: real, b: real, s: real)
    requires a <= b && s > 0.0
    ensures a / s <= b / s
  {
  }

  /** No selection of fewer top-k tokens, whichever they are, reaches the mass the kept prefix has. */
  lemma PrefixIsSmallest(ws: seq<real>, p: real, keep: nat, places: seq<nat>)
    requires forall i, j :: 0 <= i < j < |ws| ==> ws[i] >= ws[j]
    requires Total(ws) > 0.0 && ShortestPrefix(ws, p, keep)
    requires Selection(places, |ws|) && |places| < keep
    ensures Total(Select(ws, places)) / Total(ws) < p
  {
    hide Total;
    var n := |places|;
    forall i | 0 <= i < n ensures Select(ws, places)[i] <= ws[..n][i] {
      SelectionBehind(places, |ws|, i);
    }
    TotalMonotone(Select(ws, places), ws[..n]);
    DivideMonotone(Total(Select(ws, places)), Total(ws[..n]), Total(ws));
    assert Mass(ws, n) < p;
  }

  /** The sum of exp(l - l0) over the tokens at some places. */
  function ExpSumAt(exp: real -> real, logits: seq<real>, indices: seq<nat>, places: seq<nat>): real
    requires indices != [] && forall i :: 0 <= i < |indices| ==> indices[i] < |logits|
    requires forall i :: 0 <= i < |places| ==> places[i] < |indices|
  {
    if places == [] then 0.0
    else ExpSumAt(exp, logits, indices, Init(places)) + exp(logits[indices[Last(places)]] - logits[indices[0]])
  }

  lemma {:induction false} TotalIsExpSumAt(exp: real -> real, logits: seq<real>, indices: seq<nat>, k: nat, places: seq<nat>)
    requires 0 < k <= |indices| && forall i :: 0 <= i < |indices| ==> indices[i] < |logits|
    requires forall i :: 0 <= i < |places| ==> places[i] < k
    ensures Total(Select(Weights(exp, logits, indices, k), places)) == ExpSumAt(exp, logits, indices, places)
    decreases |places|
  {
    if places != [] {
      var ws := Weights(exp, logits, indices, k);
      assert Init(Select(ws, places)) == Select(ws, Init(places));
      TotalIsExpSumAt(exp, logits, indices, k, Init(places));
    }
  }

  /** No choice of fewer of the first `k` tokens, whichever they are, reaches the sum the kept ones do. */
  lemma NucleusIsSmallest(exp: real -> real, logits: seq<real>, indices: seq<nat>, p: real, k: nat, keep: nat,
      places: seq<nat>)
    requires PositiveIncreasing(exp) && Ranks(logits, indices) && 0 < k <= |indices|
    requires Nucleus(exp, logits, indices, p, k, keep) && Selection(places, k) && |places| < keep
    ensures ExpSumAt(exp, logits, indices, places) < p * ExpSum(exp, logits, indices, k)
  {
    hide Total, Weights, ExpSum, ExpSumAt, Select, PositiveIncreasing, Nucleus, ShortestPrefix, Mass;
    var ws := Weights(exp, logits, indices, k);
    WeightsDescend(exp, logits, indices, k);
    PrefixIsNucleus(exp, logits, indices, p, k, keep);
    PrefixIsSmallest(ws, p, keep, places);
    TotalIsExpSumAt(exp, logits, indices, k, places);
    TotalIsExpSum(exp, logits, indices, k, k);
    assert ws[..k] == ws;
    ShareReaches(Total(Select(ws, places)), Total(ws), p);
  }

  /** The tokens with a larger logit. */
  function Better(logits: seq<real>, token: nat): set<nat>
    requires token < |logits|
  {
    set t | 0 <= t < |logits| && logits[t] > logits[token]
  }

  /** Among the first `keep` tokens in rank order, fewer than `keep` tokens are better than a kept one,
      and no dropped one is. */
  lemma KeptAreTop(logits: seq<real>, indices: seq<nat>, keep: nat, place: nat)
    requires Ranks(logits, indices) && place < keep <= |indices|
    ensures |Better(logits, indices[place])| < keep
    ensures forall j :: keep <= j < |indices| ==> logits[indices[j]] <= logits[indices[place]]
  {
    forall t | t in Better(logits, indices[place]) ensures t in Elements(indices[..place]) {
      assert t in indices;
      var j :| 0 <= j < |indices| && indices[j] == t;
      assert j < place;
      assert indices[..place][j] == t;
    }
    SubsetSize(Better(logits, indices[place]), Elements(indices[..place]));
  }

  /** One row: sort, filter, draw. The token is drawn from the first `keep` in rank order: with 0 < p < 1
      the nucleus of the first k, otherwise the first k, and k counts all tokens if it is out of range. */
  method SampleRow(exp: real -> real, logits: seq<real>, topK: int, topP: real)
      returns (token: nat, keep: nat, indices: seq<nat>)
    requires PositiveIncreasing(exp) && logits != []
    ensures Ranks(logits, indices) && 1 <= keep <= |logits| && token in indices[..keep]
    ensures |Better(logits, token)| < keep
    ensures !(0.0 < topP < 1.0) && 1 <= topK <= |logits| ==> keep == topK
    ensures !(0.0 < topP < 1.0) && !(1 <= topK <= |logits|) ==> keep == |logits|
    ensures 0.0 < topP < 1.0 && 1 <= topK <= |logits| ==> Nucleus(exp, logits, indices, topP, topK, keep)
    ensures 0.0 < topP < 1.0 && !(1 <= topK <= |logits|) ==> Nucleus(exp, logits, indices, topP, |logits|, keep)
  {
    indices := SortIndices(logits);
    keep := NormalizeTopK(topK, |logits|);
    if 0.0 < topP < 1.0 {
      keep := ApplyTopP(exp, logits, topP, indices, keep);
    }
    var place: nat := 0;
    if keep > 1 {
      place :| place < keep;
    }
    KeptAreTop(logits, indices, keep, place);
    token := indices[place];
    assert indices[..keep][place] == token;
  }
}
