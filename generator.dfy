/** `generate_placed_features_for_range` (assets/python/feature_disk_maker.py): for each
    horizontal spread in order, step a height from `min_y + layer_height / 2` up to `max_y`
    inclusive in increments of `layer_height`, emitting one record per step.

    Heights are kept exact: `layer_height`, `min_y` and `max_y` are integers and the running
    `current_height` is a Dafny `real`, so `min_y + step / 2` is the exact half-integer that
    Python's float holds for these inputs. */
module Generator {
  import opened PlacedFeatures

  /** The inner `while` loop stops: either the height advances (`layer_height > 0`) or the
      first height already lies above `max_y`, so the loop body never runs. */
  predicate Terminates(layerHeight: int, minY: int, maxY: int) {
    layerHeight > 0 || 2 * minY + layerHeight > 2 * maxY
  }

  /** The value of `current_height` after `k` steps: `min_y + step / 2 + k * step`. */
  function Centre(layerHeight: int, minY: int, k: int): real {
    minY as real + layerHeight as real / 2.0 + (k * layerHeight) as real
  }

  /** `current_height` starts at `min_y + step / 2` and each step adds `step`. */
  lemma CentreAdvances(layerHeight: int, minY: int, k: nat)
    ensures Centre(layerHeight, minY, 0) == minY as real + layerHeight as real / 2.0
    ensures Centre(layerHeight, minY, k + 1) == Centre(layerHeight, minY, k) + layerHeight as real
  {
    assert (k + 1) * layerHeight == k * layerHeight + layerHeight;
  }

  /** Number of heights emitted per spread: none when the first height is above `max_y`,
      otherwise one more than the whole steps that fit between it and `max_y`, that is
      floor((max_y - min_y - step/2) / step) + 1. */
  function LayerCount(layerHeight: int, minY: int, maxY: int): (n: nat)
    requires Terminates(layerHeight, minY, maxY)
    ensures n == 0 <==> Centre(layerHeight, minY, 0) > maxY as real
  {
    if 2 * minY + layerHeight > 2 * maxY then 0
    else Quotient(2 * maxY - 2 * minY - layerHeight, 2 * layerHeight) + 1
  }

  /** Floor division of a natural number by a positive one. */
  function Quotient(a: nat, b: nat): (q: nat)
    requires b > 0
    ensures q * b <= a < q * b + b
    decreases a
  {
    if a < b then 0 else Quotient(a - b, b) + 1
  }

  /** The records emitted for one spread, in order. */
  function SpreadFeatures(layerHeight: int, minY: int, maxY: int, featureName: string, xzSpread: int)
    : seq<PlacedFeature>
    requires Terminates(layerHeight, minY, maxY)
  {
    seq(LayerCount(layerHeight, minY, maxY),
        k => GeneratePlacedFeature(Centre(layerHeight, minY, k), xzSpread, featureName))
  }

  /** One spread's run holds `LayerCount` records, each carrying that spread and the
      feature name, with heights `int(current_height)` in loop order. */
  lemma SpreadFeaturesShape(
    layerHeight: int, minY: int, maxY: int, featureName: string, xzSpread: int)
    requires Terminates(layerHeight, minY, maxY)
    ensures |SpreadFeatures(layerHeight, minY, maxY, featureName, xzSpread)|
            == LayerCount(layerHeight, minY, maxY)
    ensures forall f :: f in SpreadFeatures(layerHeight, minY, maxY, featureName, xzSpread) ==>
              HasFileNameKeys(f) && SpreadOf(f) == xzSpread && f.feature == featureName
    ensures forall k :: 0 <= k < LayerCount(layerHeight, minY, maxY) ==>
              HeightOf(SpreadFeatures(layerHeight, minY, maxY, featureName, xzSpread)[k])
              == TruncToInt(Centre(layerHeight, minY, k))
  {
  }

  /** The whole output: the records of each spread, the spreads in the order given. */
  function Generated(layerHeight: int, minY: int, maxY: int, featureName: string, xzSpreads: seq<int>)
    : (r: seq<PlacedFeature>)
    requires xzSpreads == [] || Terminates(layerHeight, minY, maxY)
    ensures forall f :: f in r ==> HasFileNameKeys(f)
  {
    if xzSpreads == [] then []
    else Generated(layerHeight, minY, maxY, featureName, xzSpreads[..|xzSpreads| - 1])
         + SpreadFeatures(layerHeight, minY, maxY, featureName, xzSpreads[|xzSpreads| - 1])
  }

  /** The generator loop. Python's `for xz_spread in xz_spreads` / `while current_height <= max_y`. */
  method GeneratePlacedFeaturesForRange(
    layerHeight: int, minY: int, maxY: int, featureName: string, xzSpreads: seq<int>)
    returns (features: seq<PlacedFeature>)
    requires xzSpreads == [] || Terminates(layerHeight, minY, maxY)
    ensures features == Generated(layerHeight, minY, maxY, featureName, xzSpreads)
  {
    features := [];
    var step := layerHeight;
    for s := 0 to |xzSpreads|
      invariant features == Generated(layerHeight, minY, maxY, featureName, xzSpreads[..s])
    {
      var xzSpread := xzSpreads[s];
      var currentHeight := minY as real + step as real / 2.0;
      ghost var n := LayerCount(layerHeight, minY, maxY);
      ghost var done := features;
      ghost var k := 0;
      while currentHeight <= maxY as real
        invariant 0 <= k <= n
        invariant currentHeight == Centre(layerHeight, minY, k)
        invariant features == done + SpreadFeatures(layerHeight, minY, maxY, featureName, xzSpread)[..k]
        decreases n - k
      {
        LayerCountExact(layerHeight, minY, maxY, k);
        var feature := GeneratePlacedFeature(currentHeight, xzSpread, featureName);
        features := features + [feature];
        currentHeight := currentHeight + step as real;
        k := k + 1;
      }
      if layerHeight > 0 {
        LayerCountExact(layerHeight, minY, maxY, k);
      }
      assert k == n;
      assert xzSpreads[..s + 1][..s] == xzSpreads[..s];
    }
    assert xzSpreads[..|xzSpreads|] == xzSpreads;
  }

  lemma MulMonotone(a: int, b: int, c: int)
    requires a <= b && 0 <= c
    ensures a * c <= b * c
  {
  }

  lemma MulSucc(a: int, c: int)
    ensures (a + 1) * c == a * c + c
  {
  }

  /** Quotient agrees with Euclidean division. */
  lemma QuotientIsDivision(a: nat, b: nat)
    requires b > 0
    ensures Quotient(a, b) == a / b
  {
    var q := Quotient(a, b);
    if q < a / b {
      MulMonotone(q + 1, a / b, b);
    } else if q > a / b {
      MulMonotone(a / b + 1, q, b);
    }
  }

  /** Splitting a position p below m*n into its block p div n and offset p mod n. */
  lemma DivBlock(p: nat, m: nat, n: nat)
    requires p < m * n
    ensures n > 0 && p / n < m && 0 <= p % n < n && p == (p / n) * n + p % n
  {
    if p / n >= m {
      MulMonotone(m, p / n, n);
    }
  }

  /** Exactly one record per step k >= 0 whose height `min_y + step/2 + k*step` is at most
      `max_y`, and none beyond. */
  lemma LayerCountExact(layerHeight: int, minY: int, maxY: int, k: int)
    requires layerHeight > 0 && k >= 0
    ensures k < LayerCount(layerHeight, minY, maxY) <==> Centre(layerHeight, minY, k) <= maxY as real
  {
    var step2 := 2 * layerHeight;
    var d := 2 * maxY - 2 * minY - layerHeight;
    assert k * step2 == 2 * (k * layerHeight);
    assert Centre(layerHeight, minY, k) <= maxY as real <==> k * step2 <= d;
    MulMonotone(0, k, step2);
    if d >= 0 {
      var q := Quotient(d, step2);
      if k <= q {
        MulMonotone(k, q, step2);
      } else {
        MulMonotone(q + 1, k, step2);
      }
    }
  }

  /** With a non-positive step and a first height within range, `current_height` never
      exceeds `max_y`: the `while` loop would never exit. */
  lemma {:induction false} NonPositiveStepNeverStops(layerHeight: int, minY: int, maxY: int, k: nat)
    requires layerHeight <= 0 && 2 * minY + layerHeight <= 2 * maxY
    ensures Centre(layerHeight, minY, k) <= maxY as real
  {
    if k > 0 {
      NonPositiveStepNeverStops(layerHeight, minY, maxY, k - 1);
      assert k * layerHeight == (k - 1) * layerHeight + layerHeight;
    }
  }

  /** The output holds `LayerCount` records for every spread. */
  lemma {:induction false} GeneratedLength(
    layerHeight: int, minY: int, maxY: int, featureName: string, xzSpreads: seq<int>)
    requires Terminates(layerHeight, minY, maxY)
    ensures |Generated(layerHeight, minY, maxY, featureName, xzSpreads)|
            == |xzSpreads| * LayerCount(layerHeight, minY, maxY)
  {
    if xzSpreads != [] {
      var m := |xzSpreads|;
      GeneratedLength(layerHeight, minY, maxY, featureName, xzSpreads[..m - 1]);
      assert (m - 1) * LayerCount(layerHeight, minY, maxY) + LayerCount(layerHeight, minY, maxY)
          == m * LayerCount(layerHeight, minY, maxY);
    }
  }

  /** Block i of the output (positions i*n up to (i+1)*n) is exactly the records of the i-th
      spread: all records of an earlier spread precede those of a later one. */
  lemma {:induction false} GeneratedBlock(
    layerHeight: int, minY: int, maxY: int, featureName: string, xzSpreads: seq<int>, i: nat)
    requires Terminates(layerHeight, minY, maxY)
    requires i < |xzSpreads|
    ensures (i + 1) * LayerCount(layerHeight, minY, maxY)
            <= |Generated(layerHeight, minY, maxY, featureName, xzSpreads)|
    ensures Generated(layerHeight, minY, maxY, featureName, xzSpreads)
              [i * LayerCount(layerHeight, minY, maxY)..(i + 1) * LayerCount(layerHeight, minY, maxY)]
            == SpreadFeatures(layerHeight, minY, maxY, featureName, xzSpreads[i])
  {
    var n := LayerCount(layerHeight, minY, maxY);
    var m := |xzSpreads|;
    var front := xzSpreads[..m - 1];
    var g := Generated(layerHeight, minY, maxY, featureName, xzSpreads);
    var g' := Generated(layerHeight, minY, maxY, featureName, front);
    GeneratedLength(layerHeight, minY, maxY, featureName, front);
    assert |g'| == (m - 1) * n;
    assert (i + 1) * n == i * n + n;
    if i == m - 1 {
      assert g[i * n..(i + 1) * n] == g[|g'|..];
    } else {
      GeneratedBlock(layerHeight, minY, maxY, featureName, front, i);
      assert front[i] == xzSpreads[i];
      assert g[i * n..(i + 1) * n] == g'[i * n..(i + 1) * n];
    }
  }

  /** The record at position i*n + k of the output is the template at the k-th height of
      the i-th spread. */
  lemma GeneratedAt(
    layerHeight: int, minY: int, maxY: int, featureName: string, xzSpreads: seq<int>, i: nat, k: nat)
    requires Terminates(layerHeight, minY, maxY)
    requires i < |xzSpreads| && k < LayerCount(layerHeight, minY, maxY)
    ensures i * LayerCount(layerHeight, minY, maxY) + k
            < |Generated(layerHeight, minY, maxY, featureName, xzSpreads)|
    ensures Generated(layerHeight, minY, maxY, featureName, xzSpreads)
              [i * LayerCount(layerHeight, minY, maxY) + k]
            == GeneratePlacedFeature(Centre(layerHeight, minY, k), xzSpreads[i], featureName)
  {
    var n := LayerCount(layerHeight, minY, maxY);
    GeneratedBlock(layerHeight, minY, maxY, featureName, xzSpreads, i);
    var g := Generated(layerHeight, minY, maxY, featureName, xzSpreads);
    assert g[i * n..(i + 1) * n][k] == g[i * n + k];
  }

  /** Every output position lies in the block of some spread i at some step k. */
  lemma GeneratedPosition(
    layerHeight: int, minY: int, maxY: int, featureName: string, xzSpreads: seq<int>, p: nat)
    returns (i: nat, k: nat)
    requires Terminates(layerHeight, minY, maxY)
    requires p < |Generated(layerHeight, minY, maxY, featureName, xzSpreads)|
    ensures i < |xzSpreads| && k < LayerCount(layerHeight, minY, maxY)
    ensures p == i * LayerCount(layerHeight, minY, maxY) + k
    ensures Generated(layerHeight, minY, maxY, featureName, xzSpreads)[p]
            == GeneratePlacedFeature(Centre(layerHeight, minY, k), xzSpreads[i], featureName)
  {
    var n := LayerCount(layerHeight, minY, maxY);
    GeneratedLength(layerHeight, minY, maxY, featureName, xzSpreads);
    DivBlock(p, |xzSpreads|, n);
    i, k := p / n, p % n;
    GeneratedAt(layerHeight, minY, maxY, featureName, xzSpreads, i, k);
  }

  /** A range too short for even the first height yields no records at all. */
  lemma GeneratedEmptyWhenNoRoom(
    layerHeight: int, minY: int, maxY: int, featureName: string, xzSpreads: seq<int>)
    requires 2 * minY + layerHeight > 2 * maxY
    ensures Generated(layerHeight, minY, maxY, featureName, xzSpreads) == []
  {
    GeneratedLength(layerHeight, minY, maxY, featureName, xzSpreads);
  }

  /** Truncation moves by at most one less than a whole shift `d`. */
  lemma TruncShift(x: real, d: int)
    requires d >= 0
    ensures TruncToInt(x) + d - 1 <= TruncToInt(x + d as real) <= TruncToInt(x) + d
  {
  }

  /** Every emitted height lies in [min_y, max_y]. */
  lemma LayerHeightBounds(layerHeight: int, minY: int, maxY: int, k: nat)
    requires Terminates(layerHeight, minY, maxY)
    requires k < LayerCount(layerHeight, minY, maxY)
    ensures minY <= TruncToInt(Centre(layerHeight, minY, k)) <= maxY
  {
    LayerCountExact(layerHeight, minY, maxY, k);
    MulMonotone(0, k, layerHeight);
  }

  lemma GeneratedHeightsInRange(
    layerHeight: int, minY: int, maxY: int, featureName: string, xzSpreads: seq<int>)
    requires Terminates(layerHeight, minY, maxY)
    ensures forall f :: f in Generated(layerHeight, minY, maxY, featureName, xzSpreads)
              ==> minY <= HeightOf(f) <= maxY
  {
    var g := Generated(layerHeight, minY, maxY, featureName, xzSpreads);
    forall f | f in g
      ensures minY <= HeightOf(f) <= maxY
    {
      var p :| 0 <= p < |g| && g[p] == f;
      var i, k := GeneratedPosition(layerHeight, minY, maxY, featureName, xzSpreads, p);
      LayerHeightBounds(layerHeight, minY, maxY, k);
    }
  }

  /** Within one spread heights never decrease; with a step of at least 2 they strictly
      increase (with a step of 1, truncation toward zero can repeat the height 0). */
  lemma SpreadHeightsIncrease(
    layerHeight: int, minY: int, maxY: int, featureName: string, xzSpread: int, j: nat, k: nat)
    requires Terminates(layerHeight, minY, maxY)
    requires j < k < LayerCount(layerHeight, minY, maxY)
    ensures HeightOf(SpreadFeatures(layerHeight, minY, maxY, featureName, xzSpread)[j])
            <= HeightOf(SpreadFeatures(layerHeight, minY, maxY, featureName, xzSpread)[k])
    ensures layerHeight >= 2 ==>
              HeightOf(SpreadFeatures(layerHeight, minY, maxY, featureName, xzSpread)[j])
              < HeightOf(SpreadFeatures(layerHeight, minY, maxY, featureName, xzSpread)[k])
  {
    var d := (k - j) * layerHeight;
    MulMonotone(1, k - j, layerHeight);
    assert k * layerHeight == j * layerHeight + d;
    assert Centre(layerHeight, minY, k) == Centre(layerHeight, minY, j) + d as real;
    TruncShift(Centre(layerHeight, minY, j), d);
  }

  /** With a step of at least 2 and pairwise different spreads, no two records agree on both
      spread and height, so no two would be written to the same file. */
  lemma GeneratedKeysDistinct(
    layerHeight: int, minY: int, maxY: int, featureName: string, xzSpreads: seq<int>)
    requires layerHeight >= 2
    requires forall a, b :: 0 <= a < |xzSpreads| && 0 <= b < |xzSpreads| && a != b ==> xzSpreads[a] != xzSpreads[b]
    ensures forall p, q :: 0 <= p < q < |Generated(layerHeight, minY, maxY, featureName, xzSpreads)| ==>
              var g := Generated(layerHeight, minY, maxY, featureName, xzSpreads);
              SpreadOf(g[p]) != SpreadOf(g[q]) || HeightOf(g[p]) != HeightOf(g[q])
  {
    var g := Generated(layerHeight, minY, maxY, featureName, xzSpreads);
    forall p, q | 0 <= p < q < |g|
      ensures SpreadOf(g[p]) != SpreadOf(g[q]) || HeightOf(g[p]) != HeightOf(g[q])
    {
      var i1, k1 := GeneratedPosition(layerHeight, minY, maxY, featureName, xzSpreads, p);
      var i2, k2 := GeneratedPosition(layerHeight, minY, maxY, featureName, xzSpreads, q);
      if i1 == i2 {
        var block := SpreadFeatures(layerHeight, minY, maxY, featureName, xzSpreads[i1]);
        assert g[p] == block[k1] && g[q] == block[k2];
        SpreadHeightsIncrease(layerHeight, minY, maxY, featureName, xzSpreads[i1], k1, k2);
      }
    }
  }

  /** With an even step every height is an exact integer centre: the k-th height is
      `min_y + step/2 + k*step`, so consecutive heights differ by exactly the step. */
  lemma EvenStepHeights(
    layerHeight: int, minY: int, maxY: int, featureName: string, xzSpread: int, k: nat)
    requires layerHeight > 0 && layerHeight % 2 == 0
    requires k < LayerCount(layerHeight, minY, maxY)
    ensures HeightOf(SpreadFeatures(layerHeight, minY, maxY, featureName, xzSpread)[k])
            == minY + layerHeight / 2 + k * layerHeight
  {
    var c := minY + layerHeight / 2 + k * layerHeight;
    assert Centre(layerHeight, minY, k) == c as real;
  }

  /** The summary count for spread v is n for every occurrence of v among the spreads. */
  lemma {:induction false} GeneratedSpreadCount(
    layerHeight: int, minY: int, maxY: int, featureName: string, xzSpreads: seq<int>, v: int)
    requires Terminates(layerHeight, minY, maxY)
    ensures SpreadCount(Generated(layerHeight, minY, maxY, featureName, xzSpreads), v)
            == multiset(xzSpreads)[v] * LayerCount(layerHeight, minY, maxY)
  {
    var n := LayerCount(layerHeight, minY, maxY);
    if xzSpreads != [] {
      var m := |xzSpreads|;
      var front, last := xzSpreads[..m - 1], xzSpreads[m - 1];
      var block := SpreadFeatures(layerHeight, minY, maxY, featureName, last);
      var before := Generated(layerHeight, minY, maxY, featureName, front);
      var c := multiset(front)[v];
      var blockCount := if last == v then n else 0;
      assert SpreadCount(before + block, v) == c * n + blockCount by {
        GeneratedSpreadCount(layerHeight, minY, maxY, featureName, front, v);
        SpreadCountConcat(before, block, v);
        SpreadFeaturesShape(layerHeight, minY, maxY, featureName, last);
        UniformSpreadCount(block, last, v);
      }
      assert multiset(xzSpreads)[v] == c + (if last == v then 1 else 0) by {
        assert xzSpreads == front + [last];
      }
      MulSucc(c, n);
    }
  }
}
