/** The `placed_feature` record the generator emits (assets/python/feature_disk_maker.py,
    `generate_placed_feature`): a feature name and an ordered list of placement modifiers.
    The record is a value: it is built once and only read afterwards. */
module PlacedFeatures {

  /** One placement modifier. `HeightRange` stands for the JSON object whose "type" is
      "minecraft:height_range" and whose "height" is {"absolute": n}; `RandomOffset` for
      the one whose "type" is "minecraft:random_offset". */
  datatype PlacementModifier =
    | HeightRange(absolute: int)
    | RandomOffset(xzSpread: int, ySpread: int)

  datatype PlacedFeature = PlacedFeature(feature: string, placement: seq<PlacementModifier>)

  /** Python's `int(y)` on a float: truncation toward zero, so -60.5 becomes -60. */
  function TruncToInt(y: real): (r: int)
    ensures 0.0 <= y ==> r as real <= y < r as real + 1.0
    ensures y < 0.0 ==> r as real - 1.0 < y <= r as real
  {
    if y >= 0.0 then y.Floor else -((-y).Floor)
  }

  /** The record has the two entries the file writer looks up: `placement[0]["height"]`
      and `placement[1]["xz_spread"]`. */
  predicate HasFileNameKeys(f: PlacedFeature) {
    |f.placement| >= 2 && f.placement[0].HeightRange? && f.placement[1].RandomOffset?
  }

  /** `feature["placement"][0]["height"]["absolute"]` */
  function HeightOf(f: PlacedFeature): int
    requires HasFileNameKeys(f)
  {
    f.placement[0].absolute
  }

  /** `feature["placement"][1]["xz_spread"]` */
  function SpreadOf(f: PlacedFeature): int
    requires HasFileNameKeys(f)
  {
    f.placement[1].xzSpread
  }

  /** The template: a height-range modifier at `int(y)`, then a random offset with the
      given horizontal spread and no vertical spread. */
  function GeneratePlacedFeature(y: real, xzSpread: int, featureName: string): (r: PlacedFeature)
    ensures r.feature == featureName
    ensures |r.placement| == 2 && HasFileNameKeys(r)
    ensures HeightOf(r) == TruncToInt(y)
    ensures SpreadOf(r) == xzSpread && r.placement[1].ySpread == 0
  {
    PlacedFeature(featureName, [HeightRange(TruncToInt(y)), RandomOffset(xzSpread, 0)])
  }

  /** How many records carry horizontal spread `v` (the summary groups files this way). */
  function SpreadCount(features: seq<PlacedFeature>, v: int): (n: nat)
    requires forall f :: f in features ==> HasFileNameKeys(f)
    ensures n <= |features|
    ensures n == 0 <==> forall f :: f in features ==> SpreadOf(f) != v
  {
    if features == [] then 0
    else (if SpreadOf(features[0]) == v then 1 else 0) + SpreadCount(features[1..], v)
  }

  /** Counting is additive over concatenation. */
  lemma {:induction false} SpreadCountConcat(a: seq<PlacedFeature>, b: seq<PlacedFeature>, v: int)
    requires forall f :: f in a ==> HasFileNameKeys(f)
    requires forall f :: f in b ==> HasFileNameKeys(f)
    ensures SpreadCount(a + b, v) == SpreadCount(a, v) + SpreadCount(b, v)
  {
    if a != [] {
      assert (a + b)[1..] == a[1..] + b;
      SpreadCountConcat(a[1..], b, v);
    } else {
      assert a + b == b;
    }
  }

  /** When every spread is 0 or 8, the two counts together account for every record. */
  lemma {:induction false} SpreadCountsCoverAll(features: seq<PlacedFeature>)
    requires forall f :: f in features ==> HasFileNameKeys(f) && (SpreadOf(f) == 0 || SpreadOf(f) == 8)
    ensures SpreadCount(features, 0) + SpreadCount(features, 8) == |features|
  {
    if features != [] {
      SpreadCountsCoverAll(features[1..]);
    }
  }

  /** Records that all carry spread `s` count fully under `s` and not at all under any other value. */
  lemma {:induction false} UniformSpreadCount(features: seq<PlacedFeature>, s: int, v: int)
    requires forall f :: f in features ==> HasFileNameKeys(f) && SpreadOf(f) == s
    ensures SpreadCount(features, v) == if s == v then |features| else 0
  {
    if features != [] {
      UniformSpreadCount(features[1..], s, v);
    }
  }
}
