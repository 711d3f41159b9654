/** The script's entry point (assets/python/feature_disk_maker.py, `if __name__ == "__main__"`):
    generate with layer height 8 over (-64, 320) for the default spreads [0, 8], then save.
    Also two small worked cases. */
module CanonicalRun {
  import opened Decimal
  import opened PlacedFeatures
  import opened Generator
  import opened FileWriter

  const FeatureName: string := "overworldify:water_to_lava"
  const DefaultSpreads: seq<int> := [0, 8]

  /** Layer height 8 over (-64, 320): 48 heights per spread, from -60 up to 316. */
  lemma {:induction false} CanonicalLayout(featureName: string)
    ensures LayerCount(8, -64, 320) == 48
    ensures |Generated(8, -64, 320, featureName, DefaultSpreads)| == 96
    ensures forall p :: 0 <= p < 48 ==>
              SpreadOf(Generated(8, -64, 320, featureName, DefaultSpreads)[p]) == 0
              && HeightOf(Generated(8, -64, 320, featureName, DefaultSpreads)[p]) == -60 + 8 * p
    ensures forall p :: 48 <= p < 96 ==>
              SpreadOf(Generated(8, -64, 320, featureName, DefaultSpreads)[p]) == 8
              && HeightOf(Generated(8, -64, 320, featureName, DefaultSpreads)[p]) == -60 + 8 * (p - 48)
  {
    QuotientIsDivision(760, 16);
    GeneratedLength(8, -64, 320, featureName, DefaultSpreads);
    var g := Generated(8, -64, 320, featureName, DefaultSpreads);
    forall p | 0 <= p < 96
      ensures SpreadOf(g[p]) == DefaultSpreads[p / 48] && HeightOf(g[p]) == -60 + 8 * (p % 48)
    {
      GeneratedAt(8, -64, 320, featureName, DefaultSpreads, p / 48, p % 48);
      EvenStepHeights(8, -64, 320, featureName, DefaultSpreads[p / 48], p % 48);
    }
  }

  /** The canonical run writes 96 pairwise distinct file names. */
  lemma CanonicalFileNamesDistinct(featureName: string)
    ensures forall p, q :: 0 <= p < q < |Generated(8, -64, 320, featureName, DefaultSpreads)| ==>
              FileNameOf(Generated(8, -64, 320, featureName, DefaultSpreads)[p])
              != FileNameOf(Generated(8, -64, 320, featureName, DefaultSpreads)[q])
  {
    var g := Generated(8, -64, 320, featureName, DefaultSpreads);
    GeneratedKeysDistinct(8, -64, 320, featureName, DefaultSpreads);
    forall p, q | 0 <= p < q < |g|
      ensures FileNameOf(g[p]) != FileNameOf(g[q])
    {
      FileNameInjective(SpreadOf(g[p]), HeightOf(g[p]), SpreadOf(g[q]), HeightOf(g[q]));
    }
  }

  /** Layer height 8 over (0, 16) with spread 0 only: heights 4 and 12, files
      "xz0_y4.json" and "xz0_y12.json". */
  lemma SmallRange()
    ensures var g := Generated(8, 0, 16, "x", [0]);
            |g| == 2 && HeightOf(g[0]) == 4 && HeightOf(g[1]) == 12
            && FileNameOf(g[0]) == "xz0_y4.json" && FileNameOf(g[1]) == "xz0_y12.json"
  {
    QuotientIsDivision(24, 16);
    GeneratedLength(8, 0, 16, "x", [0]);
    GeneratedAt(8, 0, 16, "x", [0], 0, 0);
    GeneratedAt(8, 0, 16, "x", [0], 0, 1);
    assert IntToString(12) == "12";
  }

  /** With layer height 1, truncation toward zero sends the centres -0.5 and 0.5 both to
      height 0: two records of one run land in the same file "xz0_y0.json". */
  lemma UnitStepCollision()
    ensures var g := Generated(1, -1, 1, FeatureName, [0]);
            |g| == 2 && g[0] == g[1] && FileNameOf(g[0]) == "xz0_y0.json"
  {
    QuotientIsDivision(3, 2);
    GeneratedLength(1, -1, 1, FeatureName, [0]);
    GeneratedAt(1, -1, 1, FeatureName, [0], 0, 0);
    GeneratedAt(1, -1, 1, FeatureName, [0], 0, 1);
  }

  /** The `__main__` block: generate, then save. 96 files, 48 of each spread, all distinct. */
  method RunDefault() returns (features: seq<PlacedFeature>, result: SaveResult)
    ensures |features| == 96
    ensures result.Saved? && |result.files| == 96
    ensures result.xz0Count == 48 && result.xz8Count == 48
    ensures forall p, q :: 0 <= p < q < |result.files| ==> result.files[p] != result.files[q]
  {
    features := GeneratePlacedFeaturesForRange(8, -64, 320, FeatureName, DefaultSpreads);
    assert LayerCount(8, -64, 320) == 48 by {
      QuotientIsDivision(760, 16);
    }
    GeneratedLength(8, -64, 320, FeatureName, DefaultSpreads);
    result := SaveFeaturesToFiles(features);
    assert result.xz0Count == 48 && result.xz8Count == 48 by {
      GeneratedSpreadCount(8, -64, 320, FeatureName, DefaultSpreads, 0);
      GeneratedSpreadCount(8, -64, 320, FeatureName, DefaultSpreads, 8);
      assert multiset(DefaultSpreads)[0] == 1 && multiset(DefaultSpreads)[8] == 1;
    }
    CanonicalFileNamesDistinct(FeatureName);
  }
}
