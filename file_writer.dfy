/** The non-I/O part of `save_features_to_files` (assets/python/feature_disk_maker.py): the
    file name of each record, the list of names in input order, and the summary counts of
    names starting with "xz0_" and "xz8_". Creating the directory and writing the JSON text
    are not modelled. */
module FileWriter {
  import opened Wrappers
  import opened Decimal
  import opened PlacedFeatures

  /** `f"xz{xz_spread}_y{height}.json"` */
  function FileName(xzSpread: int, height: int): string {
    "xz" + IntToString(xzSpread) + "_y" + IntToString(height) + ".json"
  }

  /** The name of the file a record is written to, from the two keys the writer looks up. */
  function FileNameOf(f: PlacedFeature): string
    requires HasFileNameKeys(f)
  {
    FileName(SpreadOf(f), HeightOf(f))
  }

  /** Position of the first `c` in `s`, or `|s|` when there is none. */
  function IndexOf(s: string, c: char): (i: nat)
    ensures i <= |s| && (i < |s| ==> s[i] == c) && c !in s[..i]
  {
    if s == [] then 0
    else if s[0] == c then 0
    else (assert s[1..][..IndexOf(s[1..], c)] == s[..IndexOf(s[1..], c) + 1][1..];
          IndexOf(s[1..], c) + 1)
  }

  /** Reads spread and height back out of a file name; None if it is not of the form
      `xz{int}_y{int}.json`. The inverse of `FileName`, used to prove names injective. */
  function ParseFileName(name: string): Option<(int, int)> {
    if |name| < 2 || name[..2] != "xz" then None
    else
      var rest := name[2..];
      var i := IndexOf(rest, '_');
      if |rest| < i + 2 || rest[i..i + 2] != "_y" then None
      else
        var tail := rest[i + 2..];
        if |tail| < 5 || tail[|tail| - 5..] != ".json" then None
        else
          match (ParseInt(rest[..i]), ParseInt(tail[..|tail| - 5]))
          case (Some(s), Some(h)) => Some((s, h))
          case _ => None
  }

  /** Parsing splits a name at its first '_', so it recovers the two parts whenever the
      first part has no '_'. */
  lemma ParseFileNameParts(a: string, b: string)
    requires '_' !in a
    ensures ParseFileName("xz" + a + "_y" + b + ".json")
            == match (ParseInt(a), ParseInt(b))
               case (Some(s), Some(h)) => Some((s, h))
               case _ => None
  {
    var name := "xz" + a + "_y" + b + ".json";
    var after := "y" + b + ".json";
    var rest := a + ['_'] + after;
    assert name == "xz" + rest;
    assert name[..2] == "xz" && name[2..] == rest;
    assert rest[..|a|] == a;
    var i := IndexOf(rest, '_');
    assert i == |a| by {
      assert rest[|a|] == '_';
    }
    assert rest[i..i + 2] == "_y";
    var tail := rest[i + 2..];
    assert tail == b + ".json";
    assert tail[..|tail| - 5] == b;
    assert tail[|tail| - 5..] == ".json";
  }

  /** A file name determines the spread and the height it was made from. */
  lemma FileNameRoundTrip(xzSpread: int, height: int)
    ensures ParseFileName(FileName(xzSpread, height)) == Some((xzSpread, height))
  {
    ParseFileNameParts(IntToString(xzSpread), IntToString(height));
    ParseIntRoundTrip(xzSpread);
    ParseIntRoundTrip(height);
  }

  /** The file name of a record reads back as that record's spread and height. */
  lemma FileNameOfRoundTrip(f: PlacedFeature)
    requires HasFileNameKeys(f)
    ensures ParseFileName(FileNameOf(f)) == Some((SpreadOf(f), HeightOf(f)))
  {
    FileNameRoundTrip(SpreadOf(f), HeightOf(f));
  }

  /** Two records share a file exactly when they agree on spread and height. */
  lemma FileNameInjective(s1: int, h1: int, s2: int, h2: int)
    ensures FileName(s1, h1) == FileName(s2, h2) <==> s1 == s2 && h1 == h2
  {
    FileNameRoundTrip(s1, h1);
    FileNameRoundTrip(s2, h2);
  }

  /** The summary prefix for spread `v`: "xz" + str(v) + "_" ("xz0_", "xz8_"). */
  function SpreadPrefix(v: int): string {
    "xz" + IntToString(v) + "_"
  }

  /** When neither `a` nor `d` holds '_', `d + "_"` starts `a + "_" + t` only if `a == d`. */
  lemma PrefixUpToUnderscore(a: string, d: string, t: string)
    requires '_' !in a && '_' !in d
    ensures d + "_" <= a + "_" + t <==> a == d
  {
    var s := a + "_" + t;
    if d + "_" <= s {
      assert s[|d|] == '_';
      assert s[|a|] == '_';
      if |a| == |d| {
        assert a == s[..|a|] == d;
      }
    }
  }

  lemma PrefixCancel(c: string, x: string, y: string)
    ensures c + x <= c + y <==> x <= y
  {
    if c + x <= c + y {
      assert x == (c + x)[|c|..] == (c + y)[|c|..|c| + |x|] == y[..|x|];
    }
    if x <= y {
      assert c + x == (c + y)[..|c| + |x|];
    }
  }

  /** A file name starts with the prefix of spread `v` exactly when its spread is `v`;
      because the spread's digits are followed by '_', "xz8_" is not fooled by 80 or 88. */
  lemma FileNamePrefix(xzSpread: int, height: int, v: int)
    ensures SpreadPrefix(v) <= FileName(xzSpread, height) <==> xzSpread == v
  {
    var a, d := IntToString(xzSpread), IntToString(v);
    var t := "y" + IntToString(height) + ".json";
    assert FileName(xzSpread, height) == "xz" + (a + "_" + t);
    assert SpreadPrefix(v) == "xz" + (d + "_");
    PrefixCancel("xz", d + "_", a + "_" + t);
    PrefixUpToUnderscore(a, d, t);
    IntToStringInjective(xzSpread, v);
  }

  /** `[f for f in files if f.startswith(prefix)]` */
  function FilesWithPrefix(files: seq<string>, prefix: string): (r: seq<string>)
    ensures |r| <= |files|
    ensures forall f :: f in r <==> f in files && prefix <= f
  {
    if files == [] then []
    else (if prefix <= files[0] then [files[0]] else []) + FilesWithPrefix(files[1..], prefix)
  }

  /** Counting names by prefix counts records by spread. */
  lemma {:induction false} PrefixCountIsSpreadCount(
    features: seq<PlacedFeature>, files: seq<string>, v: int)
    requires forall f :: f in features ==> HasFileNameKeys(f)
    requires |files| == |features|
    requires forall i :: 0 <= i < |features| ==> files[i] == FileNameOf(features[i])
    ensures |FilesWithPrefix(files, SpreadPrefix(v))| == SpreadCount(features, v)
  {
    if features != [] {
      FileNamePrefix(SpreadOf(features[0]), HeightOf(features[0]), v);
      assert forall i :: 0 <= i < |features[1..]| ==> files[1..][i] == FileNameOf(features[1..][i]);
      PrefixCountIsSpreadCount(features[1..], files[1..], v);
    }
  }

  /** With spreads drawn from {0, 8}, the "xz0_" and "xz8_" counts add up to the total. */
  lemma SummaryCountsCoverAll(features: seq<PlacedFeature>, files: seq<string>)
    requires forall f :: f in features ==> HasFileNameKeys(f) && (SpreadOf(f) == 0 || SpreadOf(f) == 8)
    requires |files| == |features|
    requires forall i :: 0 <= i < |features| ==> files[i] == FileNameOf(features[i])
    ensures |FilesWithPrefix(files, "xz0_")| + |FilesWithPrefix(files, "xz8_")| == |files|
  {
    assert SpreadPrefix(0) == "xz0_" && SpreadPrefix(8) == "xz8_";
    PrefixCountIsSpreadCount(features, files, 0);
    PrefixCountIsSpreadCount(features, files, 8);
    SpreadCountsCoverAll(features);
  }

  /** What the writer hands back: the names in input order with the two summary counts, or
      the position of the first record lacking a key it looks up (Python raises KeyError or
      IndexError there). */
  datatype SaveResult =
    | Saved(files: seq<string>, xz0Count: nat, xz8Count: nat)
    | LookupFailed(index: nat)

  method SaveFeaturesToFiles(features: seq<PlacedFeature>) returns (r: SaveResult)
    ensures r.LookupFailed? <==> exists i :: 0 <= i < |features| && !HasFileNameKeys(features[i])
    ensures r.LookupFailed? ==>
              r.index < |features| && !HasFileNameKeys(features[r.index])
              && forall j :: 0 <= j < r.index ==> HasFileNameKeys(features[j])
    ensures r.Saved? ==>
              |r.files| == |features|
              && forall i :: 0 <= i < |features| ==>
                   HasFileNameKeys(features[i]) && r.files[i] == FileNameOf(features[i])
    ensures r.Saved? ==>
              r.xz0Count == SpreadCount(features, 0) && r.xz8Count == SpreadCount(features, 8)
  {
    var filesCreated: seq<string> := [];
    for i := 0 to |features|
      invariant |filesCreated| == i
      invariant forall j :: 0 <= j < i ==>
                  HasFileNameKeys(features[j]) && filesCreated[j] == FileNameOf(features[j])
    {
      var feature := features[i];
      if !HasFileNameKeys(feature) {
        return LookupFailed(i);
      }
      var xzSpread := feature.placement[1].xzSpread;
      var height := feature.placement[0].absolute;
      var filename := FileName(xzSpread, height);
      filesCreated := filesCreated + [filename];
    }
    var xz0Count := |FilesWithPrefix(filesCreated, "xz0_")|;
    var xz8Count := |FilesWithPrefix(filesCreated, "xz8_")|;
    assert SpreadPrefix(0) == "xz0_" && SpreadPrefix(8) == "xz8_";
    PrefixCountIsSpreadCount(features, filesCreated, 0);
    PrefixCountIsSpreadCount(features, filesCreated, 8);
    return Saved(filesCreated, xz0Count, xz8Count);
  }
}
