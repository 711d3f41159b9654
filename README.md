# Placed-feature disk maker, modelled in Dafny

The source is a one-file offline generator, `assets/python/feature_disk_maker.py`. It writes
"placed feature" JSON definitions for a voxel-game data pack. Each record names a feature
and carries two placement modifiers in a fixed order:
- a `minecraft:height_range` modifier at an absolute height;
- a `minecraft:random_offset` modifier with a horizontal spread and a vertical spread of 0.

The generator takes a layer height, a range `(min_y, max_y)` and a list of spreads. For each
spread in order, it starts a height at `min_y + layer_height / 2` and steps it by
`layer_height` while it stays at most `max_y`. It emits one record per step, with height
`int(current_height)`. The writer names each record's file `xz{spread}_y{height}.json`,
collects the names in input order, and counts the names that start with `xz0_` and `xz8_`.

The model has these modules:
- `PlacedFeatures` (placed_feature.dfy): the record datatype, Python's truncating `int()`
  on a real, the template, and per-spread record counts.
- `Generator` (generator.dfy): a reference definition of the output and the nested-loop
  method proved equal to it. Lemmas cover the count per spread, the block order, height
  bounds and monotonicity, distinctness, and non-termination when the step is not positive.
- `Decimal` (decimal.dfy): Python's `str(int)` and its inverse.
- `FileWriter` (file_writer.dfy): file names, parsing them back, prefix counts, and the
  save loop as a method.
- `CanonicalRun` (canonical_run.dfy): the `__main__` call and worked cases.
- `Wrappers` (wrappers.dfy): `Option`.

Heights are exact. `layer_height`, `min_y` and `max_y` are integers. The running
`current_height` is a Dafny `real`, so `min_y + step / 2` is the exact half-integer that the
Python float holds. The number of heights per spread is
`floor((max_y - min_y - step/2) / step) + 1`, or 0 when the first height is above `max_y`
(`Generator.LayerCount`, tied to `/` by `Generator.QuotientIsDivision`).

The model follows the code as written; points worth noting:
- A non-positive layer height is not rejected with an error. The Python loop runs forever
  unless the first height is already above `max_y`, in which case nothing is emitted. The
  generator method requires exactly this termination condition (`Generator.Terminates`).
  `Generator.NonPositiveStepNeverStops` shows that the loop condition stays true forever
  otherwise.
- `min_y >= max_y` is accepted. It yields no records when the first height lies above
  `max_y` (`Generator.GeneratedEmptyWhenNoRoom`).
- The summary counts only the `xz0_` and `xz8_` prefixes, as the code does.
  `Generator.GeneratedSpreadCount` gives the count for any spread value.
- The file-name mapping is not injective for every input. With a layer height of 1,
  truncation toward zero maps the centres -0.5 and 0.5 both to height 0, so two records
  get the file `xz0_y0.json` (`CanonicalRun.UnitStepCollision`). With a layer height of 2
  or more and distinct spreads, all names differ (`Generator.GeneratedKeysDistinct`,
  `FileWriter.FileNameInjective`).

## Model

| member | source | states |
|---|---|---|
| `PlacedFeatures.TruncToInt` | assets/python/feature_disk_maker.py:10 | `int(y)` truncates toward zero: for y >= 0 the result is the largest integer at most y, and for y < 0 the smallest integer at least y |
| `PlacedFeatures.HasFileNameKeys` | assets/python/feature_disk_maker.py:49-50 | the record has a height-range entry at `placement[0]` and a random-offset entry at `placement[1]`, so both lookups succeed; `FileWriter.SaveFeaturesToFiles` fails exactly when some record lacks this |
| `PlacedFeatures.HeightOf` | assets/python/feature_disk_maker.py:50 | the lookup `placement[0]["height"]["absolute"]`; on a generated record it is `int(y)` (`PlacedFeatures.GeneratePlacedFeature`) |
| `PlacedFeatures.SpreadOf` | assets/python/feature_disk_maker.py:49 | the lookup `placement[1]["xz_spread"]`; on a generated record it is the spread passed in (`PlacedFeatures.GeneratePlacedFeature`) |
| `PlacedFeatures.GeneratePlacedFeature` | assets/python/feature_disk_maker.py:5-17 | the record keeps the feature name and has exactly two placement entries: first a height-range entry whose absolute height is `int(y)`, then a random-offset entry with the given `xz_spread` and `y_spread = 0`; the writer's two lookups succeed on it |
| `PlacedFeatures.SpreadCount` | assets/python/feature_disk_maker.py:62-64 | the number of records with a given spread is at most the number of records, and it is zero exactly when no record has that spread |
| `PlacedFeatures.SpreadCountConcat` | assets/python/feature_disk_maker.py:62-64 | counting records by spread is additive over concatenation |
| `PlacedFeatures.UniformSpreadCount` | assets/python/feature_disk_maker.py:62-64 | records that all have spread s count fully under s and not at all under any other value |
| `PlacedFeatures.SpreadCountsCoverAll` | assets/python/feature_disk_maker.py:60-64 | when every spread is 0 or 8, the spread-0 count plus the spread-8 count equals the number of records |
| `Generator.Terminates` | assets/python/feature_disk_maker.py:32-38 | the inner `while` exits: the step is positive or the first height is already above `max_y`; without it the loop runs forever (`Generator.NonPositiveStepNeverStops`) |
| `Generator.Centre` | assets/python/feature_disk_maker.py:32-38 | the value of `current_height` after k steps; `Generator.CentreAdvances` shows it starts at `min_y + step/2` and grows by `step` per step, and `Generator.GeneratedAt` places the k-th record at it |
| `Generator.CentreAdvances` | assets/python/feature_disk_maker.py:32-38 | `current_height` starts at `min_y + step/2` and each iteration adds `step` |
| `Generator.LayerCount` | assets/python/feature_disk_maker.py:32-38 | the number of heights emitted per spread is zero exactly when the first height `min_y + step/2` exceeds `max_y`; `Generator.LayerCountExact` and `Generator.QuotientIsDivision` give its exact value |
| `Generator.Quotient` | assets/python/feature_disk_maker.py:32-38 | floor division of a natural number by a positive one: q*b <= a < q*b + b |
| `Generator.SpreadFeatures` | assets/python/feature_disk_maker.py:32-38 | the records of one spread in loop order; `Generator.SpreadFeaturesShape` states their number, spread, name and heights |
| `Generator.SpreadFeaturesShape` | assets/python/feature_disk_maker.py:32-38 | one spread's run has `LayerCount` records, each with that spread and the feature name, the k-th at height `int` of the k-th `current_height` |
| `Generator.QuotientIsDivision` | assets/python/feature_disk_maker.py:32-38 | the step count agrees with Euclidean division, giving the closed form `floor((max_y - min_y - step/2) / step) + 1` |
| `Generator.Generated` | assets/python/feature_disk_maker.py:31-40 | the reference output: for each spread in order, one template record per height; every record has the keys the writer reads |
| `Generator.GeneratePlacedFeaturesForRange` | assets/python/feature_disk_maker.py:20-40 | the outer `for` over spreads and the inner `while` over heights, under the Python termination condition, return exactly the reference output |
| `Generator.LayerCountExact` | assets/python/feature_disk_maker.py:32-38 | with a positive step, step k >= 0 is emitted if and only if `min_y + step/2 + k*step <= max_y`: exactly one record per such k and none beyond |
| `Generator.NonPositiveStepNeverStops` | assets/python/feature_disk_maker.py:32-38 | with `layer_height <= 0` and a first height within range, every later height is still at most `max_y`, so the `while` loop never exits |
| `Generator.GeneratedLength` | assets/python/feature_disk_maker.py:31-40 | the output length is the number of spreads times the per-spread height count |
| `Generator.GeneratedBlock` | assets/python/feature_disk_maker.py:31-40 | positions i*n up to (i+1)*n of the output hold exactly the records of the i-th spread, so every record of an earlier spread precedes every record of a later one |
| `Generator.GeneratedAt` | assets/python/feature_disk_maker.py:31-38 | position i*n + k of the output exists and holds the template at the k-th height `min_y + step/2 + k*step` with the i-th spread |
| `Generator.GeneratedPosition` | assets/python/feature_disk_maker.py:31-38 | every output position is i*n + k for some spread index i and step k, and holds the corresponding template |
| `Generator.GeneratedEmptyWhenNoRoom` | assets/python/feature_disk_maker.py:32-33 | when `min_y + step/2 > max_y` (for example `min_y == max_y` with a positive step) the output is empty |
| `Generator.LayerHeightBounds` | assets/python/feature_disk_maker.py:32-38 | every emitted height `int(current_height)` lies between `min_y` and `max_y` inclusive |
| `Generator.GeneratedHeightsInRange` | assets/python/feature_disk_maker.py:31-40 | every record in the output has a height between `min_y` and `max_y` inclusive |
| `Generator.SpreadHeightsIncrease` | assets/python/feature_disk_maker.py:32-38 | within one spread, heights never decrease, and with a step of at least 2 they strictly increase |
| `Generator.EvenStepHeights` | assets/python/feature_disk_maker.py:32-38 | with an even step, the k-th height is exactly `min_y + step/2 + k*step`, so consecutive heights differ by the step |
| `Generator.GeneratedKeysDistinct` | assets/python/feature_disk_maker.py:31-38 | with a step of at least 2 and pairwise different spreads, no two records agree on both spread and height |
| `Generator.GeneratedSpreadCount` | assets/python/feature_disk_maker.py:31-40 | the number of records with spread v is the number of occurrences of v among the spreads times the per-spread height count |
| `Decimal.NatToString` | assets/python/feature_disk_maker.py:52 | the decimal text of a natural number is non-empty, is all digits, has no leading zero, and has one digit exactly when the number is below 10 |
| `Decimal.IntToString` | assets/python/feature_disk_maker.py:52 | the text of an int starts with '-' exactly when the int is negative, and contains no '_' |
| `Decimal.ParseNatRoundTrip` | assets/python/feature_disk_maker.py:52 | reading back the digits of a natural number gives that number |
| `Decimal.ParseIntRoundTrip` | assets/python/feature_disk_maker.py:52 | reading back the text of any int gives that int |
| `Decimal.IntToStringInjective` | assets/python/feature_disk_maker.py:52 | two ints have the same text if and only if they are equal |
| `FileWriter.FileName` | assets/python/feature_disk_maker.py:52 | the f-string `xz{spread}_y{height}.json`; it parses back to (spread, height) (`FileWriter.FileNameRoundTrip`), is injective (`FileWriter.FileNameInjective`), and starts with `xz{v}_` exactly when the spread is v (`FileWriter.FileNamePrefix`) |
| `FileWriter.FileNameOf` | assets/python/feature_disk_maker.py:49-52 | the name built from a record's two looked-up keys; it parses back to that record's spread and height (`FileWriter.FileNameOfRoundTrip`) |
| `FileWriter.FileNameOfRoundTrip` | assets/python/feature_disk_maker.py:49-52 | the name of a record with both keys parses back to exactly that record's (spread, height) |
| `FileWriter.IndexOf` | assets/python/feature_disk_maker.py:52 | proof device for the inverse of line 52, used for `FileWriter.FileNameInjective`: the first occurrence of a character, within bounds, with the character at that position and not before it |
| `FileWriter.ParseFileName` | assets/python/feature_disk_maker.py:52 | proof device: the inverse of line 52, used for `FileWriter.FileNameInjective`; `FileWriter.FileNameRoundTrip` shows it undoes `FileWriter.FileName` |
| `FileWriter.ParseFileNameParts` | assets/python/feature_disk_maker.py:52 | a name `xz{a}_y{b}.json` whose first part has no '_' parses back into the values of a and b |
| `FileWriter.FileNameRoundTrip` | assets/python/feature_disk_maker.py:52 | parsing `xz{spread}_y{height}.json` gives back exactly (spread, height) |
| `FileWriter.FileNameInjective` | assets/python/feature_disk_maker.py:52 | two (spread, height) pairs give the same file name if and only if they are equal |
| `FileWriter.PrefixUpToUnderscore` | assets/python/feature_disk_maker.py:63-64 | for '_'-free a and d, `d + "_"` starts `a + "_" + t` if and only if a equals d |
| `FileWriter.PrefixCancel` | assets/python/feature_disk_maker.py:63-64 | a shared leading string does not change whether one string starts another |
| `FileWriter.FileNamePrefix` | assets/python/feature_disk_maker.py:63-64 | a file name starts with `"xz" + str(v) + "_"` if and only if its spread is v, so "xz8_" does not match spread 80 or 88 |
| `FileWriter.FilesWithPrefix` | assets/python/feature_disk_maker.py:63-64 | the list comprehension keeps exactly the names that start with the prefix and is no longer than its input |
| `FileWriter.PrefixCountIsSpreadCount` | assets/python/feature_disk_maker.py:63-64 | counting the file names that start with a spread's prefix counts the records with that spread |
| `FileWriter.SummaryCountsCoverAll` | assets/python/feature_disk_maker.py:60-64 | when every spread is 0 or 8, the `xz0_` count plus the `xz8_` count equals the number of files |
| `FileWriter.SaveFeaturesToFiles` | assets/python/feature_disk_maker.py:43-69 | fails at the first record that lacks a looked-up key, and only then; otherwise returns one name per record, in input order, built from `placement[1]`'s spread and `placement[0]`'s height, with `xz0_`/`xz8_` counts equal to the numbers of records with spread 0 and 8 |
| `CanonicalRun.CanonicalLayout` | assets/python/feature_disk_maker.py:73-77 | layer height 8 over (-64, 320) with spreads [0, 8] gives 48 heights per spread and 96 records; position p < 48 has spread 0 and height -60 + 8p, and position p >= 48 has spread 8 and height -60 + 8(p - 48), so the heights run from -60 to 316 |
| `CanonicalRun.CanonicalFileNamesDistinct` | assets/python/feature_disk_maker.py:73-78 | the canonical run's 96 file names are pairwise distinct |
| `CanonicalRun.SmallRange` | assets/python/feature_disk_maker.py:32-58 | layer height 8 over (0, 16) with spread 0 gives heights 4 and 12 and the files `xz0_y4.json` and `xz0_y12.json` |
| `CanonicalRun.UnitStepCollision` | assets/python/feature_disk_maker.py:10 | with layer height 1 over (-1, 1), both centres truncate to 0, so the two records are equal and share the file `xz0_y0.json` |
| `CanonicalRun.RunDefault` | assets/python/feature_disk_maker.py:72-79 | the entry point generates 96 records and saves them into 96 pairwise distinct names, 48 starting with `xz0_` and 48 with `xz8_` |

## Left out

- Creating the output directory, joining paths, opening files and `json.dump` with indent 2
  (lines 46, 53-56) are file-system I/O and library serialisation. The model computes the
  names the files would get but no file contents. So the round trip of a written JSON file
  and the idempotence of rewriting are not modelled; the file-name round trip stands in
  for the first.
- A later write to an already-used name overwrites the earlier file. The file system is not
  modelled; the returned name list keeps duplicates, as the Python list does.
- The `print` lines (60, 66-67, 79) are console output. The model returns the counts they
  print, not the text.
- Layer heights and range bounds that are not integers, and float rounding of very large
  values, are not modelled. Heights are exact reals over integer inputs.
- `int(xz_spread)` and `int(0)` (lines 13-14) are identities on the integer spreads the
  model takes. A float spread is not modelled.
- The mutable default argument `xz_spreads=[0, 8]` (line 21) is a Python aliasing detail.
  The spreads are passed explicitly; `CanonicalRun.DefaultSpreads` is `[0, 8]`.
- `GeneratePlacedFeaturesForRange` is modelled only on calls that terminate. The Python
  loop never returns when the step is not positive and the first height is within range;
  `Generator.NonPositiveStepNeverStops` proves that the loop condition stays true.
- Calling the generator twice with the same arguments gives the same output. This holds
  because Dafny functions are deterministic, so no lemma states it.
