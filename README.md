# Spots proximity filter

A model of the proximity filter of a small Go HTTP service that answers
"which spots lie within `radius` metres of (`latitude`, `longitude`)?".
`filterSpotsInArea` walks the service's fixed spot list in order and appends
every spot for which `isSpotInArea` holds. `isSpotInArea` computes the
haversine great-circle distance from the centre to the spot and compares it
with the inclusive test `distance <= radius`.

The model has two modules:

- `Float64` (`float64.dfy`): float64 values as Go's comparison operators
  see them (`Finite(v)`, `PosInf`, `NegInf`, `NaN`) and Go's `<=`, which is
  false whenever either side is NaN. `strconv.ParseFloat` accepts "NaN" and
  "Inf", so a radius can be NaN or infinite. The haversine formula gives NaN
  when the square root of a negative number is taken, which happens for
  out-of-range coordinates.
- `SpotFilter` (`spot_filter.dfy`): the `Spot` record, the fixed list
  `Spots`, the proximity test `IsSpotInArea`, and the filter in two forms:
  - `FilterSpec`, a recursive specification function;
  - `FilterSpotsInArea`, the loop-and-append method, proved equal to
    `FilterSpec`.

The distance is a parameter `dist: Haversine`, applied to the centre's
latitude and longitude and the spot's latitude and longitude. The only fact
assumed about it is `NonNegativeDistance`: every value it returns is NaN or
a finite value `>= 0`. This holds because the distance is
`2 * atan2(√a, √(1 - a)) * 6371000`. The first argument of atan2 is a square
root, so atan2 lies in [0, π] or is NaN. Only the lemmas about negative and
zero radii need this assumption.

The Go source reads the spot list from a package-level variable. Here the
list is an explicit `seq<Spot>` argument, and `Spots` holds the three
spots the service declares. A `seq` is a value, so the filter cannot change
the list it is given. The method has no `modifies` clause and only reads it.

## Model

| member | source | states |
|---|---|---|
| `Float64.LeReflexive` | task2_Solution.go:100 | float64 `<=` holds between a value and itself exactly when the value is not NaN |
| `Float64.LeTransitive` | task2_Solution.go:100 | float64 `<=` is transitive, so comparing against a larger radius keeps every spot a smaller one kept |
| `SpotFilter.IsSpotInArea` | task2_Solution.go:88-101 | the boundary is inclusive: a spot whose distance equals the radius is in the area unless the radius is NaN; a NaN distance or a NaN radius excludes the spot; a `+Inf` radius includes exactly the spots whose distance is not NaN |
| `SpotFilter.FilterSpec` | task2_Solution.go:76-86 | the filter's result is no longer than the spot list, and every spot in it passes the proximity test |
| `SpotFilter.FilterSpotsInArea` | task2_Solution.go:76-86 | the loop with `append` returns exactly `FilterSpec` of the list; a spot is in the result iff it is in the list and in the area; the result is a subsequence of the list |
| `SpotFilter.SubsequenceBounds` | task2_Solution.go:79-81 | a subsequence of the spot list is at most as long as the list and holds only spots of the list |
| `SpotFilter.FilterMembership` | task2_Solution.go:79-83 | a spot is selected iff it is in the list and `distance <= radius` holds for it (both directions) |
| `SpotFilter.FilterIsSubsequence` | task2_Solution.go:79-81 | the selection is stable: the result is a subsequence of the list, so matching spots keep their relative order and are not re-sorted by distance |
| `SpotFilter.FilterAppend` | task2_Solution.go:79-83 | filtering a concatenated list gives the filtered first part followed by the filtered second part |
| `SpotFilter.FilterKeepsAll` | task2_Solution.go:79-83 | the result equals the whole list iff every spot in the list is in the area |
| `SpotFilter.FilterIdempotent` | task2_Solution.go:79-83 | filtering the result again with the same centre and radius returns it unchanged |
| `SpotFilter.UnboundedRadiusSelectsAll` | task2_Solution.go:100 | with radius `+Inf` and no NaN distance, the whole list is returned in order |
| `SpotFilter.FilterMonotone` | task2_Solution.go:80-100 | if `r1 <= r2` (or `r1` is NaN), the result for `r1` is a subsequence of the result for `r2` |
| `SpotFilter.NegativeRadiusSelectsNothing` | task2_Solution.go:96-100 | if distances are non-negative, a negative radius (finite or `-Inf`) gives an empty result |
| `SpotFilter.NaNRadiusSelectsNothing` | task2_Solution.go:100 | a NaN radius gives an empty result whatever the distances are |
| `SpotFilter.ZeroRadiusMatchesZeroDistance` | task2_Solution.go:96-100 | if distances are non-negative, radius 0 admits a spot iff its distance is exactly 0 |
| `SpotFilter.EmptySpotsSelectNothing` | task2_Solution.go:76-86 | an empty spot list gives an empty result |
| `SpotFilter.FixedSpotsExample` | task2_Solution.go:17-34 | on the service's three spots: if Spot 1 and Spot 2 pass the test and Spot 3 does not, the answer is `[Spot 1, Spot 2]` in that order |

## Left out

- The haversine arithmetic (`math.Sin`, `Cos`, `Atan2`, `Sqrt`, `Pow`, lines 94-98) and `toRadians` (lines 103-105) are left out. They are float64 trigonometry with no exact counterpart over Dafny's reals, so the distance is the abstract parameter `dist`.
- Distance facts that depend on float evaluation are not modelled. Examples are `distance(P, P) == 0`, symmetry, and Spot 2 lying about 960 m from Spot 1. `FixedSpotsExample` therefore takes the outcome of each spot's test as a hypothesis.
- Float64 rounding is not modelled. A finite value is an exact real, the two signed zeros are one value, and the spot literals (e.g. `37.7749`) are exact decimals rather than their nearest binary doubles.
- `main` and `getSpotsHandler` (lines 36-74) are not modelled. They are HTTP routing, query-string reading, JSON encoding and response writing. One consequence: when nothing matches, Go returns a nil slice, which `json.Marshal` writes as `null` rather than `[]`. The model returns an empty sequence.
- `parseFloat64` (lines 107-118) is not modelled. It wraps `strconv.ParseFloat`, which is not part of this model, and the file does not import `strconv`. Its effect on the core is covered by letting latitude, longitude and radius be any float64, NaN and the infinities included.
- The spot list is passed as an argument instead of being read from a package-level variable. The service never writes that variable, so the filter sees the same list on every call.
