/** The proximity filter of the spots service: which of a fixed list of
    named spots lie within a radius (in metres) of a centre coordinate.

    The great-circle distance is haversine trigonometry on float64; it is
    kept abstract here as the parameter `dist`, applied to the centre's
    latitude and longitude and the spot's latitude and longitude (all in
    degrees). The one fact relied on about it is `NonNegativeDistance`. */
module SpotFilter {
  import opened Float64

  /** A named point of interest. */
  datatype Spot = Spot(name: string, latitude: Float, longitude: Float)

  /** The service's fixed, process-wide spot list, in its declared order. */
  const Spots: seq<Spot> := [
    Spot("Spot 1", Finite(37.7749), Finite(-122.4194)),
    Spot("Spot 2", Finite(37.7833), Finite(-122.4167)),
    Spot("Spot 3", Finite(37.7936), Finite(-122.3987))
  ]

  /** The haversine distance in metres from (lat1, lon1) to (lat2, lon2). */
  type Haversine = (Float, Float, Float, Float) -> Float

  /** What the haversine can produce: `c * 6371000` with `c = 2 * atan2(√a, √(1 - a))`,
      and atan2 of a non-negative first argument lies in [0, π], so the
      distance is a non-negative finite value, or NaN when a square root
      is taken of a negative number. */
  predicate IsDistance(d: Float)
  {
    d.NaN? || (d.Finite? && d.v >= 0.0)
  }

  /** The assumption about the abstract distance: it only yields distances. */
  ghost predicate NonNegativeDistance(dist: Haversine)
  {
    forall lat1, lon1, lat2, lon2 :: IsDistance(dist(lat1, lon1, lat2, lon2))
  }

  /** Distance from the centre (latitude, longitude) to `spot`. */
  function DistanceTo(dist: Haversine, latitude: Float, longitude: Float, spot: Spot): Float
  {
    dist(latitude, longitude, spot.latitude, spot.longitude)
  }

  /** The proximity test: the distance to the centre is at most `radius`,
      compared with float64 `<=`. */
  function IsSpotInArea(dist: Haversine, latitude: Float, longitude: Float, radius: Float, spot: Spot): (b: bool)
    // inclusive boundary: a spot exactly at the radius is inside
    ensures DistanceTo(dist, latitude, longitude, spot) == radius ==> (b <==> !radius.NaN?)
    // a NaN on either side of the comparison excludes the spot
    ensures DistanceTo(dist, latitude, longitude, spot).NaN? || radius.NaN? ==> !b
    // an infinite radius takes in every spot whose distance is not NaN
    ensures radius.PosInf? ==> (b <==> !DistanceTo(dist, latitude, longitude, spot).NaN?)
  {
    Le(DistanceTo(dist, latitude, longitude, spot), radius)
  }

  /** The spots of `spots` that lie in the area, in their original order:
      the value the filtering loop has accumulated after the whole list. */
  function FilterSpec(dist: Haversine, latitude: Float, longitude: Float, radius: Float, spots: seq<Spot>): (r: seq<Spot>)
    ensures |r| <= |spots|
    ensures forall k :: 0 <= k < |r| ==> IsSpotInArea(dist, latitude, longitude, radius, r[k])
    decreases |spots|
  {
    if spots == [] then []
    else
      var init := FilterSpec(dist, latitude, longitude, radius, spots[..|spots| - 1]);
      var last := spots[|spots| - 1];
      if IsSpotInArea(dist, latitude, longitude, radius, last) then init + [last] else init
  }

  /** `r` can be obtained from `s` by deleting elements: the elements of `r`
      occur in `s` in the same relative order. */
  predicate IsSubsequence<T(==)>(r: seq<T>, s: seq<T>)
    decreases |s|
  {
    if r == [] then true
    else if s == [] then false
    else
      (r[|r| - 1] == s[|s| - 1] && IsSubsequence(r[..|r| - 1], s[..|s| - 1]))
      || IsSubsequence(r, s[..|s| - 1])
  }

  /** A subsequence is no longer than its source and holds only its elements. */
  lemma {:induction false} SubsequenceBounds<T>(r: seq<T>, s: seq<T>)
    requires IsSubsequence(r, s)
    ensures |r| <= |s|
    ensures forall x :: x in r ==> x in s
    decreases |s|
  {
    if r != [] {
      var s' := s[..|s| - 1];
      assert s == s' + [s[|s| - 1]];
      if r[|r| - 1] == s[|s| - 1] && IsSubsequence(r[..|r| - 1], s') {
        SubsequenceBounds(r[..|r| - 1], s');
        assert r == r[..|r| - 1] + [r[|r| - 1]];
      } else {
        SubsequenceBounds(r, s');
      }
    }
  }

  /** Walks the spot list in order and appends each spot in the area to the
      result. The list is a value parameter: the filter only reads it. */
  method FilterSpotsInArea(dist: Haversine, latitude: Float, longitude: Float, radius: Float, spots: seq<Spot>)
    returns (spotsInArea: seq<Spot>)
    ensures spotsInArea == FilterSpec(dist, latitude, longitude, radius, spots)
    ensures forall x :: x in spotsInArea <==> x in spots && IsSpotInArea(dist, latitude, longitude, radius, x)
    ensures IsSubsequence(spotsInArea, spots)
  {
    spotsInArea := [];
    for i := 0 to |spots|
      invariant spotsInArea == FilterSpec(dist, latitude, longitude, radius, spots[..i])
    {
      assert spots[..i + 1][..i] == spots[..i];
      if IsSpotInArea(dist, latitude, longitude, radius, spots[i]) {
        spotsInArea := spotsInArea + [spots[i]];
      }
    }
    assert spots[..|spots|] == spots;
    forall x ensures x in spotsInArea <==> x in spots && IsSpotInArea(dist, latitude, longitude, radius, x) {
      FilterMembership(dist, latitude, longitude, radius, spots, x);
    }
    FilterIsSubsequence(dist, latitude, longitude, radius, spots);
  }

  /** A spot is selected if and only if it is in the list and in the area. */
  lemma {:induction false} FilterMembership(dist: Haversine, latitude: Float, longitude: Float, radius: Float, spots: seq<Spot>, x: Spot)
    ensures x in FilterSpec(dist, latitude, longitude, radius, spots)
        <==> x in spots && IsSpotInArea(dist, latitude, longitude, radius, x)
    decreases |spots|
  {
    if spots != [] {
      var init := spots[..|spots| - 1];
      assert spots == init + [spots[|spots| - 1]];
      FilterMembership(dist, latitude, longitude, radius, init, x);
    }
  }

  /** The selection is stable: selected spots keep their relative order and
      are never re-sorted. */
  lemma {:induction false} FilterIsSubsequence(dist: Haversine, latitude: Float, longitude: Float, radius: Float, spots: seq<Spot>)
    ensures IsSubsequence(FilterSpec(dist, latitude, longitude, radius, spots), spots)
    decreases |spots|
  {
    if spots != [] {
      var init := spots[..|spots| - 1];
      var prev := FilterSpec(dist, latitude, longitude, radius, init);
      FilterIsSubsequence(dist, latitude, longitude, radius, init);
      if IsSpotInArea(dist, latitude, longitude, radius, spots[|spots| - 1]) {
        var r := prev + [spots[|spots| - 1]];
        assert r[..|r| - 1] == prev;
      }
    }
  }

  /** The filter distributes over concatenation: each part of the list is
      filtered on its own and the results are kept in list order. */
  lemma {:induction false} FilterAppend(dist: Haversine, latitude: Float, longitude: Float, radius: Float, a: seq<Spot>, b: seq<Spot>)
    ensures FilterSpec(dist, latitude, longitude, radius, a + b)
         == FilterSpec(dist, latitude, longitude, radius, a) + FilterSpec(dist, latitude, longitude, radius, b)
    decreases |b|
  {
    if b == [] {
      assert a + b == a;
    } else {
      var b' := b[..|b| - 1];
      assert (a + b)[..|a + b| - 1] == a + b';
      FilterAppend(dist, latitude, longitude, radius, a, b');
    }
  }

  /** Every spot is kept exactly when every spot is in the area. */
  lemma {:induction false} FilterKeepsAll(dist: Haversine, latitude: Float, longitude: Float, radius: Float, spots: seq<Spot>)
    ensures FilterSpec(dist, latitude, longitude, radius, spots) == spots
        <==> forall k :: 0 <= k < |spots| ==> IsSpotInArea(dist, latitude, longitude, radius, spots[k])
    decreases |spots|
  {
    if spots != [] {
      var init := spots[..|spots| - 1];
      FilterKeepsAll(dist, latitude, longitude, radius, init);
      assert spots == init + [spots[|spots| - 1]];
    }
  }

  /** Filtering the result a second time with the same query changes nothing. */
  lemma FilterIdempotent(dist: Haversine, latitude: Float, longitude: Float, radius: Float, spots: seq<Spot>)
    ensures var r := FilterSpec(dist, latitude, longitude, radius, spots);
            FilterSpec(dist, latitude, longitude, radius, r) == r
  {
  }

  /** An infinite radius returns the whole list, provided no distance is NaN. */
  lemma UnboundedRadiusSelectsAll(dist: Haversine, latitude: Float, longitude: Float, spots: seq<Spot>)
    requires forall k :: 0 <= k < |spots| ==> !DistanceTo(dist, latitude, longitude, spots[k]).NaN?
    ensures FilterSpec(dist, latitude, longitude, PosInf, spots) == spots
  {
  }

  /** Growing the radius can only add spots: the result for the smaller
      radius is a subsequence of the result for the larger one. A NaN
      radius selects nothing, so it counts as the smallest. */
  lemma {:induction false} FilterMonotone(dist: Haversine, latitude: Float, longitude: Float, r1: Float, r2: Float, spots: seq<Spot>)
    requires r1.NaN? || Le(r1, r2)
    ensures IsSubsequence(FilterSpec(dist, latitude, longitude, r1, spots), FilterSpec(dist, latitude, longitude, r2, spots))
    decreases |spots|
  {
    if spots != [] {
      var init := spots[..|spots| - 1];
      var last := spots[|spots| - 1];
      var f1 := FilterSpec(dist, latitude, longitude, r1, init);
      var f2 := FilterSpec(dist, latitude, longitude, r2, init);
      FilterMonotone(dist, latitude, longitude, r1, r2, init);
      var in1 := IsSpotInArea(dist, latitude, longitude, r1, last);
      var in2 := IsSpotInArea(dist, latitude, longitude, r2, last);
      if in1 {
        LeTransitive(DistanceTo(dist, latitude, longitude, last), r1, r2);
        var g1, g2 := f1 + [last], f2 + [last];
        assert g1[..|g1| - 1] == f1 && g2[..|g2| - 1] == f2;
      } else if in2 {
        var g2 := f2 + [last];
        assert g2[..|g2| - 1] == f2;
      }
    }
  }

  /** With non-negative distances, a negative radius selects nothing. */
  lemma {:induction false} NegativeRadiusSelectsNothing(dist: Haversine, latitude: Float, longitude: Float, radius: Float, spots: seq<Spot>)
    requires NonNegativeDistance(dist)
    requires IsNegative(radius)
    ensures FilterSpec(dist, latitude, longitude, radius, spots) == []
    decreases |spots|
  {
    if spots != [] {
      NegativeRadiusSelectsNothing(dist, latitude, longitude, radius, spots[..|spots| - 1]);
      assert IsDistance(DistanceTo(dist, latitude, longitude, spots[|spots| - 1]));
    }
  }

  /** A NaN radius (what ParseFloat gives for "NaN") selects nothing. */
  lemma {:induction false} NaNRadiusSelectsNothing(dist: Haversine, latitude: Float, longitude: Float, spots: seq<Spot>)
    ensures FilterSpec(dist, latitude, longitude, NaN, spots) == []
    decreases |spots|
  {
    if spots != [] {
      NaNRadiusSelectsNothing(dist, latitude, longitude, spots[..|spots| - 1]);
    }
  }

  /** A radius of zero selects exactly the spots at distance zero. */
  lemma ZeroRadiusMatchesZeroDistance(dist: Haversine, latitude: Float, longitude: Float, spot: Spot)
    requires NonNegativeDistance(dist)
    ensures IsSpotInArea(dist, latitude, longitude, Finite(0.0), spot)
        <==> DistanceTo(dist, latitude, longitude, spot) == Finite(0.0)
  {
  }

  /** An empty spot list gives an empty result. */
  lemma EmptySpotsSelectNothing(dist: Haversine, latitude: Float, longitude: Float, radius: Float)
    ensures FilterSpec(dist, latitude, longitude, radius, []) == []
  {
  }

  /** On the service's own list: when Spot 1 and Spot 2 are within the radius
      and Spot 3 is not, the answer is Spot 1 then Spot 2. */
  lemma FixedSpotsExample(dist: Haversine, latitude: Float, longitude: Float, radius: Float)
    requires IsSpotInArea(dist, latitude, longitude, radius, Spots[0])
    requires IsSpotInArea(dist, latitude, longitude, radius, Spots[1])
    requires !IsSpotInArea(dist, latitude, longitude, radius, Spots[2])
    ensures FilterSpec(dist, latitude, longitude, radius, Spots) == [Spots[0], Spots[1]]
  {
  }
}
