/**
 * Model of Frontend/utils/filterParkingSpots.ts: `filterParkingSpots` keeps, in order, the
 * parking records that pass four independently switchable tests (length, width, distance
 * from the user, price per hour).
 *
 * JavaScript numbers are modelled as `real`; a record field or criterion that is
 * `undefined` is `None`. Two foreign operations are parameters: `toNumber` is the global
 * `Number(...)` applied to a criterion string (`None` when it yields NaN), and `dist` is
 * `calculateDistance(lat1, lon1, lat2, lon2)`, the haversine distance in kilometres.
 */
module ParkingFilter {
  import opened Options

  datatype GeoPoint = GeoPoint(latitude: real, longitude: real)

  /** The fields of a parking record that the filter reads; any of them may be missing. */
  datatype ParkingRecord = ParkingRecord(
    length: Option<real>,
    width: Option<real>,
    latitude: Option<real>,
    longitude: Option<real>,
    pricePerHour: Option<real>)

  /** The filter criteria; dimensions arrive as the strings typed by the user. */
  datatype FilterCriteria = FilterCriteria(
    length: Option<string>,
    width: Option<string>,
    distance: Option<real>,
    minPrice: Option<real>,
    maxPrice: Option<real>,
    userLocation: Option<GeoPoint>)

  /** JavaScript truthiness of an optional string: defined and not empty. */
  predicate Truthy(s: Option<string>) {
    s.Some? && s.value != ""
  }

  /** JavaScript `x >= bound`: false when either side is undefined or NaN. */
  predicate AtLeast(x: Option<real>, bound: Option<real>) {
    x.Some? && bound.Some? && x.value >= bound.value
  }

  predicate PassesLength(p: ParkingRecord, c: FilterCriteria, toNumber: string -> Option<real>) {
    Truthy(c.length) ==> AtLeast(p.length, toNumber(c.length.value))
  }

  predicate PassesWidth(p: ParkingRecord, c: FilterCriteria, toNumber: string -> Option<real>) {
    Truthy(c.width) ==> AtLeast(p.width, toNumber(c.width.value))
  }

  /** The distance test is on when `distance` is truthy (defined, not 0) and a user location is given. */
  predicate DistanceActive(c: FilterCriteria) {
    c.distance.Some? && c.distance.value != 0.0 && c.userLocation.Some?
  }

  /** A record without coordinates gives a NaN distance, which fails `<=`. */
  predicate PassesDistance(p: ParkingRecord, c: FilterCriteria, dist: (real, real, real, real) -> real) {
    DistanceActive(c) ==>
      && p.latitude.Some? && p.longitude.Some?
      && dist(p.latitude.value, p.longitude.value,
              c.userLocation.value.latitude, c.userLocation.value.longitude) <= c.distance.value
  }

  /** The price test is on only when both bounds are defined. */
  predicate PriceActive(c: FilterCriteria) {
    c.minPrice.Some? && c.maxPrice.Some?
  }

  predicate PassesPrice(p: ParkingRecord, c: FilterCriteria) {
    PriceActive(c) ==>
      p.pricePerHour.Some? && c.minPrice.value <= p.pricePerHour.value <= c.maxPrice.value
  }

  /** The callback given to `parkingData.filter`. */
  predicate Keep(p: ParkingRecord, c: FilterCriteria, toNumber: string -> Option<real>,
                 dist: (real, real, real, real) -> real)
  {
    PassesLength(p, c, toNumber) && PassesWidth(p, c, toNumber) && PassesDistance(p, c, dist) && PassesPrice(p, c)
  }

  /** `a` is `b` with some elements removed, the rest in their original order. */
  predicate IsSubsequence<T(==)>(a: seq<T>, b: seq<T>)
    decreases |b|
  {
    a == [] || (b != [] && ((a[0] == b[0] && IsSubsequence(a[1..], b[1..])) || IsSubsequence(a, b[1..])))
  }

  /**
   * `filterParkingSpots`: the records that pass, in their original order, each kept record
   * occurring exactly as often as in the input.
   */
  function FilterParkingSpots(parkingData: seq<ParkingRecord>, c: FilterCriteria,
                              toNumber: string -> Option<real>, dist: (real, real, real, real) -> real)
    : (r: seq<ParkingRecord>)
    ensures IsSubsequence(r, parkingData)
    ensures forall p :: p in r ==> Keep(p, c, toNumber, dist)
    ensures forall p :: multiset(r)[p] == if Keep(p, c, toNumber, dist) then multiset(parkingData)[p] else 0
  {
    if parkingData == [] then []
    else
      var rest := FilterParkingSpots(parkingData[1..], c, toNumber, dist);
      assert parkingData == [parkingData[0]] + parkingData[1..];
      if Keep(parkingData[0], c, toNumber, dist) then [parkingData[0]] + rest else rest
  }

  /** A record is in the result iff it is in the input and passes all four tests. */
  lemma KeptIffPasses(parkingData: seq<ParkingRecord>, c: FilterCriteria, toNumber: string -> Option<real>,
                      dist: (real, real, real, real) -> real, p: ParkingRecord)
    ensures p in FilterParkingSpots(parkingData, c, toNumber, dist) <==> p in parkingData && Keep(p, c, toNumber, dist)
  {
    var r := FilterParkingSpots(parkingData, c, toNumber, dist);
    assert p in r <==> multiset(r)[p] > 0;
    assert p in parkingData <==> multiset(parkingData)[p] > 0;
  }

  /** With no criterion switched on, every record is kept, in order. */
  lemma {:induction false} NoCriteriaKeepsAll(parkingData: seq<ParkingRecord>, c: FilterCriteria,
                                              toNumber: string -> Option<real>, dist: (real, real, real, real) -> real)
    requires !Truthy(c.length) && !Truthy(c.width) && !DistanceActive(c) && !PriceActive(c)
    ensures FilterParkingSpots(parkingData, c, toNumber, dist) == parkingData
  {
    if parkingData != [] {
      NoCriteriaKeepsAll(parkingData[1..], c, toNumber, dist);
    }
  }

  /** An active length test keeps only records whose length is at least `Number(criteria.length)`. */
  lemma LengthCriterion(parkingData: seq<ParkingRecord>, c: FilterCriteria, toNumber: string -> Option<real>,
                        dist: (real, real, real, real) -> real, p: ParkingRecord)
    requires Truthy(c.length)
    requires p in FilterParkingSpots(parkingData, c, toNumber, dist)
    ensures p.length.Some? && toNumber(c.length.value).Some?
    ensures p.length.value >= toNumber(c.length.value).value
  {
  }

  /** An active width test keeps only records whose width is at least `Number(criteria.width)`. */
  lemma WidthCriterion(parkingData: seq<ParkingRecord>, c: FilterCriteria, toNumber: string -> Option<real>,
                       dist: (real, real, real, real) -> real, p: ParkingRecord)
    requires Truthy(c.width)
    requires p in FilterParkingSpots(parkingData, c, toNumber, dist)
    ensures p.width.Some? && toNumber(c.width.value).Some?
    ensures p.width.value >= toNumber(c.width.value).value
  {
  }

  /**
   * When the distance test is on, a record passing the other three tests is kept iff it has
   * coordinates and lies within `distance` of the user.
   */
  lemma DistanceCriterion(parkingData: seq<ParkingRecord>, c: FilterCriteria, toNumber: string -> Option<real>,
                          dist: (real, real, real, real) -> real, p: ParkingRecord)
    requires DistanceActive(c)
    requires p in parkingData
    requires PassesLength(p, c, toNumber) && PassesWidth(p, c, toNumber) && PassesPrice(p, c)
    ensures p in FilterParkingSpots(parkingData, c, toNumber, dist) <==>
            && p.latitude.Some? && p.longitude.Some?
            && dist(p.latitude.value, p.longitude.value,
                    c.userLocation.value.latitude, c.userLocation.value.longitude) <= c.distance.value
  {
    KeptIffPasses(parkingData, c, toNumber, dist, p);
  }

  /** A distance of 0, or no user location, switches the distance test off. */
  lemma {:induction false} DistanceOffIgnored(parkingData: seq<ParkingRecord>, c: FilterCriteria,
                                              toNumber: string -> Option<real>, dist: (real, real, real, real) -> real)
    requires c.distance == Some(0.0) || c.userLocation.None?
    ensures FilterParkingSpots(parkingData, c, toNumber, dist) ==
            FilterParkingSpots(parkingData, c.(distance := None), toNumber, dist)
  {
    if parkingData != [] {
      DistanceOffIgnored(parkingData[1..], c, toNumber, dist);
    }
  }

  /** An active price test is inclusive at both ends and rejects a record without `pricePerHour`. */
  lemma PriceCriterion(parkingData: seq<ParkingRecord>, c: FilterCriteria, toNumber: string -> Option<real>,
                       dist: (real, real, real, real) -> real, p: ParkingRecord)
    requires PriceActive(c)
    requires p in parkingData
    requires PassesLength(p, c, toNumber) && PassesWidth(p, c, toNumber) && PassesDistance(p, c, dist)
    ensures p in FilterParkingSpots(parkingData, c, toNumber, dist) <==>
            p.pricePerHour.Some? && c.minPrice.value <= p.pricePerHour.value <= c.maxPrice.value
  {
    KeptIffPasses(parkingData, c, toNumber, dist, p);
  }

  /** Filtering twice with the same criteria is filtering once. */
  lemma {:induction false} FilterIdempotent(parkingData: seq<ParkingRecord>, c: FilterCriteria,
                                            toNumber: string -> Option<real>, dist: (real, real, real, real) -> real)
    ensures FilterParkingSpots(FilterParkingSpots(parkingData, c, toNumber, dist), c, toNumber, dist) ==
            FilterParkingSpots(parkingData, c, toNumber, dist)
  {
    if parkingData != [] {
      var rest := FilterParkingSpots(parkingData[1..], c, toNumber, dist);
      FilterIdempotent(parkingData[1..], c, toNumber, dist);
      if Keep(parkingData[0], c, toNumber, dist) {
        var r := [parkingData[0]] + rest;
        assert r[0] == parkingData[0] && r[1..] == rest;
      }
    }
  }

  /** A subsequence is never longer than the sequence it is taken from. */
  lemma {:induction false} SubsequenceNoLonger<T>(a: seq<T>, b: seq<T>)
    requires IsSubsequence(a, b)
    ensures |a| <= |b|
    decreases |b|
  {
    if a != [] {
      if a[0] == b[0] && IsSubsequence(a[1..], b[1..]) {
        SubsequenceNoLonger(a[1..], b[1..]);
      } else {
        SubsequenceNoLonger(a, b[1..]);
      }
    }
  }

  /**
   * Criteria `c2` that keep no record `c1` rejects select a subsequence of what `c1` selects,
   * and so never more records.
   */
  lemma {:induction false} StricterCriteriaSelectFewer(parkingData: seq<ParkingRecord>, c1: FilterCriteria, c2: FilterCriteria,
                                                       toNumber: string -> Option<real>, dist: (real, real, real, real) -> real)
    requires forall p :: Keep(p, c2, toNumber, dist) ==> Keep(p, c1, toNumber, dist)
    ensures IsSubsequence(FilterParkingSpots(parkingData, c2, toNumber, dist), FilterParkingSpots(parkingData, c1, toNumber, dist))
    ensures |FilterParkingSpots(parkingData, c2, toNumber, dist)| <= |FilterParkingSpots(parkingData, c1, toNumber, dist)|
  {
    var r1 := FilterParkingSpots(parkingData, c1, toNumber, dist);
    var r2 := FilterParkingSpots(parkingData, c2, toNumber, dist);
    if parkingData != [] {
      var x := parkingData[0];
      var rest1 := FilterParkingSpots(parkingData[1..], c1, toNumber, dist);
      var rest2 := FilterParkingSpots(parkingData[1..], c2, toNumber, dist);
      StricterCriteriaSelectFewer(parkingData[1..], c1, c2, toNumber, dist);
      if Keep(x, c2, toNumber, dist) {
        assert r1 == [x] + rest1 && r2 == [x] + rest2;
        assert r1[1..] == rest1 && r2[1..] == rest2;
      } else if Keep(x, c1, toNumber, dist) {
        assert r1 == [x] + rest1 && r2 == rest2;
        SubsequenceDropFront(r2, x, rest1);
      }
    }
    SubsequenceNoLonger(r2, r1);
  }

  /** Putting one more element in front of the larger sequence keeps a subsequence one. */
  lemma SubsequenceDropFront<T>(a: seq<T>, x: T, b: seq<T>)
    requires IsSubsequence(a, b)
    ensures IsSubsequence(a, [x] + b)
  {
    assert ([x] + b)[1..] == b;
  }

  /** Raising the length threshold never adds records. */
  lemma RaisingLengthSelectsFewer(parkingData: seq<ParkingRecord>, c: FilterCriteria, s: string,
                                  toNumber: string -> Option<real>, dist: (real, real, real, real) -> real)
    requires Truthy(c.length) && s != ""
    requires toNumber(c.length.value).Some? && toNumber(s).Some?
    requires toNumber(c.length.value).value <= toNumber(s).value
    ensures IsSubsequence(FilterParkingSpots(parkingData, c.(length := Some(s)), toNumber, dist),
                          FilterParkingSpots(parkingData, c, toNumber, dist))
  {
    StricterCriteriaSelectFewer(parkingData, c, c.(length := Some(s)), toNumber, dist);
  }

  /** Raising the width threshold never adds records. */
  lemma RaisingWidthSelectsFewer(parkingData: seq<ParkingRecord>, c: FilterCriteria, s: string,
                                 toNumber: string -> Option<real>, dist: (real, real, real, real) -> real)
    requires Truthy(c.width) && s != ""
    requires toNumber(c.width.value).Some? && toNumber(s).Some?
    requires toNumber(c.width.value).value <= toNumber(s).value
    ensures IsSubsequence(FilterParkingSpots(parkingData, c.(width := Some(s)), toNumber, dist),
                          FilterParkingSpots(parkingData, c, toNumber, dist))
  {
    StricterCriteriaSelectFewer(parkingData, c, c.(width := Some(s)), toNumber, dist);
  }

  /** Raising `minPrice` never adds records. */
  lemma RaisingMinPriceSelectsFewer(parkingData: seq<ParkingRecord>, c: FilterCriteria, m: real,
                                    toNumber: string -> Option<real>, dist: (real, real, real, real) -> real)
    requires PriceActive(c) && c.minPrice.value <= m
    ensures IsSubsequence(FilterParkingSpots(parkingData, c.(minPrice := Some(m)), toNumber, dist),
                          FilterParkingSpots(parkingData, c, toNumber, dist))
  {
    StricterCriteriaSelectFewer(parkingData, c, c.(minPrice := Some(m)), toNumber, dist);
  }

  /** Lowering `maxPrice` never adds records. */
  lemma LoweringMaxPriceSelectsFewer(parkingData: seq<ParkingRecord>, c: FilterCriteria, m: real,
                                     toNumber: string -> Option<real>, dist: (real, real, real, real) -> real)
    requires PriceActive(c) && m <= c.maxPrice.value
    ensures IsSubsequence(FilterParkingSpots(parkingData, c.(maxPrice := Some(m)), toNumber, dist),
                          FilterParkingSpots(parkingData, c, toNumber, dist))
  {
    StricterCriteriaSelectFewer(parkingData, c, c.(maxPrice := Some(m)), toNumber, dist);
  }

  /** Lowering an active distance bound (to anything but 0, which would switch it off) never adds records. */
  lemma LoweringDistanceSelectsFewer(parkingData: seq<ParkingRecord>, c: FilterCriteria, d: real,
                                     toNumber: string -> Option<real>, dist: (real, real, real, real) -> real)
    requires DistanceActive(c) && d != 0.0 && d <= c.distance.value
    ensures IsSubsequence(FilterParkingSpots(parkingData, c.(distance := Some(d)), toNumber, dist),
                          FilterParkingSpots(parkingData, c, toNumber, dist))
  {
    StricterCriteriaSelectFewer(parkingData, c, c.(distance := Some(d)), toNumber, dist);
  }

  /** Spaces priced 5, 50 and 15 per hour, filtered for 10 to 20: only the one at 15 remains. */
  lemma PriceRangeExample(toNumber: string -> Option<real>, dist: (real, real, real, real) -> real)
    ensures FilterParkingSpots([PricedSpot(5.0), PricedSpot(50.0), PricedSpot(15.0)],
                               FilterCriteria(None, None, None, Some(10.0), Some(20.0), None), toNumber, dist)
            == [PricedSpot(15.0)]
  {
    var c := FilterCriteria(None, None, None, Some(10.0), Some(20.0), None);
    var xs := [PricedSpot(5.0), PricedSpot(50.0), PricedSpot(15.0)];
    assert xs[1..][1..] == [PricedSpot(15.0)];
    assert FilterParkingSpots([PricedSpot(15.0)], c, toNumber, dist) == [PricedSpot(15.0)];
    assert xs[1..] == [PricedSpot(50.0), PricedSpot(15.0)];
  }

  /**
   * With both price bounds set, records that carry no `pricePerHour` (rows shaped like the
   * backend's, whose price is `price_per_hour`) are all filtered out: nothing is kept.
   */
  lemma PriceBoundsDropUnpricedRecords(parkingData: seq<ParkingRecord>, c: FilterCriteria,
                                       toNumber: string -> Option<real>, dist: (real, real, real, real) -> real)
    requires PriceActive(c)
    requires forall i :: 0 <= i < |parkingData| ==> parkingData[i].pricePerHour.None?
    ensures FilterParkingSpots(parkingData, c, toNumber, dist) == []
  {
  }

  /** A record that has only a price. */
  function PricedSpot(price: real): ParkingRecord {
    ParkingRecord(None, None, None, None, Some(price))
  }
}
