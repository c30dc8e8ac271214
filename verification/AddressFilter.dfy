/** The geo filters of handler/geoip.go, each rewriting the mask in place. */
module GeoFilter {
  import opened Selection

  /** What a database lookup of the client gave: switched off, an error, or a value. */
  datatype Lookup<+T> = Off | Failed | Known(value: T)

  // ---- Same country, same ASN ------------------------------------------------

  function Narrowed<T(==)>(source: T, lists: seq<seq<T>>, mask: seq<Color>): seq<Color>
    requires |lists| == |mask|
  {
    seq(|mask|, i requires 0 <= i < |mask| =>
      if mask[i] == White then if source in lists[i] then White else Grey else Black)
  }

  function Fallback<T(==)>(unknown: T, lists: seq<seq<T>>, mask: seq<Color>): seq<Color>
    requires |lists| == |mask|
  {
    seq(|mask|, i requires 0 <= i < |mask| =>
      if mask[i] != Black && (lists[i] == [] || unknown in lists[i]) then White else Black)
  }

  /** `unknown` is "" for countries and 0 for ASNs: no source, and the wildcard in a list. */
  function SameRule<T(==)>(source: T, unknown: T, lists: seq<seq<T>>, mask: seq<Color>): (out: seq<Color>)
    requires |lists| == |mask|
    ensures |out| == |mask|
  {
    var first := if source != unknown then Narrowed(source, lists, mask) else mask;
    if source != unknown && White in first then first else Fallback(unknown, lists, first)
  }

  function SameStage<T(==)>(lookup: Lookup<T>, unknown: T, lists: seq<seq<T>>, mask: seq<Color>): (out: seq<Color>)
    requires |lists| == |mask|
    ensures |out| == |mask|
  {
    if lookup.Known? then SameRule(lookup.value, unknown, lists, mask) else mask
  }

  method Listed<T(==)>(list: seq<T>, x: T) returns (found: bool)
    ensures found <==> x in list
  {
    for j := 0 to |list|
      invariant x !in list[..j]
    {
      if list[j] == x { return true; }
    }
    found := false;
  }

  method NarrowPass<T(==)>(source: T, lists: seq<seq<T>>, mask: array<Color>) returns (passed: nat)
    requires |lists| == mask.Length
    modifies mask
    ensures mask[..] == Narrowed(source, lists, old(mask[..]))
    ensures passed > 0 <==> White in mask[..]
  {
    passed := 0;
    ghost var was := mask[..];
    for i := 0 to mask.Length
      invariant forall k :: 0 <= k < i ==> mask[k] == Narrowed(source, lists, was)[k]
      invariant forall k :: i <= k < mask.Length ==> mask[k] == was[k]
      invariant passed > 0 <==> White in mask[..i]
    {
      assert mask[i] == was[i];
      if mask[i] == White {
        var hit := Listed(lists[i], source);
        if hit { passed := passed + 1; } else { mask[i] := Grey; }
      } else {
        mask[i] := Black;
      }
      assert mask[..i + 1] == mask[..i] + [mask[i]];
    }
    assert mask[..] == mask[..mask.Length];
  }

  method GetSame<T(==)>(lookup: Lookup<T>, unknown: T, lists: seq<seq<T>>, mask: array<Color>)
    requires |lists| == mask.Length
    modifies mask
    ensures mask[..] == SameStage(lookup, unknown, lists, old(mask[..]))
  {
    if !lookup.Known? { return; }
    var source, passed := lookup.value, 0;
    if source != unknown { passed := NarrowPass(source, lists, mask); }
    if passed > 0 { return; }
    ghost var first := mask[..];
    for i := 0 to mask.Length
      invariant forall k :: 0 <= k < i ==> mask[k] == Fallback(unknown, lists, first)[k]
      invariant forall k :: i <= k < mask.Length ==> mask[k] == first[k]
    {
      assert mask[i] == first[i];
      if mask[i] != Black {
        var wild := Listed(lists[i], unknown);
        mask[i] := if |lists[i]| == 0 || wild then White else Black;
      }
      assert mask[..i + 1] == mask[..i] + [mask[i]];
    }
    assert mask[..] == mask[..mask.Length];
  }

  ghost predicate Matching<T>(source: T, unknown: T, lists: seq<seq<T>>, mask: seq<Color>, i: nat)
    requires |lists| == |mask| && i < |mask|
  {
    mask[i] == White && source != unknown && source in lists[i]
  }

  ghost predicate Open<T>(unknown: T, lists: seq<seq<T>>, i: nat)
    requires i < |lists|
  {
    lists[i] == [] || unknown in lists[i]
  }

  /** The matching white entries if there are any, else the white entries open to everyone. */
  lemma {:induction false} SameRuleSpec<T>(source: T, unknown: T, lists: seq<seq<T>>, mask: seq<Color>, i: nat)
    requires |lists| == |mask| && i < |mask| && Grey !in mask
    ensures SameRule(source, unknown, lists, mask)[i] == White <==>
      if exists j :: 0 <= j < |mask| && Matching(source, unknown, lists, mask, j)
      then Matching(source, unknown, lists, mask, i)
      else mask[i] == White && Open(unknown, lists, i)
  {
    var n := Narrowed(source, lists, mask);
    if source != unknown {
      if White in n {
        var j :| 0 <= j < |n| && n[j] == White;
        assert Matching(source, unknown, lists, mask, j);
      }
      if j :| 0 <= j < |mask| && Matching(source, unknown, lists, mask, j) {
        assert n[j] == White;
      }
    }
  }

  /** A blackened address stays out, whatever the colours around it. */
  lemma {:induction false} SameStageBlack<T>(lookup: Lookup<T>, unknown: T, lists: seq<seq<T>>, mask: seq<Color>, i: nat)
    requires |lists| == |mask| && i < |mask| && mask[i] == Black
    ensures SameStage(lookup, unknown, lists, mask)[i] == Black
  {
  }

  // ---- "asn+country" ----------------------------------------------------------

  function AsnCountry(asn: Lookup<nat>, asns: seq<seq<nat>>, country: Lookup<string>, countries: seq<seq<string>>,
                      mask: seq<Color>): (out: seq<Color>)
    requires |asns| == |countries| == |mask|
    ensures |out| == |mask|
  {
    SameStage(country, "", countries, SameStage(asn, 0, asns, mask))
  }

  /** Greys are addresses the ASN stage turned down; settled, they are out. */
  function Settled(mask: seq<Color>): seq<Color> {
    seq(|mask|, i requires 0 <= i < |mask| => if mask[i] == White then White else Black)
  }

  /**
   The pipeline selects what the country rule selects among the addresses the ASN rule
   selected, except that a client of unknown country brings back the addresses that the
   ASN stage left grey and whose country list is open.
   */
  lemma {:induction false} AsnCountryIff(asn: Lookup<nat>, asns: seq<seq<nat>>, country: Lookup<string>,
                                         countries: seq<seq<string>>, mask: seq<Color>)
    requires |asns| == |countries| == |mask| && Grey !in mask
    ensures var narrowed := SameStage(asn, 0, asns, mask);
      (Settled(AsnCountry(asn, asns, country, countries, mask))
         == Settled(SameStage(country, "", countries, Settled(narrowed)))) <==>
      (country == Known("") ==> forall i :: 0 <= i < |mask| && narrowed[i] == Grey ==> !Open("", countries, i))
  {
    var narrowed := SameStage(asn, 0, asns, mask);
    var l := Settled(AsnCountry(asn, asns, country, countries, mask));
    var r := Settled(SameStage(country, "", countries, Settled(narrowed)));
    if country == Known("") {
      assert AsnCountry(asn, asns, country, countries, mask) == Fallback("", countries, narrowed);
      forall i | 0 <= i < |mask|
        ensures l[i] == r[i] <==> (narrowed[i] == Grey ==> !Open("", countries, i)) { }
    } else if country.Known? {
      assert Narrowed(country.value, countries, Settled(narrowed)) == Narrowed(country.value, countries, narrowed);
    }
  }

  /** The exception happens: ASN match on the first address, the second comes back from grey. */
  lemma {:induction false} AsnCountryRevival()
    ensures AsnCountry(Known(7), [[7], [8]], Known(""), [["DE"], []], [White, White]) == [Black, White]
  {
    var narrowed := Narrowed(7, [[7], [8]], [White, White]);
    assert narrowed == [White, Grey];
    assert White == narrowed[0];
    assert SameStage(Known(7), 0, [[7], [8]], [White, White]) == narrowed;
  }

  // ---- Minimum distance -------------------------------------------------------

  const FAR := 1000.0

  /** Distances of the white entries before `i`, in order: the slice the code fills. */
  function WhiteDists(dist: seq<real>, mask: seq<Color>, i: nat): seq<real>
    requires i <= |mask| == |dist|
  {
    if i == 0 then []
    else WhiteDists(dist, mask, i - 1) + (if mask[i - 1] == White then [dist[i - 1]] else [])
  }

  function MinDist(dist: seq<real>, mask: seq<Color>, i: nat): real
    requires i <= |mask| == |dist|
  {
    if i == 0 then FAR
    else
      var m := MinDist(dist, mask, i - 1);
      if mask[i - 1] == White && dist[i - 1] < m then dist[i - 1] else m
  }

  /** No white entry after a non-white one. */
  predicate WhitePrefix(mask: seq<Color>) {
    forall i, j :: 0 <= i < j < |mask| && mask[j] == White ==> mask[i] == White
  }

  function NearestMask(dist: seq<real>, mask: seq<Color>): seq<Color>
    requires |dist| == |mask|
  {
    var m := MinDist(dist, mask, |mask|);
    seq(|mask|, i requires 0 <= i < |mask| =>
      if mask[i] == White then if dist[i] == m then White else Grey else Black)
  }

  function Restored(mask: seq<Color>): seq<Color> {
    seq(|mask|, i requires 0 <= i < |mask| => if mask[i] == Grey then White else mask[i])
  }

  function NearestRule(dist: seq<real>, mask: seq<Color>): (out: seq<Color>)
    requires |dist| == |mask|
    ensures |out| == |mask|
  {
    var m := NearestMask(dist, mask);
    if White in m then m else Restored(m)
  }

  lemma {:induction false} DistsOfPrefix(dist: seq<real>, mask: seq<Color>, i: nat)
    requires i <= |mask| == |dist|
    ensures |WhiteDists(dist, mask, i)| <= i
    ensures (forall j :: 0 <= j < i ==> mask[j] == White) ==> WhiteDists(dist, mask, i) == dist[..i]
    ensures (exists j :: 0 <= j < i && mask[j] != White) ==> |WhiteDists(dist, mask, i)| < i
  {
    if i == 0 {
    } else {
      DistsOfPrefix(dist, mask, i - 1);
      assert dist[..i] == dist[..i - 1] + [dist[i - 1]];
    }
  }

  lemma {:induction false} DistsGrow(dist: seq<real>, mask: seq<Color>, i: nat, n: nat)
    requires i <= n <= |mask| == |dist|
    ensures WhiteDists(dist, mask, i) <= WhiteDists(dist, mask, n)
    ensures i < n && mask[i] == White ==> |WhiteDists(dist, mask, i)| < |WhiteDists(dist, mask, n)|
    ensures (forall j :: i <= j < n ==> mask[j] != White) ==> WhiteDists(dist, mask, n) == WhiteDists(dist, mask, i)
    decreases n
  {
    if i == n {
    } else {
      DistsGrow(dist, mask, i, n - 1);
    }
  }

  /** With the whites in front, the collected distances line up with the mask positions. */
  lemma {:induction false} DistsAligned(dist: seq<real>, mask: seq<Color>, i: nat)
    requires i < |mask| == |dist| && mask[i] == White && WhitePrefix(mask)
    ensures i < |WhiteDists(dist, mask, |mask|)| && WhiteDists(dist, mask, |mask|)[i] == dist[i]
  {
    DistsOfPrefix(dist, mask, i + 1);
    DistsGrow(dist, mask, i + 1, |mask|);
    assert dist[..i + 1][i] == dist[i];
  }

  /** Otherwise the last white entry indexes past the collected distances. */
  lemma {:induction false} DistsOverrun(dist: seq<real>, mask: seq<Color>)
    requires |mask| == |dist| && !WhitePrefix(mask)
    ensures exists i :: 0 <= i < |mask| && mask[i] == White && i >= |WhiteDists(dist, mask, |mask|)|
  {
    var i, j :| 0 <= i < j < |mask| && mask[j] == White && mask[i] != White;
    var k := LastWhite(mask, j);
    DistsOfPrefix(dist, mask, k + 1);
    DistsGrow(dist, mask, k + 1, |mask|);
  }

  lemma {:induction false} LastWhite(mask: seq<Color>, j: nat) returns (k: nat)
    requires j < |mask| && mask[j] == White
    ensures j <= k < |mask| && mask[k] == White && forall i :: k < i < |mask| ==> mask[i] != White
    decreases |mask| - j
  {
    if i :| j < i < |mask| && mask[i] == White { k := LastWhite(mask, i); } else { k := j; }
  }

  /**
   `ok` is false where the Go code stops with an index out of range; that is exactly when
   a white entry follows a non-white one.
   */
  method GetMinimumDistance(lookup: Lookup<seq<real>>, mask: array<Color>) returns (ok: bool)
    requires lookup.Known? ==> |lookup.value| == mask.Length
    modifies mask
    ensures ok <==> (lookup.Known? ==> WhitePrefix(old(mask[..])))
    ensures ok ==> mask[..] == if lookup.Known? then NearestRule(lookup.value, old(mask[..])) else old(mask[..])
  {
    if !lookup.Known? { return true; }
    var dist := lookup.value;
    var minDistance, dists := CollectDistances(dist, mask);
    var passed;
    ok, passed := MarkNearest(dist, dists, minDistance, mask);
    if ok && passed == 0 { RestoreGreys(mask); }
  }

  method MarkNearest(dist: seq<real>, dists: seq<real>, minDistance: real, mask: array<Color>) returns (ok: bool, passed: nat)
    requires |dist| == mask.Length && dists == WhiteDists(dist, mask[..], mask.Length)
    requires minDistance == MinDist(dist, mask[..], mask.Length)
    modifies mask
    ensures ok <==> WhitePrefix(old(mask[..]))
    ensures ok ==> mask[..] == NearestMask(dist, old(mask[..])) && (passed > 0 <==> White in mask[..])
  {
    ghost var was := mask[..];
    if !WhitePrefix(was) { DistsOverrun(dist, was); }
    ok, passed := true, 0;
    for i := 0 to mask.Length
      invariant WhitePrefix(was) ==> forall k :: 0 <= k < i ==> mask[k] == NearestMask(dist, was)[k]
      invariant forall k :: i <= k < mask.Length ==> mask[k] == was[k]
      invariant passed > 0 <==> White in mask[..i]
      invariant forall k :: 0 <= k < i && was[k] == White ==> k < |dists|
    {
      assert mask[i] == was[i];
      if mask[i] == White {
        if WhitePrefix(was) { DistsAligned(dist, was, i); }
        if i >= |dists| { return false, passed; }
        if dists[i] == minDistance { passed := passed + 1; } else { mask[i] := Grey; }
      } else {
        mask[i] := Black;
      }
      assert mask[..i + 1] == mask[..i] + [mask[i]];
    }
    assert mask[..] == mask[..mask.Length];
  }

  method CollectDistances(dist: seq<real>, mask: array<Color>) returns (minDistance: real, dists: seq<real>)
    requires |dist| == mask.Length
    ensures minDistance == MinDist(dist, mask[..], mask.Length)
    ensures dists == WhiteDists(dist, mask[..], mask.Length)
  {
    minDistance, dists := FAR, [];
    for i := 0 to mask.Length
      invariant minDistance == MinDist(dist, mask[..], i)
      invariant dists == WhiteDists(dist, mask[..], i)
    {
      if mask[i] == White {
        if dist[i] < minDistance { minDistance := dist[i]; }
        dists := dists + [dist[i]];
      }
    }
  }

  method RestoreGreys(mask: array<Color>)
    modifies mask
    ensures mask[..] == Restored(old(mask[..]))
  {
    ghost var was := mask[..];
    for i := 0 to mask.Length
      invariant forall k :: 0 <= k < i ==> mask[k] == Restored(was)[k]
      invariant forall k :: i <= k < mask.Length ==> mask[k] == was[k]
    {
      assert mask[i] == was[i];
      if mask[i] == Grey { mask[i] := White; }
      assert mask[..i + 1] == mask[..i] + [mask[i]];
    }
    assert mask[..] == mask[..mask.Length];
  }

  lemma {:induction false} MinDistIsMinimum(dist: seq<real>, mask: seq<Color>, i: nat)
    requires i <= |mask| == |dist|
    ensures MinDist(dist, mask, i) <= FAR
    ensures forall j :: 0 <= j < i && mask[j] == White ==> MinDist(dist, mask, i) <= dist[j]
    ensures MinDist(dist, mask, i) < FAR ==> exists j :: 0 <= j < i && mask[j] == White && dist[j] == MinDist(dist, mask, i)
  {
    if i == 0 {
    } else {
      MinDistIsMinimum(dist, mask, i - 1);
    }
  }

  /** The nearest white entries, or all of them when every one is beyond the cut-off. */
  lemma {:induction false} NearestRuleSpec(dist: seq<real>, mask: seq<Color>, i: nat)
    requires i < |dist| == |mask|
    ensures NearestRule(dist, mask)[i] == White <==>
      mask[i] == White &&
      ((exists j :: 0 <= j < |mask| && mask[j] == White && dist[j] <= FAR) ==>
        dist[i] <= FAR && forall j :: 0 <= j < |mask| && mask[j] == White ==> dist[i] <= dist[j])
  {
    MinDistIsMinimum(dist, mask, |mask|);
    var m, near := MinDist(dist, mask, |mask|), NearestMask(dist, mask);
    if j :| 0 <= j < |mask| && mask[j] == White && dist[j] <= FAR {
      var k :| 0 <= k < |mask| && mask[k] == White && dist[k] == m;
      assert near[k] == White;
    } else {
      assert forall k :: 0 <= k < |near| && mask[k] == White ==> dist[k] > FAR;
    }
  }
}

/** FilterHealthcheck of handler/healthcheck.go. */
module HealthFilter {
  import opened Selection

  /** The larger of the floor and the best status of a white entry before `i`. */
  function Best(status: seq<int>, mask: seq<Color>, floor: int, i: nat): (b: int)
    requires i <= |mask| == |status|
    ensures b >= floor
    ensures forall j :: 0 <= j < i && mask[j] == White ==> status[j] <= b
    ensures b == floor || exists j :: 0 <= j < i && mask[j] == White && status[j] == b
  {
    if i == 0 then floor
    else
      var b := Best(status, mask, floor, i - 1);
      if mask[i - 1] == White && status[i - 1] > b then status[i - 1] else b
  }

  function Threshold(status: seq<int>, mask: seq<Color>, up: int, down: int): int
    requires |status| == |mask|
  {
    var best := Best(status, mask, down, |mask|);
    if best < up - 1 && best > down then down + 1 else best
  }

  function HealthRule(enabled: bool, status: seq<int>, up: int, down: int, mask: seq<Color>): (out: seq<Color>)
    requires |status| == |mask|
    ensures |out| == |mask|
  {
    if !enabled then mask
    else
      var min := Threshold(status, mask, up, down);
      seq(|mask|, i requires 0 <= i < |mask| => if mask[i] == White && status[i] >= min then White else Black)
  }

  /** `status[i]` is the cached status of address i, read twice. */
  method FilterHealthcheck(enabled: bool, status: seq<int>, up: int, down: int, mask: array<Color>)
    requires |status| == mask.Length
    modifies mask
    ensures mask[..] == HealthRule(enabled, status, up, down, old(mask[..]))
  {
    if !enabled { return; }
    var min := down;
    for i := 0 to mask.Length
      invariant min == Best(status, mask[..], down, i)
    {
      if mask[i] == White {
        if status[i] > min { min := status[i]; }
      }
    }
    if min < up - 1 && min > down { min := down + 1; }
    ghost var was := mask[..];
    for i := 0 to mask.Length
      invariant forall k :: 0 <= k < i ==> mask[k] == HealthRule(enabled, status, up, down, was)[k]
      invariant forall k :: i <= k < mask.Length ==> mask[k] == was[k]
    {
      assert mask[i] == was[i];
      if mask[i] == White {
        if status[i] < min { mask[i] := Black; }
      } else {
        mask[i] := Black;
      }
      assert mask[..i + 1] == mask[..i] + [mask[i]];
    }
    assert mask[..] == mask[..mask.Length];
  }

  /**
   Which addresses survive: while the best one is neither fully up nor fully down, all that are
   not fully down; otherwise those that reach the best status.  Some address survives exactly
   when a white one has not sunk below the configured floor.
   */
  lemma {:induction false} HealthRuleSpec(status: seq<int>, up: int, down: int, mask: seq<Color>)
    requires |status| == |mask|
    ensures var out := HealthRule(true, status, up, down, mask);
      && (White in out <==> exists i :: 0 <= i < |mask| && mask[i] == White && status[i] >= down)
      && forall i :: 0 <= i < |mask| ==> (out[i] == White <==>
           && mask[i] == White && status[i] >= down
           && (forall j :: 0 <= j < |mask| && mask[j] == White && status[j] > status[i] ==>
                 status[j] < up - 1 && status[i] > down))
  {
    var out := HealthRule(true, status, up, down, mask);
    var best := Best(status, mask, down, |mask|);
    if i :| 0 <= i < |mask| && mask[i] == White && status[i] >= down {
      var j :| 0 <= j < |mask| && mask[j] == White && status[j] == best;
      assert out[j] == White;
    }
    if White in out {
      var i :| 0 <= i < |out| && out[i] == White;
      assert mask[i] == White && status[i] >= down;
    }
  }
}

/** DnsRequestHandler.Filter: health, then geography, then order. */
module AddressFilter {
  import opened Records
  import opened Selection
  import opened GeoFilter
  import opened HealthFilter

  /** What one call reads from outside: statuses, database answers about the client, the clock. */
  datatype Readings = Readings(healthEnabled: bool, status: seq<int>, asn: Lookup<nat>, country: Lookup<string>,
                               distance: Lookup<seq<real>>, tick: nat)

  predicate Fits(rrset: IpSet, r: Readings) {
    |r.status| == |rrset.data| && (r.distance.Known? ==> |r.distance.value| == |rrset.data|)
  }

  function AllWhite(n: nat): seq<Color> {
    seq(n, i => White)
  }

  function Countries(rrset: IpSet): seq<seq<string>> {
    seq(|rrset.data|, i requires 0 <= i < |rrset.data| => rrset.data[i].country)
  }

  function Asns(rrset: IpSet): seq<seq<nat>> {
    seq(|rrset.data|, i requires 0 <= i < |rrset.data| => rrset.data[i].asn)
  }

  function Healthy(rrset: IpSet, r: Readings): (out: seq<Color>)
    requires Fits(rrset, r)
    ensures |out| == |rrset.data|
  {
    HealthRule(r.healthEnabled, r.status, rrset.health.upCount, rrset.health.downCount, AllWhite(|rrset.data|))
  }

  /** The mask that reaches OrderIps; None where the distance filter indexes out of range. */
  function FinalMask(rrset: IpSet, r: Readings): (out: Option<seq<Color>>)
    requires Fits(rrset, r)
    ensures out.Some? ==> |out.value| == |rrset.data|
  {
    var mask := Healthy(rrset, r);
    match rrset.filter.geoFilter
    case "asn" => Some(SameStage(r.asn, 0, Asns(rrset), mask))
    case "country" => Some(SameStage(r.country, "", Countries(rrset), mask))
    case "asn+country" => Some(AsnCountry(r.asn, Asns(rrset), r.country, Countries(rrset), mask))
    case "location" =>
      if !r.distance.Known? then Some(mask)
      else if WhitePrefix(mask) then Some(NearestRule(r.distance.value, mask))
      else None
    case _ => Some(mask)
  }

  method Filter(rrset: IpSet, r: Readings) returns (ok: bool, result: seq<Option<string>>)
    requires Fits(rrset, r)
    ensures ok <==> FinalMask(rrset, r).Some?
    ensures ok ==> result == IpsAt(rrset.data, Chosen(FinalMask(rrset, r).value, rrset.data, rrset.filter, r.tick))
  {
    ok, result := true, [];
    var mask := new Color[|rrset.data|](i => White);
    assert mask[..] == AllWhite(|rrset.data|);
    FilterHealthcheck(r.healthEnabled, r.status, rrset.health.upCount, rrset.health.downCount, mask);
    match rrset.filter.geoFilter {
      case "asn" => GetSame(r.asn, 0, Asns(rrset), mask);
      case "country" => GetSame(r.country, "", Countries(rrset), mask);
      case "asn+country" =>
        GetSame(r.asn, 0, Asns(rrset), mask);
        GetSame(r.country, "", Countries(rrset), mask);
      case "location" => ok := GetMinimumDistance(r.distance, mask);
      case _ =>
    }
    if ok { result := OrderIps(rrset.data, rrset.filter, mask[..], r.tick); }
  }

  // ---- What each geo filter keeps ----------------------------------------------------

  /** Some usable address lists the client's country, or its ASN. */
  ghost predicate SomeCountry(rrset: IpSet, ok: seq<Color>, c: string)
    requires |ok| == |rrset.data|
  {
    c != "" && exists j :: 0 <= j < |ok| && ok[j] == White && c in rrset.data[j].country
  }

  ghost predicate SomeAsn(rrset: IpSet, ok: seq<Color>, a: nat)
    requires |ok| == |rrset.data|
  {
    a != 0 && exists j :: 0 <= j < |ok| && ok[j] == White && a in rrset.data[j].asn
  }

  /** The usable addresses that list the client's country if there are any, else those open to all countries. */
  ghost predicate ByCountry(rrset: IpSet, ok: seq<Color>, c: string, i: nat)
    requires i < |ok| == |rrset.data|
  {
    ok[i] == White && if SomeCountry(rrset, ok, c) then c in rrset.data[i].country
                      else rrset.data[i].country == [] || "" in rrset.data[i].country
  }

  ghost predicate ByAsn(rrset: IpSet, ok: seq<Color>, a: nat, i: nat)
    requires i < |ok| == |rrset.data|
  {
    ok[i] == White && if SomeAsn(rrset, ok, a) then a in rrset.data[i].asn
                      else rrset.data[i].asn == [] || 0 in rrset.data[i].asn
  }

  lemma {:induction false} CountryStage(rrset: IpSet, c: string, mask: seq<Color>, i: nat)
    requires i < |mask| == |rrset.data| && Grey !in mask
    ensures SameRule(c, "", Countries(rrset), mask)[i] == White <==> ByCountry(rrset, mask, c, i)
  {
    var lists := Countries(rrset);
    SameRuleSpec(c, "", lists, mask, i);
    if j :| 0 <= j < |mask| && Matching(c, "", lists, mask, j) { assert mask[j] == White && c in rrset.data[j].country; }
    if SomeCountry(rrset, mask, c) {
      var j :| 0 <= j < |mask| && mask[j] == White && c in rrset.data[j].country;
      assert Matching(c, "", lists, mask, j);
    }
  }

  lemma {:induction false} AsnStage(rrset: IpSet, a: nat, mask: seq<Color>, i: nat)
    requires i < |mask| == |rrset.data| && Grey !in mask
    ensures SameRule(a, 0, Asns(rrset), mask)[i] == White <==> ByAsn(rrset, mask, a, i)
    ensures SomeAsn(rrset, mask, a) && mask[i] == White ==> SameRule(a, 0, Asns(rrset), mask)[i] != Black
    ensures !SomeAsn(rrset, mask, a) || mask[i] != White ==> SameRule(a, 0, Asns(rrset), mask)[i] != Grey
  {
    var lists := Asns(rrset);
    SameRuleSpec(a, 0, lists, mask, i);
    var n := Narrowed(a, lists, mask);
    if j :| 0 <= j < |mask| && Matching(a, 0, lists, mask, j) {
      assert mask[j] == White && a in rrset.data[j].asn && n[j] == White;
    }
    if SomeAsn(rrset, mask, a) {
      var j :| 0 <= j < |mask| && mask[j] == White && a in rrset.data[j].asn;
      assert Matching(a, 0, lists, mask, j);
    }
  }

  /** Which addresses the health stage leaves usable: all of them while it is off. */
  lemma {:induction false} HealthMeaning(rrset: IpSet, r: Readings, i: nat)
    requires Fits(rrset, r) && i < |rrset.data|
    ensures var up, down := rrset.health.upCount, rrset.health.downCount;
      Healthy(rrset, r)[i] == White <==>
        (r.healthEnabled ==>
           && r.status[i] >= down
           && forall j :: 0 <= j < |r.status| && r.status[j] > r.status[i] ==> r.status[j] < up - 1 && r.status[i] > down)
  {
    HealthRuleSpec(r.status, rrset.health.upCount, rrset.health.downCount, AllWhite(|rrset.data|));
  }

  lemma {:induction false} HealthyHasNoGrey(rrset: IpSet, r: Readings)
    requires Fits(rrset, r)
    ensures Grey !in Healthy(rrset, r)
  {
  }

  /** "country" and "asn" keep what the client's country or ASN selects among the healthy addresses, by their own lists. */
  lemma {:induction false} OneFilterMeaning(rrset: IpSet, r: Readings, i: nat)
    requires Fits(rrset, r) && i < |rrset.data| && (rrset.filter.geoFilter == "country" || rrset.filter.geoFilter == "asn")
    ensures FinalMask(rrset, r).Some?
    ensures var healthy, out := Healthy(rrset, r), FinalMask(rrset, r).value[i];
      && (rrset.filter.geoFilter == "country" ==>
            (out == White <==> if r.country.Known? then ByCountry(rrset, healthy, r.country.value, i) else healthy[i] == White))
      && (rrset.filter.geoFilter == "asn" ==>
            (out == White <==> if r.asn.Known? then ByAsn(rrset, healthy, r.asn.value, i) else healthy[i] == White))
  {
    var healthy := Healthy(rrset, r);
    HealthyHasNoGrey(rrset, r);
    if r.country.Known? { CountryStage(rrset, r.country.value, healthy, i); }
    if r.asn.Known? { AsnStage(rrset, r.asn.value, healthy, i); }
  }

  /** The addresses that the ASN filter leaves usable. */
  ghost function AsnPass(rrset: IpSet, r: Readings): (ok: seq<Color>)
    requires Fits(rrset, r)
    ensures |ok| == |rrset.data|
  {
    var healthy := Healthy(rrset, r);
    if !r.asn.Known? then healthy
    else seq(|healthy|, i requires 0 <= i < |healthy| => if ByAsn(rrset, healthy, r.asn.value, i) then White else Black)
  }

  /**
   "asn+country" applies the country filter to what the ASN filter leaves; for a client of unknown
   country, to all healthy addresses if the ASN filter found a match.
   */
  lemma {:induction false} TwoFiltersMeaning(rrset: IpSet, r: Readings, i: nat)
    requires Fits(rrset, r) && i < |rrset.data| && rrset.filter.geoFilter == "asn+country"
    ensures FinalMask(rrset, r).Some?
    ensures var healthy, pass := Healthy(rrset, r), AsnPass(rrset, r);
      FinalMask(rrset, r).value[i] == White <==>
        if !r.country.Known? then pass[i] == White
        else if r.country.value == "" && r.asn.Known? && SomeAsn(rrset, healthy, r.asn.value) then
          healthy[i] == White && (rrset.data[i].country == [] || "" in rrset.data[i].country)
        else ByCountry(rrset, pass, r.country.value, i)
  {
    var healthy, pass := Healthy(rrset, r), AsnPass(rrset, r);
    HealthyHasNoGrey(rrset, r);
    var narrowed := SameStage(r.asn, 0, Asns(rrset), healthy);
    forall k | 0 <= k < |healthy|
      ensures narrowed[k] == White <==> pass[k] == White
      ensures narrowed[k] == Grey ==> healthy[k] == White && r.asn.Known? && SomeAsn(rrset, healthy, r.asn.value)
      ensures r.asn.Known? && SomeAsn(rrset, healthy, r.asn.value) ==> (narrowed[k] != Black <==> healthy[k] == White)
    {
      if r.asn.Known? {
        AsnStage(rrset, r.asn.value, healthy, k);
        if healthy[k] == Black { SameStageBlack(r.asn, 0, Asns(rrset), healthy, k); }
      }
    }
    if r.country.Known? { SecondStage(rrset, r.country.value, narrowed, pass, i); }
  }

  /** The country filter after another one: greys count as out, but for a client of unknown country. */
  lemma {:induction false} SecondStage(rrset: IpSet, c: string, narrowed: seq<Color>, pass: seq<Color>, i: nat)
    requires i < |narrowed| == |pass| == |rrset.data| && Grey !in pass
    requires forall k :: 0 <= k < |pass| ==> (narrowed[k] == White <==> pass[k] == White)
    ensures var out := SameRule(c, "", Countries(rrset), narrowed)[i];
      && (c == "" ==> (out == White <==> narrowed[i] != Black && (rrset.data[i].country == [] || "" in rrset.data[i].country)))
      && (c != "" || Grey !in narrowed ==> (out == White <==> ByCountry(rrset, pass, c, i)))
  {
    var lists := Countries(rrset);
    CountryStage(rrset, c, pass, i);
    if c == "" {
      assert SameRule(c, "", lists, narrowed) == Fallback("", lists, narrowed);
      assert SameRule(c, "", lists, pass) == Fallback("", lists, pass);
    } else {
      assert Narrowed(c, lists, narrowed) == Narrowed(c, lists, pass);
    }
  }

  /** "location" keeps the nearest healthy addresses, or all of them beyond the cut-off of 1000; and when it fails. */
  lemma {:induction false} DistanceMeaning(rrset: IpSet, r: Readings, i: nat)
    requires Fits(rrset, r) && i < |rrset.data| && rrset.filter.geoFilter == "location"
    ensures var healthy := Healthy(rrset, r);
      && (FinalMask(rrset, r).None? <==>
            r.distance.Known? && exists j, k :: 0 <= j < k < |healthy| && healthy[j] != White && healthy[k] == White)
      && (FinalMask(rrset, r).Some? ==>
            (FinalMask(rrset, r).value[i] == White <==>
               healthy[i] == White &&
               (r.distance.Known? && (exists j :: 0 <= j < |healthy| && healthy[j] == White && r.distance.value[j] <= 1000.0) ==>
                  forall j :: 0 <= j < |healthy| && healthy[j] == White ==> r.distance.value[i] <= r.distance.value[j])))
  {
    var healthy := Healthy(rrset, r);
    if r.distance.Known? { NearestRuleSpec(r.distance.value, healthy, i); }
  }

  /** No geo mode lets an address back in that the health stage took out. */
  lemma {:induction false} GeoKeepsBlack(rrset: IpSet, r: Readings, i: nat)
    requires Fits(rrset, r) && i < |rrset.data| && FinalMask(rrset, r).Some?
    ensures FinalMask(rrset, r).value[i] == White ==> Healthy(rrset, r)[i] == White
  {
    var mask := Healthy(rrset, r);
    assert mask[i] == White || mask[i] == Black;
    if mask[i] == Black {
      SameStageBlack(r.asn, 0, Asns(rrset), mask, i);
      SameStageBlack(r.country, "", Countries(rrset), mask, i);
      SameStageBlack(r.country, "", Countries(rrset), SameStage(r.asn, 0, Asns(rrset), mask), i);
    }
  }

  /**
   Every returned address is one of the set's, passed the health threshold, and (while health
   checking is on) has a status no lower than the configured floor.
   */
  lemma {:induction false} SelectionIsHealthy(rrset: IpSet, r: Readings, k: nat)
    requires Fits(rrset, r) && FinalMask(rrset, r).Some?
    requires k < |Chosen(FinalMask(rrset, r).value, rrset.data, rrset.filter, r.tick)|
    ensures var i := Chosen(FinalMask(rrset, r).value, rrset.data, rrset.filter, r.tick)[k];
      && i < |rrset.data|
      && Healthy(rrset, r)[i] == White
      && (r.healthEnabled ==> r.status[i] >= rrset.health.downCount)
  {
    var i := Chosen(FinalMask(rrset, r).value, rrset.data, rrset.filter, r.tick)[k];
    GeoKeepsBlack(rrset, r, i);
    if r.healthEnabled {
      HealthRuleSpec(r.status, rrset.health.upCount, rrset.health.downCount, AllWhite(|rrset.data|));
    }
  }

  /** Every value that the code's switch does not name, "none" and "" among them. */
  predicate NoGeoFilter(rrset: IpSet) {
    rrset.filter.geoFilter !in ["asn", "country", "asn+country", "location"]
  }

  /** Without a geo filter the answer is empty only when every address is below the floor. */
  lemma {:induction false} EmptyOnlyWhenAllDown(rrset: IpSet, r: Readings)
    requires Fits(rrset, r) && NoGeoFilter(rrset)
    ensures Chosen(FinalMask(rrset, r).value, rrset.data, rrset.filter, r.tick) == [] <==>
      forall i :: 0 <= i < |rrset.data| ==> r.healthEnabled && r.status[i] < rrset.health.downCount
  {
    NoGeoKeepsHealthy(rrset, r);
    var white := AllWhite(|rrset.data|);
    HealthRuleSpec(r.status, rrset.health.upCount, rrset.health.downCount, white);
    NonEmptyIffWhite(Healthy(rrset, r), rrset.data, rrset.filter, r.tick);
    assert forall i :: 0 <= i < |rrset.data| ==> white[i] == White;
    if !r.healthEnabled && |rrset.data| > 0 { assert White == Healthy(rrset, r)[0]; }
  }

  lemma {:induction false} NoGeoKeepsHealthy(rrset: IpSet, r: Readings)
    requires Fits(rrset, r) && NoGeoFilter(rrset)
    ensures FinalMask(rrset, r) == Some(Healthy(rrset, r))
  {
  }

  /** The distance filter stops out of range: the first of two addresses is down, the second up. */
  lemma {:induction false} DistanceOverrun(rrset: IpSet, r: Readings)
    requires |rrset.data| == 2 && rrset.filter.geoFilter == "location"
    requires rrset.health.upCount == 3 && rrset.health.downCount == -3
    requires r.healthEnabled && r.status == [-3, 3] && r.distance == Known([0.5, 0.5])
    ensures Fits(rrset, r) && FinalMask(rrset, r) == None
  {
    var white := AllWhite(2);
    assert white[0] == White && white[1] == White;
    HealthRuleSpec(r.status, 3, -3, white);
    assert Healthy(rrset, r)[0] == Black && Healthy(rrset, r)[1] == White;
  }
}
