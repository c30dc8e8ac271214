/**
 LoadLocation of handler/handler.go: records read through a cache that may drop entries,
 from a store that may fail, with the stale record as the fallback.
 */
module RecordCache {
  import opened Names
  import opened Records
  import opened World
  import ZoneIndex
  import Locations
  import Caa

  // ---- Cache keys -------------------------------------------------------------

  function Key(location: string, zone: string): string {
    location + "." + zone
  }

  function Label(location: string, zone: string): string {
    if location == zone then "@" else location
  }

  function FullName(location: string, zone: string): string {
    if location == zone then zone else Key(location, zone)
  }

  /** The zone owns the query, and the search in it ended at this location. */
  ghost predicate ResolvedBy(zones: set<string>, locs: set<string>, q: string, location: string, zone: string) {
    && zone != "" && ZoneIndex.FindZone(zones, q) == zone
    && Locations.FindLocation(zone, locs, q).0 == location
    && Locations.FindLocation(zone, locs, q).1 != Locations.NoMatch
  }

  ghost predicate Resolved(zones: set<string>, location: string, zone: string) {
    exists q, locs :: ResolvedBy(zones, locs, q, location, zone)
  }

  /** Fully qualified and without empty labels. */
  predicate WellFormed(zone: string) {
    && zone != "" && zone[|zone| - 1] == '.' && zone[0] != '.'
    && forall i :: 0 <= i < |zone| - 1 ==> !(zone[i] == '.' && zone[i + 1] == '.')
  }

  /** No zone deeper than `zone` ends the key. */
  ghost predicate NoDeeper(zones: set<string>, key: string, zone: string) {
    forall z :: z in zones && HasSuffix(key, "." + z) ==> |z| <= |zone|
  }

  lemma {:induction false} WildcardShape(locs: set<string>, q: string)
    requires Locations.Search(locs, q).1 == Locations.WildCardMatch
    ensures var ss := Locations.Search(locs, q).0;
      ss == "*" || exists ce :: ss == "*." + ce && HasSuffix(q, "." + ce)
    decreases |q|
  {
    var (ce, ss) := Locations.SplitQuery(q);
    var d := FirstDot(q);
    if d < |q| { assert q[d..] == "." + ce; }
    if !(Locations.KeyMatches(locs, ce) || ce in locs) {
      WildcardShape(locs, ce);
      if Locations.Search(locs, ce).0 != "*" {
        var c :| Locations.Search(locs, ce).0 == "*." + c && HasSuffix(ce, "." + c);
        UnderTransitive(q, ce, c);
        assert |c| < |q|;
      }
    }
  }

  /** A zone that ends "*." + rest on a label boundary encloses rest. */
  lemma {:induction false} StarSuffix(rest: string, z: string)
    requires HasSuffix("*." + rest, "." + z)
    ensures Under(rest, z)
  {
    var key, dotted := "*." + rest, "." + rest;
    assert key[1..] == dotted;
    var k := |key| - |z| - 1;
    assert key[k] == '.';
    assert dotted[k - 1..] == key[k..];
    ZoneIndex.DottedSuffix(rest, z);
  }

  /** Nothing deeper ends "*." + rest when nothing deeper ends a name below rest. */
  lemma {:induction false} WildcardNotDeeper(zones: set<string>, q: string, rest: string, zone: string)
    requires Under(q, rest) && ZoneIndex.FindZone(zones, q) == zone
    ensures NoDeeper(zones, "*." + rest, zone)
  {
    forall z | z in zones && HasSuffix("*." + rest, "." + z) ensures |z| <= |zone| {
      StarSuffix(rest, z);
      UnderTransitive(q, rest, z);
    }
  }

  lemma {:induction false} RelativeName(q: string, zone: string)
    requires Under(q, zone) && q != zone
    ensures q == TrimSuffix(q, "." + zone) + "." + zone
  {
    var x := SuffixSplit(q, zone);
    SuffixJoin(x, zone);
  }

  lemma {:induction false} BelowBoth(rel: string, ce: string, zone: string)
    requires HasSuffix(rel, "." + ce)
    ensures Under(rel + "." + zone, ce + "." + zone)
  {
    var y := SuffixSplit(rel, ce);
    assert rel + "." + zone == y + "." + (ce + "." + zone);
    SuffixJoin(y, ce + "." + zone);
  }

  /** The key is the query itself, or a wildcard directly below an ancestor of the query. */
  lemma {:induction false} ResolvedCases(locs: set<string>, q: string, location: string, zone: string) returns (rest: string)
    requires Under(q, zone) && location != zone
    requires Locations.FindLocation(zone, locs, q).0 == location
    requires Locations.FindLocation(zone, locs, q).1 != Locations.NoMatch
    ensures Key(location, zone) == q || (Key(location, zone) == "*." + rest && Under(q, rest))
  {
    RelativeName(q, zone);
    var rel := TrimSuffix(q, "." + zone);
    rest := zone;
    if rel !in locs {
      Locations.SearchIsStored(locs, rel);
      WildcardShape(locs, rel);
      if location != "*" {
        var ce :| location == "*." + ce && HasSuffix(rel, "." + ce);
        BelowBoth(rel, ce, zone);
        rest := ce + "." + zone;
        Reassociate(ce, zone);
      }
    }
  }

  lemma {:induction false} Reassociate(ce: string, zone: string)
    ensures Key("*." + ce, zone) == "*." + (ce + "." + zone)
  {
  }

  lemma {:induction false} ResolvedNotDeeper(zones: set<string>, locs: set<string>, q: string, location: string, zone: string)
    requires ResolvedBy(zones, locs, q, location, zone) && location != zone
    ensures NoDeeper(zones, Key(location, zone), zone)
  {
    var rest := ResolvedCases(locs, q, location, zone);
    if Key(location, zone) == q {
      assert NoDeeper(zones, q, zone);
    } else {
      WildcardNotDeeper(zones, q, rest, zone);
    }
  }

  /** An apex key ends in a deeper name only if that name holds an empty label. */
  lemma {:induction false} ApexEmptyLabel(zone: string, deeper: string)
    requires WellFormed(zone) && HasSuffix(Key(zone, zone), "." + deeper) && |deeper| > |zone|
    ensures !WellFormed(deeper)
  {
    var key, k := Key(zone, zone), |deeper| - |zone| - 1;
    assert deeper == key[|key| - |deeper|..];
    assert deeper[k] == key[|zone|] == '.';
    if k > 0 { assert deeper[k - 1] == key[|zone| - 1] == '.'; }
  }

  lemma {:induction false} NotDeeper(zones: set<string>, location: string, zone: string, other: string)
    requires forall z :: z in zones ==> WellFormed(z)
    requires Resolved(zones, location, zone) && other in zones && HasSuffix(Key(location, zone), "." + other)
    ensures |other| <= |zone|
  {
    var q, locs :| ResolvedBy(zones, locs, q, location, zone);
    if location == zone {
      if |other| > |zone| { ApexEmptyLabel(zone, other); }
    } else {
      ResolvedNotDeeper(zones, locs, q, location, zone);
    }
  }

  /** Distinct zone and location pairs that requests resolve to never share a cache entry. */
  lemma {:induction false} KeyInjective(zones: set<string>, loc1: string, zone1: string, loc2: string, zone2: string)
    requires forall z :: z in zones ==> WellFormed(z)
    requires Resolved(zones, loc1, zone1) && Resolved(zones, loc2, zone2)
    requires Key(loc1, zone1) == Key(loc2, zone2)
    ensures loc1 == loc2 && zone1 == zone2
  {
    SuffixJoin(loc1, zone1);
    SuffixJoin(loc2, zone2);
    ResolvedZone(zones, loc1, zone1);
    ResolvedZone(zones, loc2, zone2);
    NotDeeper(zones, loc1, zone1, zone2);
    NotDeeper(zones, loc2, zone2, zone1);
    SameCut(loc1, zone1, loc2, zone2);
  }

  lemma {:induction false} ResolvedZone(zones: set<string>, location: string, zone: string)
    requires Resolved(zones, location, zone)
    ensures zone in zones
  {
  }

  lemma {:induction false} SameCut(loc1: string, zone1: string, loc2: string, zone2: string)
    requires Key(loc1, zone1) == Key(loc2, zone2) && |zone1| == |zone2|
    ensures loc1 == loc2 && zone1 == zone2
  {
    var key := Key(loc1, zone1);
    assert key[|key| - |zone1|..] == zone1 && key[|key| - |zone2|..] == zone2;
    assert key[..|loc1|] == loc1 && key[..|loc2|] == loc2;
  }

  // ---- The loads of the CAA climb, which skip the zone test --------------------------

  /** An ancestor of an owned name, still in the zone, is owned by the same zone. */
  lemma {:induction false} AncestorIsOwned(zones: set<string>, q: string, a: string, zone: string)
    requires zone != "" && ZoneIndex.FindZone(zones, q) == zone && Under(q, a) && Under(a, zone)
    ensures ZoneIndex.FindZone(zones, a) == zone
  {
    forall z | z in zones && Under(a, z) ensures |z| <= |zone| { UnderTransitive(q, a, z); }
    ZoneIndex.FindZoneUnique(zones, a, zone);
  }

  /** What the climb loads next, above a location that a query of this zone resolved to. */
  lemma {:induction false} ParentIsResolved(zones: set<string>, locs: set<string>, location: string, zone: string)
    requires Resolved(zones, location, zone) && Caa.EndsInDot(zone) && location != zone
    requires Caa.HasParent(location) && !Caa.EndsInDot(location)
    requires Locations.FindLocation(zone, locs, Caa.Parent(location)).1 != Locations.NoMatch
    ensures Resolved(zones, Locations.FindLocation(zone, locs, Caa.Parent(location)).0, zone)
  {
    var parent := Caa.Parent(location);
    var name := parent + "." + zone;
    ParentIsOwned(zones, location, zone, parent, name);
    Caa.ParentKeepsTail(location);
    JoinedLookup(zone, locs, parent, name);
    LookupIsResolved(zones, locs, name, zone);
  }

  lemma {:induction false} JoinedLookup(zone: string, locs: set<string>, n: string, name: string)
    requires name == n + "." + zone && Caa.EndsInDot(zone) && !Caa.EndsInDot(n)
    ensures Locations.FindLocation(zone, locs, name) == Locations.FindLocation(zone, locs, n)
  {
    assert "." + zone == name[|n|..] && name[..|n|] == n;
    Caa.NoTrailingDot(zone, locs, n);
  }

  lemma {:induction false} LookupIsResolved(zones: set<string>, locs: set<string>, name: string, zone: string)
    requires zone != "" && ZoneIndex.FindZone(zones, name) == zone
    requires Locations.FindLocation(zone, locs, name).1 != Locations.NoMatch
    ensures Resolved(zones, Locations.FindLocation(zone, locs, name).0, zone)
  {
    assert ResolvedBy(zones, locs, name, Locations.FindLocation(zone, locs, name).0, zone);
  }

  lemma {:induction false} ParentIsOwned(zones: set<string>, location: string, zone: string, parent: string, name: string)
    requires Resolved(zones, location, zone) && location != zone && Caa.HasParent(location)
    requires parent == Caa.Parent(location) && name == parent + "." + zone
    ensures zone != "" && ZoneIndex.FindZone(zones, name) == zone
  {
    var q, locs :| ResolvedBy(zones, locs, q, location, zone);
    SuffixJoin(parent, zone);
    ParentEncloses(locs, q, location, zone);
    AncestorIsOwned(zones, q, name, zone);
  }

  lemma {:induction false} ParentEncloses(locs: set<string>, q: string, location: string, zone: string)
    requires Under(q, zone) && location != zone && Caa.HasParent(location)
    requires Locations.FindLocation(zone, locs, q).0 == location
    requires Locations.FindLocation(zone, locs, q).1 != Locations.NoMatch
    ensures Under(q, Caa.Parent(location) + "." + zone)
  {
    var parent := Caa.Parent(location);
    var rest := ResolvedCases(locs, q, location, zone);
    assert location[FirstDot(location)..] == "." + parent;
    BelowBoth(location, parent, zone);
    if Key(location, zone) != q {
      StarRest(location, zone, rest);
    }
  }

  lemma {:induction false} StarRest(location: string, zone: string, rest: string)
    requires Caa.HasParent(location) && Key(location, zone) == "*." + rest
    ensures rest == Caa.Parent(location) + "." + zone
  {
    var key := Key(location, zone);
    assert location[0] == key[0] == '*';
    assert location[1] == key[1] == '.';
    FirstDotUnique(location, 1);
    assert key[2..] == location[2..] + "." + zone;
    assert ("*." + rest)[2..] == rest;
  }

  lemma {:induction false} ApexIsResolved(zones: set<string>, zone: string)
    requires zone in zones && zone != ""
    ensures Resolved(zones, zone, zone)
  {
    ZoneIndex.FindZoneUnique(zones, zone, zone);
    assert ResolvedBy(zones, {}, zone, zone, zone);
  }

  /** The locations that the climb loads, after the record it starts from. */
  ghost function ClimbLoads(zd: ZoneData, location: string, record: Record): set<string>
    decreases Dots(location)
  {
    if record.caa.data != [] then {}
    else if !Caa.HasParent(location) then {zd.zone.name}
    else
      var (next, m) := Locations.FindLocation(zd.zone.name, zd.zone.locations, Caa.Parent(location));
      if m == Locations.NoMatch then {}
      else if next !in zd.records then {next}
      else
        Caa.ParentDots(location);
        Caa.LocationDots(zd.zone.name, zd.zone.locations, Caa.Parent(location));
        {next} + ClimbLoads(zd, next, zd.records[next])
  }

  /** Every load of a climb from a resolved location is a load that the coherence theorem covers. */
  lemma {:induction false} ClimbLoadsResolved(zones: set<string>, zd: ZoneData, location: string, record: Record, l: string)
    requires Caa.Regular(zd) && zd.zone.name in zones
    requires Resolved(zones, location, zd.zone.name) && location in zd.zone.locations && location != zd.zone.name
    requires l in ClimbLoads(zd, location, record)
    ensures Resolved(zones, l, zd.zone.name)
    decreases Dots(location)
  {
    var zone, locs := zd.zone.name, zd.zone.locations;
    if !Caa.HasParent(location) {
      ApexIsResolved(zones, zone);
    } else {
      var parent := Caa.Parent(location);
      var (next, m) := Locations.FindLocation(zone, locs, parent);
      ParentIsResolved(zones, locs, location, zone);
      if l != next {
        Caa.ParentDots(location);
        Caa.LocationDots(zone, locs, parent);
        Caa.ParentKeepsTail(location);
        Locations.MatchIsStored(zone, locs, parent);
        ClimbLoadsResolved(zones, zd, next, zd.records[next], l);
      }
    }
  }

  /** The "location not exists" error of LoadLocation cannot be reached from a match. */
  lemma {:induction false} ResolvedHasLabel(zone: string, locs: set<string>, q: string)
    ensures var (location, m) := Locations.FindLocation(zone, locs, q);
      m != Locations.NoMatch ==> Label(location, zone) == "@" || Label(location, zone) in locs
  {
    Locations.MatchIsStored(zone, locs, q);
  }

  // ---- One load -----------------------------------------------------------------

  /** A hash field of the store: absent or empty, a decodable record, or bad JSON. */
  datatype Stored = Empty | Json(record: Record) | Garbage

  type Redis = map<(string, string), Stored>

  datatype Entry = Entry(record: Record, timeout: int)

  type Cache = map<string, Entry>

  /** What the fetch under a miss gives: a record read now, the implicit apex, or an error. */
  datatype Fetched = Got(record: Record) | Implicit(record: Record) | Error

  function Default(name: string): Record {
    var ips := IpSet(0, [], FilterConfig("multi", "none", "none"), HealthConfig("", "", 0, 0, 0, 0, false));
    var none := RRSet(0, []);
    Record(name, ips, ips, None, none, none, none, none, none, None, none, None)
  }

  function Fetch(redis: Redis, location: string, zone: string, locs: set<string>, answered: bool): Fetched {
    var field, name := Label(location, zone), FullName(location, zone);
    if field !in locs then if field == "@" then Implicit(Default(name)) else Error
    else if !answered then Error
    else if (zone, field) !in redis || redis[(zone, field)].Empty? then Got(Default(name))
    else if redis[(zone, field)].Garbage? then Error
    else Got(redis[(zone, field)].record.(name := name))
  }

  /** What the store holds for a location: its record, the empty record, or nothing readable. */
  function Held(redis: Redis, location: string, zone: string): Option<Record> {
    var at := (zone, Label(location, zone));
    var name := FullName(location, zone);
    if at in redis && redis[at].Json? then Some(redis[at].record.(name := name))
    else if at in redis && redis[at].Garbage? then None
    else Some(Default(name))
  }

  /** A fetch gives what the store holds now, the implicit apex, or an error; and when each. */
  lemma {:induction false} FetchMeaning(redis: Redis, location: string, zone: string, locs: set<string>, answered: bool)
    ensures match Fetch(redis, location, zone, locs, answered)
      case Got(r) => Label(location, zone) in locs && answered && Held(redis, location, zone) == Some(r)
      case Implicit(r) => Label(location, zone) == "@" && "@" !in locs && r == Default(FullName(location, zone))
      case Error =>
        || (Label(location, zone) !in locs && Label(location, zone) != "@")
        || (Label(location, zone) in locs && (!answered || Held(redis, location, zone) == None))
  {
  }

  function Load(cache: Cache, redis: Redis, location: string, zone: string, locs: set<string>, answered: bool,
                now: int, lifetime: nat): (Cache, Option<Record>)
  {
    var key := Key(location, zone);
    if key in cache && now <= cache[key].timeout then (cache, Some(cache[key].record))
    else
      match Fetch(redis, location, zone, locs, answered)
      case Got(r) => (cache[key := Entry(r, now + lifetime)], Some(r))
      case Implicit(r) => (cache[key := Entry(r, 0)], Some(r))
      case Error => (cache, if key in cache then Some(cache[key].record) else None)
  }

  class RecordStore {
    var cache: Cache
    const lifetime: nat

    constructor (lifetime: nat)
      ensures cache == map[] && this.lifetime == lifetime
    {
      cache := map[];
      this.lifetime := lifetime;
    }

    method LoadLocation(redis: Redis, location: string, zone: string, locs: set<string>, answered: bool, now: int)
      returns (r: Option<Record>)
      modifies this
      ensures (cache, r) == Load(old(cache), redis, location, zone, locs, answered, now, lifetime)
    {
      var key := location + "." + zone;
      r := None;
      if key in cache {
        r := Some(cache[key].record);
        if now <= cache[key].timeout { return; }
      }
      var answer := Fetch(redis, location, zone, locs, answered);
      match answer {
        case Got(record) =>
          cache := cache[key := Entry(record, now + lifetime)];
          r := Some(record);
        case Implicit(record) =>
          cache := cache[key := Entry(record, 0)];
          r := Some(record);
        case Error =>
      }
    }
  }

  // ---- Runs -----------------------------------------------------------------------

  datatype State = State(redis: Redis, cache: Cache, now: int)

  datatype Event =
    | LoadEvent(location: string, zone: string, locs: set<string>, answered: bool)
    | Evict(keys: set<string>)
    | Write(redis: Redis)
    | Advance(seconds: nat)
    | TouchTtl(key: string, a: nat, aaaa: nat)   // the TTL that an ANAME answer leaves on a cached record

  function Touched(r: Record, a: nat, aaaa: nat): Record {
    r.(a := if r.a.data == [] then r.a.(ttl := a) else r.a,
       aaaa := if r.aaaa.data == [] then r.aaaa.(ttl := aaaa) else r.aaaa)
  }

  function Next(lifetime: nat, st: State, e: Event): State {
    match e
    case LoadEvent(location, zone, locs, answered) =>
      st.(cache := Load(st.cache, st.redis, location, zone, locs, answered, st.now, lifetime).0)
    case Evict(keys) => st.(cache := st.cache - keys)
    case Write(redis) => st.(redis := redis)
    case Advance(seconds) => st.(now := st.now + seconds)
    case TouchTtl(key, a, aaaa) =>
      if key !in st.cache then st
      else st.(cache := st.cache[key := st.cache[key].(record := Touched(st.cache[key].record, a, aaaa))])
  }

  function Run(lifetime: nat, st: State, events: seq<Event>): State {
    if events == [] then st
    else Next(lifetime, Run(lifetime, st, events[..|events| - 1]), events[|events| - 1])
  }

  /** Equal, except for the TTL of an address set without addresses. */
  predicate SameRecord(r: Record, s: Record) {
    Touched(r, 0, 0) == Touched(s, 0, 0)
  }

  /** Step `m` fetched this entry for this location: what the store held then, and until when it is fresh. */
  ghost predicate FetchedAt(lifetime: nat, init: State, events: seq<Event>, m: nat, location: string, zone: string, entry: Entry)
    requires m < |events|
  {
    var e, st := events[m], Run(lifetime, init, events[..m]);
    && e.LoadEvent? && e.location == location && e.zone == zone
    && (|| (&& Label(location, zone) in e.locs && Held(st.redis, location, zone).Some?
            && SameRecord(entry.record, Held(st.redis, location, zone).value) && entry.timeout == st.now + lifetime)
        || (&& Label(location, zone) == "@" && "@" !in e.locs
            && SameRecord(entry.record, Default(FullName(location, zone))) && entry.timeout == 0))
  }

  ghost predicate Explained(zones: set<string>, lifetime: nat, init: State, events: seq<Event>, n: nat, key: string, entry: Entry)
    requires n <= |events|
  {
    exists m: nat, location, zone ::
      && m < n && key == Key(location, zone) && Resolved(zones, location, zone)
      && FetchedAt(lifetime, init, events, m, location, zone, entry)
  }

  ghost predicate Requests(zones: set<string>, init: State, events: seq<Event>) {
    && init.cache == map[] && (forall z :: z in zones ==> WellFormed(z))
    && forall i :: 0 <= i < |events| && events[i].LoadEvent? ==> Resolved(zones, events[i].location, events[i].zone)
  }

  lemma {:induction false} RunStep(lifetime: nat, init: State, events: seq<Event>, n: nat)
    requires n < |events|
    ensures Run(lifetime, init, events[..n + 1]) == Next(lifetime, Run(lifetime, init, events[..n]), events[n])
  {
    assert events[..n + 1][..n] == events[..n];
  }

  /** Every cache entry was fetched by an earlier load of the location its key stands for. */
  lemma {:induction false} CacheExplained(zones: set<string>, lifetime: nat, init: State, events: seq<Event>, n: nat, key: string)
    requires Requests(zones, init, events) && n <= |events| && key in Run(lifetime, init, events[..n]).cache
    ensures Explained(zones, lifetime, init, events, n, key, Run(lifetime, init, events[..n]).cache[key])
  {
    var p := Explains(zones, lifetime, init, events, key);
    forall i | 0 <= i < |events| ensures StepKeeps(lifetime, init, events, i, key, p) {
      EntryExplained(zones, lifetime, init, events, i, key);
    }
    CacheKeeps(lifetime, init, events, n, key, p);
  }

  ghost function Explains(zones: set<string>, lifetime: nat, init: State, events: seq<Event>, key: string): (nat, Entry) -> bool {
    (i: nat, entry: Entry) => i <= |events| && Explained(zones, lifetime, init, events, i, key, entry)
  }

  /** If step `i` leaves an entry for the key, the entry satisfies `p`, provided that one before the step did. */
  ghost predicate StepKeeps(lifetime: nat, init: State, events: seq<Event>, i: nat, key: string, p: (nat, Entry) -> bool)
    requires i < |events|
  {
    var before, after := Run(lifetime, init, events[..i]).cache, Run(lifetime, init, events[..i + 1]).cache;
    key in after && (key in before ==> p(i, before[key])) ==> p(i + 1, after[key])
  }

  lemma {:induction false} CacheKeeps(lifetime: nat, init: State, events: seq<Event>, n: nat, key: string, p: (nat, Entry) -> bool)
    requires init.cache == map[] && forall i :: 0 <= i < |events| ==> StepKeeps(lifetime, init, events, i, key, p)
    requires n <= |events| && key in Run(lifetime, init, events[..n]).cache
    ensures p(n, Run(lifetime, init, events[..n]).cache[key])
  {
    if n == 0 {
      RunNothing(lifetime, init, events);
    } else {
      assert StepKeeps(lifetime, init, events, n - 1, key, p);
      if key in Run(lifetime, init, events[..n - 1]).cache { CacheKeeps(lifetime, init, events, n - 1, key, p); }
    }
  }

  lemma {:induction false} RunNothing(lifetime: nat, init: State, events: seq<Event>)
    ensures Run(lifetime, init, events[..0]) == init
  {
  }

  /** One step: an entry is new and fetched by this load, or it was explained before. */
  lemma {:induction false} EntryExplained(zones: set<string>, lifetime: nat, init: State, events: seq<Event>, n: nat, key: string)
    requires n < |events| && (events[n].LoadEvent? ==> Resolved(zones, events[n].location, events[n].zone))
    ensures StepKeeps(lifetime, init, events, n, key, Explains(zones, lifetime, init, events, key))
  {
    var p := Explains(zones, lifetime, init, events, key);
    var before, e := Run(lifetime, init, events[..n]), events[n];
    RunStep(lifetime, init, events, n);
    var after := Next(lifetime, before, e);
    if key !in after.cache || (key in before.cache && !p(n, before.cache[key])) { return; }
    var entry := after.cache[key];
    if e.LoadEvent? && key == Key(e.location, e.zone) && (key !in before.cache || before.cache[key] != entry) {
      FreshEntry(lifetime, before, e, entry);
      FreshIsExplained(zones, lifetime, init, events, n, entry);
    } else {
      KeptEntry(lifetime, before, e, key);
      StillExplained(zones, lifetime, init, events, n, key, before.cache[key], entry);
    }
  }

  lemma {:induction false} FreshIsExplained(zones: set<string>, lifetime: nat, init: State, events: seq<Event>, n: nat, entry: Entry)
    requires n < |events| && events[n].LoadEvent? && Resolved(zones, events[n].location, events[n].zone)
    requires var e, st := events[n], Run(lifetime, init, events[..n]);
      Freshly(lifetime, st.now, Fetch(st.redis, e.location, e.zone, e.locs, e.answered), entry)
    ensures Explained(zones, lifetime, init, events, n + 1, Key(events[n].location, events[n].zone), entry)
  {
    var e, st := events[n], Run(lifetime, init, events[..n]);
    FetchMeaning(st.redis, e.location, e.zone, e.locs, e.answered);
    assert FetchedAt(lifetime, init, events, n, e.location, e.zone, entry);
  }

  /** Any other step leaves an entry alone, but for the TTL of an empty address set. */
  lemma {:induction false} KeptEntry(lifetime: nat, st: State, e: Event, key: string)
    requires key in Next(lifetime, st, e).cache
    requires e.LoadEvent? && key == Key(e.location, e.zone) ==>
      key in st.cache && st.cache[key] == Next(lifetime, st, e).cache[key]
    ensures key in st.cache
    ensures SameRecord(Next(lifetime, st, e).cache[key].record, st.cache[key].record)
    ensures Next(lifetime, st, e).cache[key].timeout == st.cache[key].timeout
  {
  }

  lemma {:induction false} StillExplained(zones: set<string>, lifetime: nat, init: State, events: seq<Event>, n: nat, key: string,
                                          entry: Entry, entry': Entry)
    requires n < |events| && Explained(zones, lifetime, init, events, n, key, entry)
    requires SameRecord(entry'.record, entry.record) && entry'.timeout == entry.timeout
    ensures Explained(zones, lifetime, init, events, n + 1, key, entry')
  {
    var m: nat, location, zone :| m < n && key == Key(location, zone) && Resolved(zones, location, zone)
      && FetchedAt(lifetime, init, events, m, location, zone, entry);
    assert FetchedAt(lifetime, init, events, m, location, zone, entry');
  }

  /** The entry is what a load at `now` caches after this fetch. */
  predicate Freshly(lifetime: nat, now: int, fetched: Fetched, entry: Entry) {
    match fetched
    case Got(r) => entry == Entry(r, now + lifetime)
    case Implicit(r) => entry == Entry(r, 0)
    case Error => false
  }

  lemma {:induction false} FreshEntry(lifetime: nat, st: State, e: Event, entry: Entry)
    requires e.LoadEvent?
    requires var key := Key(e.location, e.zone);
      && key in Next(lifetime, st, e).cache && Next(lifetime, st, e).cache[key] == entry
      && (key !in st.cache || st.cache[key] != entry)
    ensures Freshly(lifetime, st.now, Fetch(st.redis, e.location, e.zone, e.locs, e.answered), entry)
  {
  }

  /**
   A returned record is what the store held for that zone and label when some load up to now
   fetched it (or the implicit empty apex), up to the TTL of empty address sets; it is still
   within its lifetime, or just fetched, or stale because the fetch just failed.  Nothing is
   returned only when the fetch failed and nothing was cached.
   */
  lemma {:induction false} LoadIsCoherent(zones: set<string>, lifetime: nat, init: State, events: seq<Event>, n: nat)
    requires Requests(zones, init, events) && n < |events| && events[n].LoadEvent?
    ensures var st, e := Run(lifetime, init, events[..n]), events[n];
      var result := Load(st.cache, st.redis, e.location, e.zone, e.locs, e.answered, st.now, lifetime).1;
      var failed := Fetch(st.redis, e.location, e.zone, e.locs, e.answered) == Error;
      match result
      case None => failed && Key(e.location, e.zone) !in st.cache
      case Some(r) =>
        exists m: nat, entry: Entry ::
          && m <= n && entry.record == r
          && FetchedAt(lifetime, init, events, m, e.location, e.zone, entry)
          && (st.now <= entry.timeout || m == n || failed)
  {
    var st, e := Run(lifetime, init, events[..n]), events[n];
    var key := Key(e.location, e.zone);
    var fetched := Fetch(st.redis, e.location, e.zone, e.locs, e.answered);
    if key in st.cache && (st.now <= st.cache[key].timeout || fetched == Error) {
      var m := CachedSource(zones, lifetime, init, events, n);
    } else if fetched != Error {
      FetchMeaning(st.redis, e.location, e.zone, e.locs, e.answered);
      var entry := if fetched.Got? then Entry(fetched.record, st.now + lifetime) else Entry(fetched.record, 0);
      assert FetchedAt(lifetime, init, events, n, e.location, e.zone, entry);
    }
  }

  /** The cached entry that a load finds was fetched by an earlier load of the same location. */
  lemma {:induction false} CachedSource(zones: set<string>, lifetime: nat, init: State, events: seq<Event>, n: nat) returns (m: nat)
    requires Requests(zones, init, events) && n < |events| && events[n].LoadEvent?
    requires Key(events[n].location, events[n].zone) in Run(lifetime, init, events[..n]).cache
    ensures m < n && FetchedAt(lifetime, init, events, m, events[n].location, events[n].zone,
                               Run(lifetime, init, events[..n]).cache[Key(events[n].location, events[n].zone)])
  {
    var e, key := events[n], Key(events[n].location, events[n].zone);
    CacheExplained(zones, lifetime, init, events, n, key);
    var m': nat, location, zone :| m' < n && key == Key(location, zone) && Resolved(zones, location, zone)
      && FetchedAt(lifetime, init, events, m', location, zone, Run(lifetime, init, events[..n]).cache[key]);
    KeyInjective(zones, location, zone, e.location, e.zone);
    m := m';
  }

  // ---- What a load leaves behind, and for how long ----------------------------------------

  /** A record that holds nothing. */
  predicate Blank(r: Record, name: string) {
    && r.name == name && r.cname == None && r.ptr == None && r.aname == None && r.a == r.aaaa
    && r.a.data == r.aaaa.data == [] && r.ns.data == r.txt.data == r.mx.data == r.srv.data == r.caa.data == r.tlsa.data == []
    && r.a.filter == FilterConfig("multi", "none", "none") && !r.a.health.enable
  }

  /**
   Without a fresh entry a load returns what the store holds under the zone and the label ("@" for
   the apex), under its full name, and keeps it for the lifetime; an apex without label is blank;
   otherwise the stale entry is all there is.
   */
  lemma {:induction false} LoadFetches(cache: Cache, redis: Redis, location: string, zone: string, locs: set<string>, answered: bool,
                                       now: int, lifetime: nat, field: string, name: string)
    requires Key(location, zone) in cache ==> cache[Key(location, zone)].timeout < now
    requires if location == zone then field == "@" && name == zone else field == location && name == location + "." + zone
    ensures var (cache', r) := Load(cache, redis, location, zone, locs, answered, now, lifetime);
      var value := if (zone, field) in redis then redis[(zone, field)] else Empty;
      if field in locs && answered && value != Garbage then
        && r.Some? && (if value.Json? then r.value == value.record.(name := name) else Blank(r.value, name))
        && cache' == cache[location + "." + zone := Entry(r.value, now + lifetime)]
      else if field == "@" && field !in locs then
        r.Some? && Blank(r.value, name) && cache' == cache[location + "." + zone := Entry(r.value, 0)]
      else
        cache' == cache && r == if location + "." + zone in cache then Some(cache[location + "." + zone].record) else None
  {
  }

  lemma {:induction false} TimeAdvances(lifetime: nat, init: State, events: seq<Event>, n: nat)
    requires n < |events|
    ensures Run(lifetime, init, events[..n]).now <= Run(lifetime, init, events[..n + 1]).now
  {
    RunStep(lifetime, init, events, n);
  }

  /** A fresh entry survives every step but its eviction. */
  lemma {:induction false} FreshStep(lifetime: nat, st: State, e: Event, key: string, entry: Entry)
    requires key in st.cache && SameRecord(st.cache[key].record, entry.record) && st.cache[key].timeout == entry.timeout
    requires st.now <= entry.timeout && (e.Evict? ==> key !in e.keys)
    ensures var after := Next(lifetime, st, e).cache;
      key in after && SameRecord(after[key].record, entry.record) && after[key].timeout == entry.timeout
  {
  }

  /**
   Until its lifetime is over, and unless it is evicted, an entry is served by every load of its
   key: whatever is written to the store, whether or not the store replies.
   */
  lemma {:induction false} FreshIsServed(lifetime: nat, init: State, events: seq<Event>, m: nat, n: nat, key: string)
    requires m <= n <= |events| && key in Run(lifetime, init, events[..m]).cache
    requires forall i :: m <= i < n && events[i].Evict? ==> key !in events[i].keys
    requires Run(lifetime, init, events[..n]).now <= Run(lifetime, init, events[..m]).cache[key].timeout
    ensures var st, entry := Run(lifetime, init, events[..n]), Run(lifetime, init, events[..m]).cache[key];
      key in st.cache && SameRecord(st.cache[key].record, entry.record) && st.cache[key].timeout == entry.timeout
    ensures forall location, zone, locs, answered :: Key(location, zone) == key ==>
      var st := Run(lifetime, init, events[..n]);
      Load(st.cache, st.redis, location, zone, locs, answered, st.now, lifetime) == (st.cache, Some(st.cache[key].record))
    decreases n - m
  {
    if m == n {
    } else {
      TimeAdvances(lifetime, init, events, n - 1);
      FreshIsServed(lifetime, init, events, m, n - 1, key);
      RunStep(lifetime, init, events, n - 1);
      var before, entry := Run(lifetime, init, events[..n - 1]), Run(lifetime, init, events[..m]).cache[key];
      FreshStep(lifetime, before, events[n - 1], key, entry);
    }
  }
}
