/** FindCAA of handler/handler.go: the climb for CAA records, and section 3 of RFC 8659. */
module Caa {
  import opened Names
  import opened Records
  import opened World
  import opened Locations

  function Parent(n: string): string
    requires FirstDot(n) < |n|
  {
    n[FirstDot(n) + 1..]
  }

  predicate HasParent(n: string) {
    FirstDot(n) < |n|
  }

  lemma {:induction false} ParentDots(n: string)
    requires HasParent(n)
    ensures Dots(n) > Dots(Parent(n))
  {
    var d := FirstDot(n);
    assert n == n[..d] + n[d..];
    assert n[d..][1..] == Parent(n);
    DotsConcat(n[..d], n[d..]);
  }

  lemma {:induction false} SearchDots(locs: set<string>, q: string)
    ensures Search(locs, q).1 == WildCardMatch ==> Dots(Search(locs, q).0) <= Dots(q)
    decreases |q|
  {
    if q == "" {
    } else {
      var (ce, ss) := SplitQuery(q);
      if HasParent(q) {
        ParentDots(q);
        assert ("*." + ce)[1..][1..] == ce;
      }
      if !(KeyMatches(locs, ce) || ce in locs) && ce != "" { SearchDots(locs, ce); }
    }
  }

  lemma {:induction false} TrimDots(q: string, t: string)
    ensures Dots(TrimSuffix(q, t)) <= Dots(q)
  {
    if HasSuffix(q, t) {
      assert q == q[..|q| - |t|] + q[|q| - |t|..];
      DotsConcat(q[..|q| - |t|], q[|q| - |t|..]);
    }
  }

  /** A match never has more dots than the name looked for, not even through a wildcard. */
  lemma {:induction false} LocationDots(zone: string, locs: set<string>, query: string)
    ensures FindLocation(zone, locs, query).1 != NoMatch ==> Dots(FindLocation(zone, locs, query).0) <= Dots(query)
  {
    var rel := TrimSuffix(query, "." + zone);
    TrimDots(query, "." + zone);
    SearchDots(locs, rel);
    SearchIsStored(locs, rel);
  }

  /** What the loop returns from `location`, whose record is `record`. */
  function ClimbFrom(zd: ZoneData, location: string, record: Record): Option<Record>
    decreases Dots(location)
  {
    if record.caa.data != [] then Some(record)
    else if !HasParent(location) then AtApex(zd)
    else
      var (next, m) := FindLocation(zd.zone.name, zd.zone.locations, Parent(location));
      if m == NoMatch || next !in zd.records then None
      else
        ParentDots(location);
        LocationDots(zd.zone.name, zd.zone.locations, Parent(location));
        ClimbFrom(zd, next, zd.records[next])
  }

  function AtApex(zd: ZoneData): Option<Record> {
    if zd.zone.name in zd.records && zd.records[zd.zone.name].caa.data != []
    then Some(zd.records[zd.zone.name]) else None
  }

  function FindCAA(zd: ZoneData, record: Record): Option<Record> {
    ClimbFrom(zd, TrimSuffix(record.name, "." + zd.zone.name), record)
  }

  method ClimbCAA(zd: ZoneData, record: Record) returns (result: Option<Record>)
    ensures result == FindCAA(zd, record)
  {
    var currentRecord, currentLocation := record, TrimSuffix(record.name, "." + zd.zone.name);
    while true
      invariant ClimbFrom(zd, currentLocation, currentRecord) == FindCAA(zd, record)
      decreases Dots(currentLocation)
    {
      if |currentRecord.caa.data| != 0 { return Some(currentRecord); }
      if !HasParent(currentLocation) { break; }
      var parent := Parent(currentLocation);
      ParentDots(currentLocation);
      LocationDots(zd.zone.name, zd.zone.locations, parent);
      var location, m := Find(zd.zone.name, zd.zone.locations, parent);
      if m == NoMatch || location !in zd.records { return None; }
      currentLocation, currentRecord := location, zd.records[location];
    }
    return AtApex(zd);
  }

  // ---- The tree climb of RFC 8659 ------------------------------------------------

  /** The CAA record a lookup of this relative name would give, wildcards included. */
  function CaaAt(zd: ZoneData, n: string): Option<Record> {
    var (location, m) := FindRelative(zd.zone.locations, n);
    if m != NoMatch && location in zd.records && zd.records[location].caa.data != []
    then Some(zd.records[location]) else None
  }

  /** The name itself, then each ancestor, then the apex: the first that has CAA data. */
  function TreeClimb(zd: ZoneData, n: string): Option<Record>
    decreases |n|
  {
    if CaaAt(zd, n).Some? then CaaAt(zd, n)
    else if HasParent(n) then TreeClimb(zd, Parent(n))
    else AtApex(zd)
  }

  /** An ancestor that matches nothing is met before any CAA data. */
  predicate HoleFirst(zd: ZoneData, n: string)
    decreases |n|
  {
    CaaAt(zd, n).None? && HasParent(n)
    && (FindRelative(zd.zone.locations, Parent(n)).1 == NoMatch || HoleFirst(zd, Parent(n)))
  }

  /** What loads in `less` loads in `more` too, with the same result. */
  ghost predicate LoadsLess(less: ZoneData, more: ZoneData) {
    less.zone == more.zone && forall l :: l in less.records ==> l in more.records && less.records[l] == more.records[l]
  }

  lemma {:induction false} ClimbOnlyLoses(less: ZoneData, more: ZoneData, location: string, record: Record)
    requires LoadsLess(less, more)
    ensures ClimbFrom(less, location, record) == None || ClimbFrom(less, location, record) == ClimbFrom(more, location, record)
    ensures ClimbFrom(less, location, record).Some? ==> ClimbFrom(less, location, record).value.caa.data != []
    decreases Dots(location)
  {
    if record.caa.data != [] || !HasParent(location) {
    } else {
      var (next, m) := FindLocation(less.zone.name, less.zone.locations, Parent(location));
      if m != NoMatch && next in less.records {
        ParentDots(location);
        LocationDots(less.zone.name, less.zone.locations, Parent(location));
        ClimbOnlyLoses(less, more, next, less.records[next]);
      }
    }
  }

  /** Loads that fail can only lose the answer, never change it to another record. */
  lemma {:induction false} FailedLoadsOnlyLose(less: ZoneData, more: ZoneData, record: Record)
    requires LoadsLess(less, more)
    ensures FindCAA(less, record) == None || FindCAA(less, record) == FindCAA(more, record)
  {
    ClimbOnlyLoses(less, more, TrimSuffix(record.name, "." + less.zone.name), record);
  }

  predicate EndsInDot(s: string) {
    s != "" && s[|s| - 1] == '.'
  }

  /** Loads succeed, the zone is fully qualified, and its locations are ordinary relative names. */
  ghost predicate Regular(zd: ZoneData) {
    && EndsInDot(zd.zone.name) && zd.zone.name in zd.records
    && forall l :: l in zd.zone.locations ==> l in zd.records && l != "" && !EndsInDot(l)
  }

  lemma {:induction false} LastOfSuffix(s: string, t: string)
    requires HasSuffix(s, t) && t != ""
    ensures s != "" && s[|s| - 1] == t[|t| - 1]
  {
    assert s[|s| - |t|..][|t| - 1] == s[|s| - 1];
  }

  lemma {:induction false} NoTrailingDot(zone: string, locs: set<string>, n: string)
    requires EndsInDot(zone) && !EndsInDot(n)
    ensures FindLocation(zone, locs, n) == FindRelative(locs, n)
  {
    if HasSuffix(n, "." + zone) { LastOfSuffix(n, "." + zone); }
  }

  lemma {:induction false} ParentKeepsTail(n: string)
    requires HasParent(n) && !EndsInDot(n)
    ensures !EndsInDot(Parent(n)) && Parent(n) != ""
  {
  }

  /** From a wildcard match, the skipped ancestors all match the same wildcard. */
  lemma {:induction false} WildcardStep(locs: set<string>, n: string)
    requires FindRelative(locs, n).1 == WildCardMatch && n != ""
    ensures var ss := FindRelative(locs, n).0;
      if !HasParent(n) then ss == "*"
      else ss == "*." + Parent(n) || FindRelative(locs, Parent(n)) == (ss, WildCardMatch)
  {
    var (ce, ss) := SplitQuery(n);
    assert Search(locs, "") == ("", NoMatch);
    if !(KeyMatches(locs, ce) || ce in locs) {
      assert Search(locs, n) == Search(locs, ce);
    }
  }

  /** The climb from a name answered by a wildcard is the climb from below that wildcard. */
  lemma {:induction false} WildcardClimb(zd: ZoneData, n: string)
    requires FindRelative(zd.zone.locations, n).1 == WildCardMatch && n != "" && !EndsInDot(n) && CaaAt(zd, n).None?
    ensures var ss := FindRelative(zd.zone.locations, n).0;
      if !HasParent(ss) then TreeClimb(zd, n) == AtApex(zd) && !HoleFirst(zd, n)
      else && |Parent(ss)| < |n| && !EndsInDot(Parent(ss)) && Parent(ss) != ""
           && TreeClimb(zd, n) == TreeClimb(zd, Parent(ss))
           && (HoleFirst(zd, n) <==>
                 FindRelative(zd.zone.locations, Parent(ss)).1 == NoMatch || HoleFirst(zd, Parent(ss)))
    decreases |n|
  {
    var locs := zd.zone.locations;
    var ss := FindRelative(locs, n).0;
    WildcardStep(locs, n);
    if !HasParent(n) {
      FirstDotUnique("*", 1);
    } else {
      ParentKeepsTail(n);
      if ss == "*." + Parent(n) {
        StarParent(Parent(n));
      } else {
        WildcardClimb(zd, Parent(n));
      }
    }
  }

  lemma {:induction false} StarParent(c: string)
    ensures HasParent("*." + c) && Parent("*." + c) == c
  {
    FirstDotUnique("*." + c, 1);
  }

  /** From any matched name, the loop computes the tree climb, cut short at the first hole. */
  lemma {:induction false} ClimbMeaning(zd: ZoneData, n: string)
    requires Regular(zd) && n != "" && !EndsInDot(n) && FindRelative(zd.zone.locations, n).1 != NoMatch
    ensures var location := FindRelative(zd.zone.locations, n).0;
      && location in zd.records
      && ClimbFrom(zd, location, zd.records[location]) == if HoleFirst(zd, n) then None else TreeClimb(zd, n)
    decreases |n|
  {
    var locs := zd.zone.locations;
    var (location, m) := FindRelative(locs, n);
    SearchIsStored(locs, n);
    if CaaAt(zd, n).Some? {
    } else {
      if m == ExactMatch {
        if HasParent(n) {
          ParentKeepsTail(n);
          OneClimb(zd, n, Parent(n));
          if FindRelative(locs, Parent(n)).1 != NoMatch { ClimbMeaning(zd, Parent(n)); }
        }
      } else {
        WildcardClimb(zd, n);
        if HasParent(location) {
          OneClimb(zd, location, Parent(location));
          if FindRelative(locs, Parent(location)).1 != NoMatch { ClimbMeaning(zd, Parent(location)); }
        }
      }
    }
  }

  lemma {:induction false} OneClimb(zd: ZoneData, location: string, parent: string)
    requires Regular(zd) && HasParent(location) && parent == Parent(location) && !EndsInDot(parent)
    requires location in zd.records && zd.records[location].caa.data == []
    ensures var (next, m) := FindRelative(zd.zone.locations, parent);
      ClimbFrom(zd, location, zd.records[location]) ==
        if m == NoMatch || next !in zd.records then None else ClimbFrom(zd, next, zd.records[next])
  {
    NoTrailingDot(zd.zone.name, zd.zone.locations, parent);
  }

  /**
   FindCAA returns the answer of RFC 8659 exactly when no ancestor that matches nothing
   stands between the name and an answer above it; past such a hole it returns nothing.
   */
  lemma {:induction false} FindCAAIff(zd: ZoneData, n: string)
    requires Regular(zd) && n != "" && !EndsInDot(n) && FindRelative(zd.zone.locations, n).1 != NoMatch
    requires var location := FindRelative(zd.zone.locations, n).0;
      location in zd.records && zd.records[location].name == location + "." + zd.zone.name
    ensures var record := zd.records[FindRelative(zd.zone.locations, n).0];
      && (FindCAA(zd, record) == TreeClimb(zd, n) <==> !(HoleFirst(zd, n) && TreeClimb(zd, n).Some?))
      && (HoleFirst(zd, n) ==> FindCAA(zd, record).None?)
  {
    var location := FindRelative(zd.zone.locations, n).0;
    SuffixJoin(location, zd.zone.name);
    ClimbMeaning(zd, n);
  }

  /** Every ancestor is a stored location. */
  predicate Dense(locs: set<string>, n: string)
    decreases |n|
  {
    HasParent(n) ==> Parent(n) in locs && Dense(locs, Parent(n))
  }

  /** In a zone whose ancestors are all stored, the answer is always that of RFC 8659. */
  lemma {:induction false} DenseHasNoHole(zd: ZoneData, n: string)
    requires Dense(zd.zone.locations, n)
    ensures !HoleFirst(zd, n)
    decreases |n|
  {
    if !HasParent(n) {
    } else {
      DenseHasNoHole(zd, Parent(n));
    }
  }

  /** The exception happens: with "a.b" alone in the zone, the climb stops at "b", short of the apex. */
  lemma {:induction false} HoleHidesApex(zd: ZoneData, n: string, parent: string)
    requires Regular(zd) && zd.zone.locations == {n} && n == "a.b" && parent == "b"
    requires zd.records[n].name == n + "." + zd.zone.name
    requires zd.records[n].caa.data == [] && AtApex(zd).Some?
    ensures FindCAA(zd, zd.records[n]).None? && TreeClimb(zd, n) == AtApex(zd)
  {
    FirstDotUnique(n, 1);
    FirstDotUnique(parent, 1);
    assert Parent(n) == parent;
    var locs := zd.zone.locations;
    assert FindRelative(locs, parent) == Search(locs, parent);
    assert SplitQuery(parent) == ("", "*");
    assert Search(locs, "") == ("", NoMatch);
    assert Search(locs, parent) == ("", NoMatch);
    assert HoleFirst(zd, n);
    FindCAAIff(zd, n);
  }

  // ---- From the apex ----------------------------------------------------------------

  lemma {:induction false} DottedFindsNothing(locs: set<string>, q: string)
    requires q == "" || EndsInDot(q)
    requires forall l :: l in locs ==> l != "" && !EndsInDot(l)
    ensures FindRelative(locs, q).1 == NoMatch
    decreases |q|
  {
    if q == "" {
    } else {
      var (ce, ss) := SplitQuery(q);
      assert q[..|q|] == q;
      assert HasParent(q);
      assert EndsInDot(ss) && (ce == "" || EndsInDot(ce));
      DottedFindsNothing(locs, ce);
    }
  }

  /** At the apex the climb ends, although the code goes on to look up the parent of the zone name. */
  lemma {:induction false} ApexCAA(zd: ZoneData)
    requires Regular(zd) && zd.records[zd.zone.name].name == zd.zone.name
    ensures FindCAA(zd, zd.records[zd.zone.name]) == AtApex(zd)
  {
    var name, locs := zd.zone.name, zd.zone.locations;
    if HasParent(name) {
      var parent := Parent(name);
      assert parent == "" || EndsInDot(parent);
      TrimKeepsDot(parent, "." + name);
      DottedFindsNothing(locs, parent);
    }
  }

  lemma {:induction false} TrimKeepsDot(q: string, t: string)
    requires |q| < |t|
    ensures TrimSuffix(q, t) == q
  {
  }
}
