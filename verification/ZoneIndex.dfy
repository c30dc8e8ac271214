/**
 The zone index of handler/handler.go: zone names are stored reversed, with a
 leading dot, in a radix tree, and FindZone is one longest-prefix lookup.
 */
module ZoneIndex {
  import opened Names

  // ---- The simple form: longest label-aligned suffix -----------------------

  predicate Boundary(q: string, i: nat)
    requires i <= |q|
  {
    i == 0 || q[i - 1] == '.'
  }

  lemma {:induction false} BoundaryIsUnder(q: string, i: nat)
    requires i <= |q|
    ensures Boundary(q, i) ==> Under(q, q[i..])
  {
    if 0 < i && q[i - 1] == '.' {
      assert q[i - 1..] == "." + q[i..];
    }
  }

  lemma {:induction false} UnderIsBoundary(q: string, z: string)
    requires Under(q, z)
    ensures |z| <= |q| && q[|q| - |z|..] == z && Boundary(q, |q| - |z|)
  {
    if q != z {
      var x := SuffixSplit(q, z);
      assert q[|q| - |z|..] == z;
    }
  }

  function LongestFrom(zones: set<string>, q: string, i: nat): (r: string)
    requires i <= |q|
    ensures r != "" ==> |r| <= |q| - i && Under(q, r) && r in zones
    ensures forall z :: z in zones && Under(q, z) && |z| <= |q| - i ==> |z| <= |r|
    decreases |q| - i
  {
    BoundaryIsUnder(q, i);
    assert forall z :: z in zones && Under(q, z) && |z| == |q| - i ==> z == q[i..] && Boundary(q, i) by {
      forall z | z in zones && Under(q, z) && |z| == |q| - i { UnderIsBoundary(q, z); }
    }
    if Boundary(q, i) && q[i..] in zones then q[i..]
    else if i == |q| then ""
    else LongestFrom(zones, q, i + 1)
  }

  /**
   The zone that owns `q`: the unique longest zone name equal to `q` or ending `q`
   on a label boundary, and "" exactly when no (non-empty) zone name does.
   */
  function FindZone(zones: set<string>, q: string): (r: string)
    ensures r != "" ==> r in zones && Under(q, r)
    ensures forall z :: z in zones && Under(q, z) ==> Under(r, z) || z == ""
    ensures forall z :: z in zones && Under(q, z) ==> |z| < |r| || z == r
    ensures r == "" <==> forall z :: z in zones && Under(q, z) ==> z == ""
  {
    var r := LongestFrom(zones, q, 0);
    assert forall z :: z in zones && Under(q, z) ==> |z| < |r| || z == r by {
      forall z | z in zones && Under(q, z) ensures |z| < |r| || z == r {
        UnderIsBoundary(q, z);
        if r != "" { UnderIsBoundary(q, r); }
      }
    }
    assert forall z :: z in zones && Under(q, z) ==> Under(r, z) || z == "" by {
      forall z | z in zones && Under(q, z) ensures Under(r, z) || z == "" {
        if r != "" { UnderNested(q, z, r); }
      }
    }
    r
  }

  /** The properties above determine the answer. */
  lemma {:induction false} FindZoneUnique(zones: set<string>, q: string, r: string)
    requires r != "" ==> r in zones && Under(q, r)
    requires forall z :: z in zones && Under(q, z) ==> |z| <= |r|
    ensures r == FindZone(zones, q)
  {
    var s := FindZone(zones, q);
    if s != "" { assert |s| <= |r|; }
    if r != "" { assert |r| < |s| || r == s; }
  }

  // ---- The indexed form ----------------------------------------------------

  function Reversed(s: string): string {
    seq(|s|, i requires 0 <= i < |s| => s[|s| - 1 - i])
  }

  function ReverseZone(zone: string): string {
    Reversed("." + zone)
  }

  lemma {:induction false} ReversedPrefixIsSuffix(s: string, t: string)
    ensures Reversed(t) <= Reversed(s) <==> HasSuffix(s, t)
  {
    var rs, rt := Reversed(s), Reversed(t);
    if rt <= rs {
      forall i | 0 <= i < |t| ensures s[|s| - |t| + i] == t[i] {
        assert rt[|t| - 1 - i] == rs[|t| - 1 - i];
      }
    }
    if HasSuffix(s, t) {
      forall i | 0 <= i < |t| ensures rs[i] == rt[i] {
        assert s[|s| - |t|..][|t| - 1 - i] == t[|t| - 1 - i];
      }
    }
  }

  lemma {:induction false} DottedSuffix(q: string, z: string)
    ensures HasSuffix("." + q, "." + z) <==> Under(q, z)
  {
    if |q| == |z| {
      assert ("." + q)[0..] == "." + q;
      assert ("." + q)[1..] == q && ("." + z)[1..] == z;
    } else if |z| < |q| {
      assert ("." + q)[|q| - |z|..] == q[|q| - |z| - 1..];
    }
  }

  /** Prefixes of reversed, dotted names are label-aligned suffixes. */
  lemma {:induction false} ReversedPrefix(q: string, z: string)
    ensures ReverseZone(z) <= ReverseZone(q) <==> Under(q, z)
  {
    ReversedPrefixIsSuffix("." + q, "." + z);
    DottedSuffix(q, z);
  }

  lemma {:induction false} ReverseZoneInjective(a: string, b: string)
    requires ReverseZone(a) == ReverseZone(b)
    ensures a == b
  {
    ReversedPrefix(a, b);
    ReversedPrefix(b, a);
  }

  /** The longest stored key that is a prefix of key[..n]. */
  function LongestPrefix(tree: map<string, string>, key: string, n: nat): (k: int)
    requires n <= |key|
    ensures -1 <= k <= n
    ensures k >= 0 ==> key[..k] in tree
    ensures forall m :: k < m <= n ==> key[..m] !in tree
  {
    if key[..n] in tree then n else if n == 0 then -1 else LongestPrefix(tree, key, n - 1)
  }

  ghost predicate Indexes(tree: map<string, string>, zones: set<string>) {
    && (forall z :: z in zones ==> ReverseZone(z) in tree)
    && (forall k :: k in tree ==> tree[k] in zones && k == ReverseZone(tree[k]))
  }

  /** Swaps from both ends towards the middle, over "." + zone. */
  method ReverseRunes(zone: string) returns (key: string)
    ensures key == ReverseZone(zone)
  {
    var dotted := "." + zone;
    var runes := new char[|dotted|](i requires 0 <= i < |dotted| => dotted[i]);
    var i, j := 0, runes.Length - 1;
    while i < j
      invariant 0 <= i && i + j == runes.Length - 1 && i <= j + 1
      invariant forall k :: 0 <= k < i ==> runes[k] == dotted[|dotted| - 1 - k] && runes[|dotted| - 1 - k] == dotted[k]
      invariant forall k :: i <= k <= j ==> runes[k] == dotted[k]
    {
      runes[i], runes[j] := runes[j], runes[i];
      i, j := i + 1, j - 1;
    }
    key := runes[..];
    assert forall k :: 0 <= k < |dotted| ==> key[k] == dotted[|dotted| - 1 - k] by {
      forall k | 0 <= k < |dotted| ensures key[k] == dotted[|dotted| - 1 - k] {
        if k >= i && k > j { assert runes[|dotted| - 1 - (|dotted| - 1 - k)] == dotted[|dotted| - 1 - k]; }
      }
    }
  }

  class ZoneTable {
    ghost var zones: set<string>
    var tree: map<string, string>

    ghost predicate Valid() reads this {
      Indexes(tree, zones)
    }

    constructor ()
      ensures Valid() && zones == {}
    {
      zones, tree := {}, map[];
    }

    /** A failed read of the zone list keeps the current tree. */
    method LoadZones(members: seq<string>, failed: bool)
      requires Valid()
      modifies this
      ensures Valid()
      ensures zones == if failed then old(zones) else set z | z in members
    {
      if failed { return; }
      var newZones: map<string, string> := map[];
      ghost var loaded: set<string> := {};
      for i := 0 to |members|
        invariant Indexes(newZones, loaded)
        invariant loaded == set z | z in members[..i]
      {
        var key := ReverseRunes(members[i]);
        if key in newZones { ReverseZoneInjective(newZones[key], members[i]); }
        newZones := newZones[key := members[i]];
        loaded := loaded + {members[i]};
        assert members[..i + 1] == members[..i] + [members[i]];
      }
      assert members[..|members|] == members;
      tree, zones := newZones, loaded;
    }

    /** One prefix lookup in the reversed index is the longest label-aligned suffix search. */
    method Lookup(q: string) returns (zone: string)
      requires Valid()
      ensures zone == FindZone(zones, q)
    {
      var rname := ReverseRunes(q);
      var k := LongestPrefix(tree, rname, |rname|);
      zone := if k >= 0 then tree[rname[..k]] else "";
      LookupMatches(tree, zones, q, k, zone);
    }
  }

  lemma {:induction false} LookupMatches(tree: map<string, string>, zones: set<string>, q: string, k: int, zone: string)
    requires Indexes(tree, zones)
    requires var rname := ReverseZone(q);
             && k == LongestPrefix(tree, rname, |rname|)
             && zone == if k >= 0 then tree[rname[..k]] else ""
    ensures zone == FindZone(zones, q)
  {
    var rname := ReverseZone(q);
    if k >= 0 {
      assert rname[..k] == ReverseZone(zone);
      ReversedPrefix(q, zone);
    }
    forall z | z in zones && Under(q, z) ensures |z| <= |zone| {
      ReversedPrefix(q, z);
      assert rname[..|z| + 1] == ReverseZone(z);
    }
    FindZoneUnique(zones, q, zone);
  }
}
