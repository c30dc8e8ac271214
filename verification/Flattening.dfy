/** CNAME flattening preserves meaning: the two modes of the resolution loop compared. */
module Flattening {
  import opened Records
  import opened World
  import opened Walks

  function NonCname(rrs: seq<RR>): (r: seq<RR>)
    ensures forall i :: 0 <= i < |r| ==> r[i].rrtype != CNAME
  {
    if rrs == [] then []
    else NonCname(rrs[..|rrs| - 1]) + (if rrs[|rrs| - 1].rrtype == CNAME then [] else [rrs[|rrs| - 1]])
  }

  /** An alias to a name outside the zone. */
  predicate Exits(v: View, rr: RR) {
    rr.rrtype == CNAME && rr.data.Target? && !v.inZone(rr.data.host)
  }

  /**
   What flattening should make of an unflattened answer: if the chain leaves the zone, one
   CNAME from the queried name to the exit; otherwise the answer without the chain, owned by
   the queried name (SOA and DNSKEY keep their owner).
   */
  function Flattened(v: View, answer: seq<RR>): seq<RR> {
    if answer != [] && Exits(v, answer[|answer| - 1]) then [answer[|answer| - 1].(name := v.qname)]
    else RenamedAll(v.qname, NonCname(answer))
  }

  predicate SameMeaning(v: View, flat: Outcome, plain: Outcome) {
    && flat.rcode == plain.rcode
    && flat.sections.authority == plain.sections.authority
    && flat.sections.additional == plain.sections.additional
    && flat.sections.answer ==
         if v.qtype == CNAME then plain.sections.answer else Flattened(v, plain.sections.answer)
  }

  // ---- The exact condition ---------------------------------------------------------

  /** The stored host text is judged in or out of the zone like the name that is followed. */
  predicate WellJudged(v: View, c: Alias) {
    v.inZone(c.host) <==> v.inZone(c.next)
  }

  /** On a chain: the first ten aliases are judged right, and an eleventh looks in-zone. */
  ghost predicate Preserves(v: View, t: seq<Alias>) {
    && (forall i :: 0 <= i < |t| && i < 10 ==> WellJudged(v, t[i]))
    && (|t| > 10 ==> v.inZone(t[10].host))
  }

  ghost predicate Good(v: View, name: string, left: nat)
    decreases left
  {
    left > 0 && v.step(name).Hop? ==>
      var c := v.step(name).alias;
      if left == 1 then v.inZone(c.host)
      else WellJudged(v, c) && (v.inZone(c.next) ==> Good(v, c.next, left - 1))
  }

  ghost predicate GoodTrail(v: View, t: seq<Alias>, left: nat) {
    && (forall i :: 0 <= i < |t| && i < left - 1 ==> WellJudged(v, t[i]))
    && (|t| > left - 1 >= 0 ==> v.inZone(t[left - 1].host))
  }

  lemma {:induction false} GoodIsPreserves(v: View, name: string, left: nat)
    requires Lawful(v)
    ensures Good(v, name, left) <==> GoodTrail(v, Trail(v, name, left), left)
    decreases left
  {
    if left == 0 || !v.step(name).Hop? {
    } else {
      var c := v.step(name).alias;
      var rest := Trail(v, c.next, left - 1);
      GoodIsPreserves(v, c.next, left - 1);
      GoodTrailCons(v, c, rest, left);
      if left > 1 && !v.inZone(c.next) { WalkStops(v, true, c.next, left - 1, FRESH); }
    }
  }

  lemma {:induction false} GoodTrailCons(v: View, c: Alias, rest: seq<Alias>, left: nat)
    requires left > 0 && |rest| <= left - 1
    ensures GoodTrail(v, [c] + rest, left) <==>
      if left == 1 then v.inZone(c.host) else WellJudged(v, c) && GoodTrail(v, rest, left - 1)
  {
    var t := [c] + rest;
    assert forall i :: 1 <= i < |t| ==> t[i] == rest[i - 1];
    if left > 1 {
      assert t[0] == c;
      assert |rest| > left - 2 ==> t[left - 1] == rest[left - 2];
      if GoodTrail(v, t, left) {
        forall i | 0 <= i < |rest| && i < left - 2 ensures WellJudged(v, rest[i]) { assert WellJudged(v, t[i + 1]); }
      }
    }
  }

  // ---- Flattening answers ------------------------------------------------------------

  /** The chain so far: CNAMEs only, the last one pointing at the current name. */
  ghost predicate Chained(acc: seq<RR>, name: string) {
    && (forall i :: 0 <= i < |acc| ==> acc[i].rrtype == CNAME)
    && (acc != [] ==> acc[|acc| - 1].data == Target(name))
  }

  lemma {:induction false} NonCnameOfChain(acc: seq<RR>)
    requires forall i :: 0 <= i < |acc| ==> acc[i].rrtype == CNAME
    ensures NonCname(acc) == []
  {
    if acc == [] {
    } else {
      NonCnameOfChain(acc[..|acc| - 1]);
    }
  }

  lemma {:induction false} NonCnameAppend(acc: seq<RR>, rrs: seq<RR>)
    requires forall i :: 0 <= i < |acc| ==> acc[i].rrtype == CNAME
    requires forall i :: 0 <= i < |rrs| ==> rrs[i].rrtype != CNAME
    ensures NonCname(acc + rrs) == rrs
  {
    if rrs == [] {
      assert acc + rrs == acc;
      NonCnameOfChain(acc);
    } else {
      var n := |rrs| - 1;
      assert (acc + rrs)[..|acc| + n] == acc + rrs[..n];
      NonCnameAppend(acc, rrs[..n]);
      assert rrs == rrs[..n] + [rrs[n]];
    }
  }

  lemma {:induction false} ChainFlattens(v: View, acc: seq<RR>, name: string)
    requires Chained(acc, name) && v.inZone(name)
    ensures Flattened(v, acc) == []
  {
    NonCnameOfChain(acc);
  }

  lemma {:induction false} LeafFlattens(v: View, acc: seq<RR>, name: string, rrs: seq<RR>)
    requires Chained(acc, name) && v.inZone(name)
    requires forall i :: 0 <= i < |rrs| ==> rrs[i].rrtype != CNAME
    ensures Flattened(v, acc + rrs) == RenamedAll(v.qname, rrs)
  {
    NonCnameAppend(acc, rrs);
    if rrs == [] {
      assert acc + rrs == acc;
      ChainFlattens(v, acc, name);
    } else {
      assert (acc + rrs)[|acc + rrs| - 1] == rrs[|rrs| - 1];
    }
  }

  /** No flattened answer is a CNAME to a name inside the zone. */
  lemma {:induction false} NeverInZoneCname(v: View, answer: seq<RR>, c: Alias)
    requires v.inZone(c.next)
    ensures Flattened(v, answer) != [CnameRR(v, v.qname, c)]
  {
    var r, n := Flattened(v, answer), NonCname(answer);
    if answer != [] && Exits(v, answer[|answer| - 1]) {
      assert !v.inZone(r[0].data.host);
    } else if |n| == 1 {
      assert r[0] == Renamed(v.qname, n[0]);
      assert r[0].rrtype == n[0].rrtype != CNAME;
    }
  }

  // ---- The comparison ------------------------------------------------------------------

  /** Both modes end at the same name that is not an alias. */
  lemma {:induction false} SameAtStop(v: View, name: string, acc: seq<RR>)
    requires Lawful(v) && v.qtype != CNAME && v.inZone(name) && Chained(acc, name) && !v.step(name).Hop?
    ensures SameMeaning(v, Stop(v, true, name, FRESH), Stop(v, false, name, Sections(acc, [], [])))
  {
    ChainFlattens(v, acc, name);
    assert !v.step(name).Leave?;
    if v.step(name).Leaf? { SameAtLeaf(v, name, v.step(name).record, acc); }
  }

  lemma {:induction false} SameAtLeaf(v: View, name: string, record: Record, acc: seq<RR>)
    requires Lawful(v) && v.qtype != CNAME && v.inZone(name) && Chained(acc, name)
    ensures SameMeaning(v, AtLeaf(v, v.qname, record, FRESH), AtLeaf(v, name, record, Sections(acc, [], [])))
  {
    assert LeafLaw(v, name, v.qname, record);
    var plain := v.leaf(name, record);
    if plain.Some? {
      var rrs := plain.value.rrs;
      LeafFlattens(v, acc, name, rrs);
      assert [] + RenamedAll(v.qname, rrs) == RenamedAll(v.qname, rrs);
      assert |RenamedAll(v.qname, rrs)| == |rrs|;
    } else {
      assert Flattened(v, []) == [];
    }
  }

  /** Leaving the zone along `c`, with `left` rounds after this hop. */
  lemma {:induction false} PlainExit(v: View, name: string, c: Alias, left: nat, acc: seq<RR>)
    requires Lawful(v) && !v.inZone(c.next)
    ensures var s := Sections(acc + [CnameRR(v, name, c)], [], []);
      Walk(v, false, c.next, left, s) == (if left == 0 then GivenUp(s) else Outcome(NoError, s))
    ensures Walk(v, true, c.next, left, FRESH) == if left == 0 then GivenUp(FRESH) else Outcome(NoError, FRESH)
    ensures Flattened(v, acc + [CnameRR(v, name, c)]) == [CnameRR(v, v.qname, c)]
  {
    var rr := CnameRR(v, name, c);
    assert (acc + [rr])[|acc|] == rr;
    assert v.step(c.next).Leave?;
  }

  lemma {:induction false} SameMeaningIff(v: View, name: string, left: nat, acc: seq<RR>)
    requires Lawful(v) && v.qtype != CNAME && v.inZone(name) && Chained(acc, name)
    ensures SameMeaning(v, Walk(v, true, name, left, FRESH), Walk(v, false, name, left, Sections(acc, [], [])))
            <==> Good(v, name, left)
    decreases left
  {
    var s := Sections(acc, [], []);
    if left == 0 {
      assert Flattened(v, []) == [];
    } else if !v.step(name).Hop? {
      WalkStops(v, true, name, left, FRESH);
      WalkStops(v, false, name, left, s);
      SameAtStop(v, name, acc);
    } else {
      SameAfterHop(v, name, v.step(name).alias, left, acc);
      if left > 1 && v.inZone(v.step(name).alias.next) {
        SameMeaningIff(v, v.step(name).alias.next, left - 1, acc + [CnameRR(v, name, v.step(name).alias)]);
      }
    }
  }

  lemma {:induction false} SameAfterHop(v: View, name: string, c: Alias, left: nat, acc: seq<RR>)
    requires Lawful(v) && v.qtype != CNAME && v.inZone(name) && Chained(acc, name)
    requires left > 0 && v.step(name) == Hop(c)
    ensures var flat, plain := Walk(v, true, name, left, FRESH), Walk(v, false, name, left, Sections(acc, [], []));
      var acc' := acc + [CnameRR(v, name, c)];
      && Chained(acc', c.next)
      && (left == 1 ==> (SameMeaning(v, flat, plain) <==> v.inZone(c.host)))
      && (left > 1 && !v.inZone(c.next) ==> (SameMeaning(v, flat, plain) <==> WellJudged(v, c)))
      && (left > 1 && v.inZone(c.next) && !v.inZone(c.host) ==> !SameMeaning(v, flat, plain))
      && (left > 1 && v.inZone(c.next) && v.inZone(c.host) ==>
            && flat == Walk(v, true, c.next, left - 1, FRESH)
            && plain == Walk(v, false, c.next, left - 1, Sections(acc', [], [])))
  {
    var plain := Walk(v, false, name, left, Sections(acc, [], []));
    WalkHops(v, name, left, Sections(acc, [], []), c);
    assert [] + [CnameRR(v, v.qname, c)] == [CnameRR(v, v.qname, c)];
    if left == 1 {
      assert Flattened(v, []) == [];
    } else if !v.inZone(c.next) {
      PlainExit(v, name, c, left - 1, acc);
    } else if !v.inZone(c.host) {
      NeverInZoneCname(v, plain.sections.answer, c);
    }
  }

  /**
   Flattening preserves the meaning of a request exactly when, along the chain, the first ten
   aliases are stored so that the zone test on the host text agrees with the name followed,
   and an eleventh does not look like an exit.
   */
  lemma {:induction false} FlatteningIff(v: View)
    requires Lawful(v) && v.inZone(v.qname)
    ensures SameMeaning(v, Walk(v, true, v.qname, ROUNDS, FRESH), Walk(v, false, v.qname, ROUNDS, FRESH))
            <==> Preserves(v, Trail(v, v.qname, ROUNDS))
  {
    if v.qtype == CNAME {
      assert !v.step(v.qname).Hop?;
      WalkStops(v, true, v.qname, ROUNDS, FRESH);
      WalkStops(v, false, v.qname, ROUNDS, FRESH);
    } else {
      SameMeaningIff(v, v.qname, ROUNDS, []);
      GoodIsPreserves(v, v.qname, ROUNDS);
    }
  }

  /** Fully qualified hosts and at most ten aliases are enough. */
  lemma {:induction false} FqdnHostsFlatten(v: View)
    requires Lawful(v) && v.inZone(v.qname)
    requires var t := Trail(v, v.qname, ROUNDS);
      |t| <= 10 && forall i :: 0 <= i < |t| ==> t[i].host == t[i].next
    ensures SameMeaning(v, Walk(v, true, v.qname, ROUNDS, FRESH), Walk(v, false, v.qname, ROUNDS, FRESH))
  {
    FlatteningIff(v);
  }

  /** A misjudged first alias always shows. */
  lemma {:induction false} MisjudgedAliasShows(v: View, c: Alias)
    requires Lawful(v) && v.inZone(v.qname) && v.step(v.qname) == Hop(c) && !WellJudged(v, c)
    ensures !SameMeaning(v, Walk(v, true, v.qname, ROUNDS, FRESH), Walk(v, false, v.qname, ROUNDS, FRESH))
  {
    var t := Trail(v, v.qname, ROUNDS);
    assert t == [c] + Trail(v, c.next, ROUNDS - 1);
    assert t[0] == c;
    FlatteningIff(v);
  }
}
