/** Signing of handler/dnssec.go: rrset splitting, the signed section, and zone keys. */
module DnsSec {
  import opened Records

  type SetKey = (string, RRType)

  predicate Signable(rr: RR) {
    rr.rrtype != RRSIG && rr.rrtype != OPT
  }

  function KeyOf(rr: RR): SetKey {
    (rr.name, rr.rrtype)
  }

  /** The records of one rrset, in input order. */
  function Group(rrs: seq<RR>, k: SetKey): seq<RR> {
    if rrs == [] then []
    else Group(rrs[..|rrs| - 1], k)
         + (var rr := rrs[|rrs| - 1]; if Signable(rr) && KeyOf(rr) == k then [rr] else [])
  }

  function Signables(rrs: seq<RR>): seq<RR> {
    if rrs == [] then []
    else Signables(rrs[..|rrs| - 1]) + (var rr := rrs[|rrs| - 1]; if Signable(rr) then [rr] else [])
  }

  /** What real signing gives for a set, or None on failure; DNSKEY sets use the prepared signature. */
  datatype Signer = Signer(sign: seq<RR> -> Option<RR>, dnsKeySig: RR)

  ghost predicate MakesSignatures(s: Signer) {
    s.dnsKeySig.rrtype == RRSIG && forall rrs :: s.sign(rrs).Some? ==> s.sign(rrs).value.rrtype == RRSIG
  }

  function Signature(s: Signer, rrset: seq<RR>): (sigs: seq<RR>)
    ensures |sigs| <= 1
  {
    if rrset == [] then []
    else if rrset[0].rrtype == DNSKEY then [s.dnsKeySig]
    else if s.sign(rrset).Some? then [s.sign(rrset).value] else []
  }

  /** One set, followed by its signature. */
  function Block(rrs: seq<RR>, k: SetKey, s: Signer): seq<RR> {
    Group(rrs, k) + Signature(s, Group(rrs, k))
  }

  /** The sets in the given order, each followed by its signature. */
  function Assemble(rrs: seq<RR>, order: seq<SetKey>, s: Signer): seq<RR> {
    if order == [] then []
    else Assemble(rrs, order[..|order| - 1], s) + Block(rrs, order[|order| - 1], s)
  }

  ghost predicate Splits(m: map<SetKey, seq<RR>>, rrs: seq<RR>) {
    forall k :: (k in m <==> Group(rrs, k) != []) && (k in m ==> m[k] == Group(rrs, k))
  }

  /** Some order of exactly the sets that occur, none twice. */
  ghost predicate OrderOf(order: seq<SetKey>, rrs: seq<RR>) {
    && (forall k :: k in order <==> Group(rrs, k) != [])
    && (forall i, j :: 0 <= i < j < |order| ==> order[i] != order[j])
  }

  method SplitSets(rrs: seq<RR>) returns (m: map<SetKey, seq<RR>>)
    ensures Splits(m, rrs)
  {
    m := map[];
    for i := 0 to |rrs|
      invariant Splits(m, rrs[..i])
    {
      var r := rrs[i];
      assert rrs[..i + 1][..i] == rrs[..i] && rrs[..i + 1][i] == r;
      if r.rrtype == RRSIG || r.rrtype == OPT { continue; }
      var k := KeyOf(r);
      if k in m {
        m := m[k := m[k] + [r]];
      } else {
        m := m[k := [r]];
      }
    }
    assert rrs[..|rrs|] == rrs;
  }

  /** Map iteration order is arbitrary, so the result is one of the assemblies. */
  method Sign(rrs: seq<RR>, s: Signer) returns (res: seq<RR>)
    ensures exists order :: OrderOf(order, rrs) && res == Assemble(rrs, order, s)
  {
    var sets := SplitSets(rrs);
    res := [];
    ghost var order: seq<SetKey> := [];
    var rest := sets.Keys;
    while rest != {}
      invariant rest <= sets.Keys
      invariant forall k :: k in order <==> k in sets.Keys && k !in rest
      invariant forall i, j :: 0 <= i < j < |order| ==> order[i] != order[j]
      invariant res == Assemble(rrs, order, s)
      decreases rest
    {
      var k :| k in rest;
      rest := rest - {k};
      var block := SignSet(sets[k], s);
      AssembleStep(rrs, order, k, s);
      res := res + block;
      order := order + [k];
    }
    assert OrderOf(order, rrs);
  }

  method SignSet(rrset: seq<RR>, s: Signer) returns (block: seq<RR>)
    requires rrset != []
    ensures block == rrset + Signature(s, rrset)
  {
    block := rrset;
    if rrset[0].rrtype == DNSKEY {
      block := block + [s.dnsKeySig];
    } else {
      var sig := s.sign(rrset);
      if sig.Some? { block := block + [sig.value]; }
    }
  }

  lemma {:induction false} AssembleStep(rrs: seq<RR>, order: seq<SetKey>, k: SetKey, s: Signer)
    ensures Assemble(rrs, order + [k], s) == Assemble(rrs, order, s) + Block(rrs, k, s)
  {
    assert (order + [k])[..|order|] == order;
  }

  // ---- What signing keeps -------------------------------------------------------

  lemma {:induction false} GroupConcat(a: seq<RR>, b: seq<RR>, k: SetKey)
    ensures Group(a + b, k) == Group(a, k) + Group(b, k)
  {
    if b == [] {
      assert a + b == a;
    } else {
      assert (a + b)[..|a + b| - 1] == a + b[..|b| - 1];
      GroupConcat(a, b[..|b| - 1], k);
    }
  }

  lemma {:induction false} GroupOfGroup(rrs: seq<RR>, k: SetKey, k': SetKey)
    ensures Group(Group(rrs, k), k') == if k == k' then Group(rrs, k) else []
  {
    if rrs == [] {
    } else {
      var n := |rrs| - 1;
      GroupOfGroup(rrs[..n], k, k');
      var last := if Signable(rrs[n]) && KeyOf(rrs[n]) == k then [rrs[n]] else [];
      GroupConcat(Group(rrs[..n], k), last, k');
      if last != [] { assert last[..0] == []; }
    }
  }

  lemma {:induction false} GroupOfSignature(s: Signer, rrset: seq<RR>, k: SetKey)
    requires MakesSignatures(s)
    ensures Group(Signature(s, rrset), k) == []
  {
    var sigs := Signature(s, rrset);
    if sigs != [] { assert sigs[..0] == []; }
  }

  lemma {:induction false} GroupOfBlock(rrs: seq<RR>, k: SetKey, s: Signer, k': SetKey)
    requires MakesSignatures(s)
    ensures Group(Block(rrs, k, s), k') == if k == k' then Group(rrs, k) else []
  {
    GroupConcat(Group(rrs, k), Signature(s, Group(rrs, k)), k');
    GroupOfGroup(rrs, k, k');
    GroupOfSignature(s, Group(rrs, k), k');
  }

  lemma {:induction false} GroupOfAssembly(rrs: seq<RR>, order: seq<SetKey>, s: Signer, k: SetKey)
    requires MakesSignatures(s) && forall i, j :: 0 <= i < j < |order| ==> order[i] != order[j]
    ensures Group(Assemble(rrs, order, s), k) == if k in order then Group(rrs, k) else []
  {
    if order == [] {
    } else {
      var n := |order| - 1;
      var init, last := order[..n], order[n];
      assert order == init + [last] && last !in init;
      GroupOfAssembly(rrs, init, s, k);
      GroupOfStep(rrs, init, last, s, k);
    }
  }

  lemma {:induction false} GroupOfStep(rrs: seq<RR>, init: seq<SetKey>, last: SetKey, s: Signer, k: SetKey)
    requires MakesSignatures(s)
    ensures Group(Assemble(rrs, init + [last], s), k) ==
            Group(Assemble(rrs, init, s), k) + if k == last then Group(rrs, k) else []
  {
    AssembleStep(rrs, init, last, s);
    GroupConcat(Assemble(rrs, init, s), Block(rrs, last, s), k);
    GroupOfBlock(rrs, last, s, k);
  }

  /** Every rrset comes out whole, with its records in their original order. */
  lemma {:induction false} SignKeepsSets(rrs: seq<RR>, order: seq<SetKey>, s: Signer, k: SetKey)
    requires MakesSignatures(s) && OrderOf(order, rrs)
    ensures Group(Assemble(rrs, order, s), k) == Group(rrs, k)
  {
    GroupOfAssembly(rrs, order, s, k);
  }

  lemma {:induction false} CountByGroup(rrs: seq<RR>, rr: RR)
    requires Signable(rr)
    ensures multiset(Signables(rrs))[rr] == multiset(Group(rrs, KeyOf(rr)))[rr]
  {
    if rrs == [] {
    } else {
      CountByGroup(rrs[..|rrs| - 1], rr);
    }
  }

  lemma {:induction false} SignablesAreSignable(rrs: seq<RR>, rr: RR)
    ensures rr in Signables(rrs) ==> Signable(rr)
  {
    if rrs == [] {
    } else {
      SignablesAreSignable(rrs[..|rrs| - 1], rr);
    }
  }

  /** Without the signatures, the output is a permutation of the input without RRSIG and OPT. */
  lemma {:induction false} SignConserves(rrs: seq<RR>, order: seq<SetKey>, s: Signer)
    requires MakesSignatures(s) && OrderOf(order, rrs)
    ensures multiset(Signables(Assemble(rrs, order, s))) == multiset(Signables(rrs))
  {
    var l, r := Signables(Assemble(rrs, order, s)), Signables(rrs);
    forall rr ensures multiset(l)[rr] == multiset(r)[rr] {
      if Signable(rr) {
        CountByGroup(Assemble(rrs, order, s), rr);
        CountByGroup(rrs, rr);
        SignKeepsSets(rrs, order, s, KeyOf(rr));
      } else {
        SignablesAreSignable(Assemble(rrs, order, s), rr);
        SignablesAreSignable(rrs, rr);
      }
    }
  }

  /** The set is signed: a DNSKEY set always is, any other when its signing succeeds. */
  ghost predicate Signs(rrs: seq<RR>, k: SetKey, s: Signer) {
    k.1 == DNSKEY || s.sign(Group(rrs, k)).Some?
  }

  /** Each set stands in one piece, directly followed by its own signature, which is missing only if signing fails. */
  lemma {:induction false} SignIsContiguous(rrs: seq<RR>, order: seq<SetKey>, s: Signer, k: SetKey)
    returns (before: seq<RR>, sigs: seq<RR>, after: seq<RR>)
    requires MakesSignatures(s) && OrderOf(order, rrs) && Group(rrs, k) != []
    ensures Assemble(rrs, order, s) == before + Group(rrs, k) + sigs + after
    ensures sigs == if k.1 == DNSKEY then [s.dnsKeySig]
                    else if s.sign(Group(rrs, k)).Some? then [s.sign(Group(rrs, k)).value] else []
    ensures Group(before, k) == [] && Group(after, k) == []
  {
    var i :| 0 <= i < |order| && order[i] == k;
    before, after := AssemblySplit(rrs, order, s, i);
    SignKeepsSets(rrs, order, s, k);
    OnlyOneBlock(rrs, k, s, before, after);
    sigs := Signature(s, Group(rrs, k));
    GroupKey(rrs, k, 0);
    Associates(before, Group(rrs, k), sigs);
  }

  lemma {:induction false} GroupKey(rrs: seq<RR>, k: SetKey, i: nat)
    requires i < |Group(rrs, k)|
    ensures Signable(Group(rrs, k)[i]) && KeyOf(Group(rrs, k)[i]) == k
  {
    var init := Group(rrs[..|rrs| - 1], k);
    if i < |init| { GroupKey(rrs[..|rrs| - 1], k, i); }
  }

  // ---- How many signatures -------------------------------------------------------

  ghost function SigCount(rrs: seq<RR>): nat {
    if rrs == [] then 0 else SigCount(rrs[..|rrs| - 1]) + (if rrs[|rrs| - 1].rrtype == RRSIG then 1 else 0)
  }

  lemma {:induction false} SigCountConcat(a: seq<RR>, b: seq<RR>)
    ensures SigCount(a + b) == SigCount(a) + SigCount(b)
  {
    if b == [] {
      assert a + b == a;
    } else {
      assert (a + b)[..|a + b| - 1] == a + b[..|b| - 1];
      SigCountConcat(a, b[..|b| - 1]);
    }
  }

  lemma {:induction false} GroupHasNoSig(rrs: seq<RR>, k: SetKey)
    ensures SigCount(Group(rrs, k)) == 0
  {
    if rrs == [] {
    } else {
      var n := |rrs| - 1;
      GroupHasNoSig(rrs[..n], k);
      var last := if Signable(rrs[n]) && KeyOf(rrs[n]) == k then [rrs[n]] else [];
      SigCountConcat(Group(rrs[..n], k), last);
      OneSig(last);
    }
  }

  lemma {:induction false} OneSig(rrs: seq<RR>)
    requires |rrs| <= 1
    ensures SigCount(rrs) == if |rrs| == 1 && rrs[0].rrtype == RRSIG then 1 else 0
  {
    if |rrs| == 1 { assert rrs[..0] == []; }
  }

  lemma {:induction false} BlockSigs(rrs: seq<RR>, k: SetKey, s: Signer)
    requires MakesSignatures(s) && Group(rrs, k) != []
    ensures SigCount(Block(rrs, k, s)) == if Signs(rrs, k, s) then 1 else 0
  {
    var sigs := Signature(s, Group(rrs, k));
    SigCountConcat(Group(rrs, k), sigs);
    GroupHasNoSig(rrs, k);
    GroupKey(rrs, k, 0);
    OneSig(sigs);
  }

  ghost function SignedKeys(rrs: seq<RR>, keys: seq<SetKey>, s: Signer): set<SetKey> {
    set k | k in keys && Signs(rrs, k, s)
  }

  lemma {:induction false} SignedSnoc(rrs: seq<RR>, keys: seq<SetKey>, k: SetKey, s: Signer)
    requires k !in keys
    ensures |SignedKeys(rrs, keys + [k], s)| == |SignedKeys(rrs, keys, s)| + if Signs(rrs, k, s) then 1 else 0
  {
    assert SignedKeys(rrs, keys + [k], s) == SignedKeys(rrs, keys, s) + if Signs(rrs, k, s) then {k} else {};
  }

  lemma {:induction false} AssemblySigs(rrs: seq<RR>, order: seq<SetKey>, s: Signer)
    requires MakesSignatures(s) && (forall i, j :: 0 <= i < j < |order| ==> order[i] != order[j])
    requires forall i :: 0 <= i < |order| ==> Group(rrs, order[i]) != []
    ensures SigCount(Assemble(rrs, order, s)) == |SignedKeys(rrs, order, s)|
  {
    if order == [] {
    } else {
      var n := |order| - 1;
      var init, last := order[..n], order[n];
      assert order == init + [last] && last !in init;
      AssemblySigs(rrs, init, s);
      SignedSnoc(rrs, init, last, s);
      AssembleStep(rrs, init, last, s);
      SigCountConcat(Assemble(rrs, init, s), Block(rrs, last, s));
      BlockSigs(rrs, last, s);
    }
  }

  /** The rrsets that occur in a section. */
  ghost function Sets(rrs: seq<RR>): set<SetKey> {
    set i | 0 <= i < |rrs| && Signable(rrs[i]) :: KeyOf(rrs[i])
  }

  lemma {:induction false} SetsAreGroups(rrs: seq<RR>, k: SetKey)
    ensures k in Sets(rrs) <==> Group(rrs, k) != []
  {
    if rrs == [] {
    } else {
      var n := |rrs| - 1;
      var init := rrs[..n];
      SetsAreGroups(init, k);
      assert forall i :: 0 <= i < n ==> init[i] == rrs[i];
      assert k in Sets(rrs) <==> k in Sets(init) || (Signable(rrs[n]) && KeyOf(rrs[n]) == k);
    }
  }

  /** The output holds one RRSIG per rrset that is signed: old ones are dropped, none is added or lost. */
  lemma {:induction false} SignatureCount(rrs: seq<RR>, order: seq<SetKey>, s: Signer)
    requires MakesSignatures(s) && OrderOf(order, rrs)
    ensures SigCount(Assemble(rrs, order, s)) == |set k | k in Sets(rrs) && Signs(rrs, k, s)|
  {
    AssemblySigs(rrs, order, s);
    forall k ensures k in order <==> k in Sets(rrs) { SetsAreGroups(rrs, k); }
    assert SignedKeys(rrs, order, s) == set k | k in Sets(rrs) && Signs(rrs, k, s);
  }

  lemma {:induction false} AssemblySplit(rrs: seq<RR>, order: seq<SetKey>, s: Signer, i: nat)
    returns (before: seq<RR>, after: seq<RR>)
    requires i < |order|
    ensures Assemble(rrs, order, s) == before + Block(rrs, order[i], s) + after
  {
    var front, upTo := order[..i], order[..i + 1];
    PrefixStep(order, i);
    before := Assemble(rrs, front, s);
    after := AssemblyTail(rrs, order, s, i + 1);
    AssembleStep(rrs, front, order[i], s);
    assert Assemble(rrs, upTo, s) == before + Block(rrs, order[i], s);
  }

  lemma {:induction false} PrefixStep(order: seq<SetKey>, i: nat)
    requires i < |order|
    ensures order[..i + 1] == order[..i] + [order[i]]
  {
  }

  lemma {:induction false} OnlyOneBlock(rrs: seq<RR>, k: SetKey, s: Signer, before: seq<RR>, after: seq<RR>)
    requires MakesSignatures(s) && Group(before + Block(rrs, k, s) + after, k) == Group(rrs, k)
    ensures Group(before, k) == [] && Group(after, k) == []
  {
    GroupConcat(before + Block(rrs, k, s), after, k);
    GroupConcat(before, Block(rrs, k, s), k);
    GroupOfBlock(rrs, k, s, k);
    assert |Group(before, k)| + |Group(rrs, k)| + |Group(after, k)| == |Group(rrs, k)|;
  }

  lemma {:induction false} AssemblyTail(rrs: seq<RR>, order: seq<SetKey>, s: Signer, i: nat) returns (tail: seq<RR>)
    requires i <= |order|
    ensures Assemble(rrs, order, s) == Assemble(rrs, order[..i], s) + tail
  {
    var front := order[..i];
    if i == |order| {
      assert front == order;
      tail := [];
    } else {
      var n := |order| - 1;
      var init, k := order[..n], order[n];
      assert init[..i] == front && order == init + [k];
      var rest := AssemblyTail(rrs, init, s, i);
      AssembleStep(rrs, init, k, s);
      var block := Block(rrs, k, s);
      tail := rest + block;
      Associates(Assemble(rrs, front, s), rest, block);
    }
  }

  lemma {:induction false} Associates(a: seq<RR>, b: seq<RR>, c: seq<RR>)
    ensures (a + b) + c == a + (b + c)
  {
  }

  // ---- Zone keys -------------------------------------------------------------------

  datatype ZoneKey = ZoneKey(flags: nat, ttl: nat, text: string)

  /** The signing state of a zone; `dnssec` is Config.DnsSec. */
  class ZoneKeys {
    var dnssec: bool
    var zsk: Option<ZoneKey>
    var ksk: Option<ZoneKey>
    var dnsKeySig: Option<RR>

    constructor (dnssec: bool)
      ensures this.dnssec == dnssec && zsk == None && ksk == None && dnsKeySig == None
    {
      this.dnssec, zsk, ksk, dnsKeySig := dnssec, None, None, None;
    }

    /** Signing stays on exactly when both keys load and the key set signs; then all three are set. */
    method LoadZoneKeys(loadedZsk: Option<ZoneKey>, loadedKsk: Option<ZoneKey>, sign: (ZoneKey, ZoneKey) -> Option<RR>)
      modifies this
      ensures dnssec ==> zsk.Some? && ksk.Some? && dnsKeySig.Some?
      ensures dnssec ==> zsk.value.flags == 256 && ksk.value.flags == 257 && zsk.value.ttl == ksk.value.ttl
      ensures dnssec ==> dnsKeySig == sign(zsk.value, ksk.value)
      ensures dnssec <==>
        && old(dnssec) && loadedZsk.Some? && loadedKsk.Some?
        && sign(loadedZsk.value.(flags := 256, ttl := loadedKsk.value.ttl), loadedKsk.value.(flags := 257)).Some?
    {
      if dnssec {
        zsk := loadedZsk;
        if zsk.None? { dnssec := false; return; }
        ksk := loadedKsk;
        if ksk.None? { dnssec := false; return; }
        zsk := Some(zsk.value.(flags := 256));
        ksk := Some(ksk.value.(flags := 257));
        if zsk.value.ttl != ksk.value.ttl { zsk := Some(zsk.value.(ttl := ksk.value.ttl)); }
        var rrsig := sign(zsk.value, ksk.value);
        if rrsig.Some? { dnsKeySig := rrsig; } else { dnssec := false; return; }
      }
    }
  }
}

/** The denial record of handler/dnssec.go in the canonical order of section 6.1 of RFC 4034. */
module Nsec {
  import opened Names
  import opened Records

  function NSec(name: string, minTtl: nat): RR {
    RR(name, NSEC, minTtl, Target("\\000." + name))
  }

  /** A label as octets, and a name as labels from the root down. */
  type Octets = seq<nat>
  type Name = seq<Octets>

  predicate OctetsBefore(a: Octets, b: Octets) {
    if b == [] then false
    else if a == [] then true
    else a[0] < b[0] || (a[0] == b[0] && OctetsBefore(a[1..], b[1..]))
  }

  predicate Before(a: Name, b: Name)
    decreases |a|
  {
    if b == [] then false
    else if a == [] then true
    else if a[0] == b[0] then Before(a[1..], b[1..])
    else OctetsBefore(a[0], b[0])
  }

  ghost predicate ValidName(n: Name) {
    forall i :: 0 <= i < |n| ==> n[i] != []
  }

  lemma {:induction false} OctetsTotal(a: Octets, b: Octets)
    ensures (OctetsBefore(a, b) && a != b && !OctetsBefore(b, a))
            || (OctetsBefore(b, a) && a != b && !OctetsBefore(a, b))
            || (a == b && !OctetsBefore(a, b))
  {
    if a == [] || b == [] || a[0] != b[0] {
    } else {
      OctetsTotal(a[1..], b[1..]);
      assert a == [a[0]] + a[1..] && b == [b[0]] + b[1..];
    }
  }

  /** Canonical order is a strict total order on names: exactly one of before, equal, after. */
  lemma {:induction false} CanonicalTotal(a: Name, b: Name)
    ensures (Before(a, b) && a != b && !Before(b, a))
            || (Before(b, a) && a != b && !Before(a, b))
            || (a == b && !Before(a, b))
    decreases |a|
  {
    if a == [] || b == [] {
    } else {
      if a[0] == b[0] {
        CanonicalTotal(a[1..], b[1..]);
        assert a == [a[0]] + a[1..] && b == [b[0]] + b[1..];
      } else {
        OctetsTotal(a[0], b[0]);
      }
    }
  }

  /** No name lies strictly between a name and its child "\000", so the NSEC denies that name alone. */
  lemma {:induction false} NothingBetween(name: Name, m: Name)
    requires ValidName(m)
    ensures Before(name, name + [[0]])
    ensures !(Before(name, m) && Before(m, name + [[0]]))
    decreases |name|
  {
    var next := name + [[0]];
    if name == [] {
      assert [0][1..] == [];
      assert next == [[0]] && next[1..] == [];
      if m != [] {
        assert m[0] != [] && m[0][0] >= 0;
        assert !OctetsBefore(m[0], [0]);
      }
    } else {
      assert next[0] == name[0] && next[1..] == name[1..] + [[0]];
      NothingBetween(name[1..], if m == [] then m else m[1..]);
      if m != [] && m[0] != name[0] { OctetsTotal(m[0], name[0]); }
    }
  }

  // ---- From the text the code writes -------------------------------------------------

  function OctetsOf(text: string): Octets {
    if text == "\\000" then [0] else seq(|text|, i requires 0 <= i < |text| => text[i] as int as nat)
  }

  function RootFirst(labels: seq<string>): Name {
    if labels == [] then [] else RootFirst(labels[1..]) + [OctetsOf(labels[0])]
  }

  /** A fully qualified name; the empty root label is dropped. */
  function NameOf(text: string): Name {
    var ls := Labels(text);
    RootFirst(ls[..|ls| - 1])
  }

  lemma {:induction false} NextDomainText(name: string)
    ensures NameOf("\\000." + name) == NameOf(name) + [[0]]
  {
    var ls, child := Labels(name), "\\000";
    LabelsConcat(child, name);
    assert child + "." + name == "\\000." + name;
    FirstDotUnique(child, 4);
    assert Labels(child) == [child];
    var all := [child] + ls;
    assert all[..|all| - 1] == [child] + ls[..|ls| - 1];
    assert ([child] + ls[..|ls| - 1])[1..] == ls[..|ls| - 1];
  }

  /** The record that HandleRequest adds for a denied name covers no other name. */
  lemma {:induction false} NSecCoversOnlyItsName(name: string, minTtl: nat, m: Name)
    requires ValidName(m)
    ensures var rr := NSec(name, minTtl);
      && Before(NameOf(rr.name), NameOf(rr.data.host))
      && !(Before(NameOf(rr.name), m) && Before(m, NameOf(rr.data.host)))
  {
    NextDomainText(name);
    NothingBetween(NameOf(name), m);
  }
}
