/**
 What a response holds, read off the stored data: the names that a request passes, and at the
 last of them the zone tree, the stored record and the address selection.
 */
module Responses {
  import opened Names
  import opened Records
  import opened World
  import opened Walks
  import ZoneIndex
  import Locations
  import Aname
  import Caa
  import Resolver
  import DnsSec

  // ---- Stored data -----------------------------------------------------------------------

  predicate Owned(w: World, zd: ZoneData, name: string) {
    ZoneIndex.FindZone(w.zones, name) == zd.zone.name
  }

  predicate Matched(zd: ZoneData, name: string) {
    Locations.FindLocation(zd.zone.name, zd.zone.locations, name).1 != Locations.NoMatch
  }

  /** The record that answers for a name of this zone. */
  function StoredAt(w: World, zd: ZoneData, name: string): Option<Record> {
    var location := Locations.FindLocation(zd.zone.name, zd.zone.locations, name).0;
    if Owned(w, zd, name) && Matched(zd, name) && location in zd.records then Some(zd.records[location]) else None
  }

  /** The CNAME that a query of this type follows there. */
  function CnameAt(w: World, zd: ZoneData, qtype: RRType, name: string): Option<HostRef> {
    if qtype != CNAME && StoredAt(w, zd, name).Some? then StoredAt(w, zd, name).value.cname else None
  }

  type Cnames = string -> Option<HostRef>

  function CnamesOf(w: World, zd: ZoneData, qtype: RRType): Cnames {
    name => CnameAt(w, zd, qtype, name)
  }

  function OwnedBy(w: World, zd: ZoneData): string -> bool {
    name => Owned(w, zd, name)
  }

  predicate Linked(cname: Cnames, name: string, next: string) {
    cname(name).Some? && next == Fqdn(cname(name).value.host)
  }

  /** Names linked by stored CNAMEs. */
  ghost predicate Path(cname: Cnames, names: seq<string>) {
    names != [] && forall i :: 0 <= i < |names| - 1 ==> Linked(cname, names[i], names[i + 1])
  }

  function Last(names: seq<string>): string
    requires names != []
  {
    names[|names| - 1]
  }

  /** The host of the CNAME, as it is stored, looks like a name of this zone. */
  predicate Inside(cname: Cnames, owned: string -> bool, name: string) {
    cname(name).Some? && owned(cname(name).value.host)
  }

  /** So it is all along the path. */
  ghost predicate LooksInside(cname: Cnames, owned: string -> bool, names: seq<string>) {
    forall i :: 0 <= i < |names| - 1 ==> Inside(cname, owned, names[i])
  }

  // ---- What is shown ------------------------------------------------------------------------

  /** The record that shows a stored entry; entries without host or text show nothing. */
  function Shown(owner: string, rrtype: RRType, ttl: nat, d: RData): Option<RR> {
    if d == Records.Target("") || d == Text("") || (d.Exchange? && d.mx == "") || (d.Service? && d.target == "") then None
    else
      Some(RR(owner, rrtype, ttl,
              match d
              case Target(host) => Records.Target(Fqdn(host))
              case Exchange(preference, mx) => Exchange(preference, Fqdn(mx))
              case Service(target, weight, port, priority) => Service(Fqdn(target), weight, port, priority)
              case _ => d))
  }

  /** One record per entry that shows something, in order, with the clamped TTL. */
  ghost predicate ShowsSet(rrs: seq<RR>, owner: string, rrtype: RRType, maxTtl: nat, rrset: RRSet) {
    rrs == Picked(rrset.data, d => Shown(owner, rrtype, GetTtl(maxTtl, rrset.ttl), d))
  }

  ghost predicate ShowsHost(rrs: seq<RR>, owner: string, rrtype: RRType, maxTtl: nat, ref: Option<HostRef>) {
    rrs == if ref.None? then [] else [RR(owner, rrtype, GetTtl(maxTtl, ref.value.ttl), Records.Target(Fqdn(ref.value.host)))]
  }

  function ShownIp(owner: string, rrtype: RRType, ttl: nat, ip: Option<string>): Option<RR> {
    if ip.Some? then Some(RR(owner, rrtype, ttl, Address(ip.value))) else None
  }

  /** One record per address that is there, in order. */
  ghost predicate ShowsIps(rrs: seq<RR>, owner: string, rrtype: RRType, ttl: nat, ips: seq<Option<string>>) {
    rrs == Picked(ips, ip => ShownIp(owner, rrtype, ttl, ip))
  }

  /** A stored CNAME, shown under `owner`. */
  function AliasRR(maxTtl: nat, owner: string, c: HostRef): RR {
    RR(owner, CNAME, GetTtl(maxTtl, c.ttl), Records.Target(Fqdn(c.host)))
  }

  /** The CNAMEs of a path: one for each name but the last, under its own name. */
  ghost function PathRRs(maxTtl: nat, cname: Cnames, names: seq<string>): (rrs: seq<RR>)
    requires Path(cname, names)
    ensures |rrs| == |names| - 1
  {
    seq(|names| - 1, i requires 0 <= i < |names| - 1 =>
      assert Linked(cname, names[i], names[i + 1]);
      AliasRR(maxTtl, names[i], cname(names[i]).value))
  }

  // ---- What a final answer holds, type by type -------------------------------------------------

  predicate Implemented(qtype: RRType) {
    qtype in {A, AAAA, CNAME, TXT, NS, MX, SRV, CAA, PTR, TLSA, SOA, DNSKEY}
  }

  /** The zone's SOA, as both authority sections and SOA answers hold it. */
  ghost function Soa(zd: ZoneData): RR {
    RR(zd.zone.name, SOA, zd.zone.soaTtl, Opaque(zd.zone.soaText))
  }

  ghost predicate AddressAnswer(w: World, qtype: RRType, owner: string, record: Record, rcode: Rcode, rrs: seq<RR>) {
    var ips := if qtype == A then record.a else record.aaaa;
    if |ips.data| == 0 && record.aname.Some? then
      var found := Aname.FindANAME(w, record.aname.value, qtype);
      rcode == found.rcode && ShowsIps(rrs, owner, qtype, GetTtl(w.maxTtl, found.ttl), found.ips)
    else rcode == NoError && ShowsIps(rrs, owner, qtype, GetTtl(w.maxTtl, ips.ttl), w.select(record.name, ips))
  }

  ghost predicate SetAnswer(w: World, zd: ZoneData, qtype: RRType, owner: string, record: Record, rrs: seq<RR>) {
    match qtype
    case TXT => ShowsSet(rrs, owner, TXT, w.maxTtl, record.txt)
    case NS => ShowsSet(rrs, owner, NS, w.maxTtl, record.ns)
    case MX => ShowsSet(rrs, owner, MX, w.maxTtl, record.mx)
    case SRV => ShowsSet(rrs, owner, SRV, w.maxTtl, record.srv)
    case TLSA => ShowsSet(rrs, owner, TLSA, w.maxTtl, record.tlsa)
    case CNAME => ShowsHost(rrs, owner, CNAME, w.maxTtl, record.cname)
    case PTR => ShowsHost(rrs, owner, PTR, w.maxTtl, record.ptr)
    case CAA =>
      var found := Caa.FindCAA(zd, record);
      if found.Some? then ShowsSet(rrs, owner, CAA, w.maxTtl, found.value.caa) else rrs == []
    case SOA => rrs == [Soa(zd)]
    case DNSKEY =>
      var zsk, ksk := zd.zone.zsk, zd.zone.ksk;
      rrs == if zd.zone.dnssec then [RR(zsk.owner, DNSKEY, zsk.ttl, Opaque(zsk.text)), RR(ksk.owner, DNSKEY, ksk.ttl, Opaque(ksk.text))]
             else []
    case _ => false
  }

  ghost predicate FinalAnswer(w: World, zd: ZoneData, qtype: RRType, owner: string, record: Record, rcode: Rcode, rrs: seq<RR>) {
    if qtype == A || qtype == AAAA then AddressAnswer(w, qtype, owner, record, rcode, rrs)
    else rcode == NoError && SetAnswer(w, zd, qtype, owner, record, rrs)
  }

  lemma {:induction false} BuildFromShows(owner: string, rrtype: RRType, ttl: nat, data: seq<RData>)
    ensures BuildFrom(owner, rrtype, ttl, data) == Picked(data, d => Shown(owner, rrtype, ttl, d))
  {
    if data == [] {
    } else {
      BuildFromShows(owner, rrtype, ttl, data[1..]);
      PickedCons(data, d => Shown(owner, rrtype, ttl, d));
    }
  }

  lemma {:induction false} BuildShows(owner: string, rrtype: RRType, maxTtl: nat, rrset: RRSet)
    ensures ShowsSet(Build(maxTtl, owner, rrtype, rrset), owner, rrtype, maxTtl, rrset)
  {
    BuildFromShows(owner, rrtype, GetTtl(maxTtl, rrset.ttl), rrset.data);
  }

  lemma {:induction false} BuildIpsShows(owner: string, rrtype: RRType, ttl: nat, ips: seq<Option<string>>)
    ensures ShowsIps(BuildIps(owner, rrtype, ttl, ips), owner, rrtype, ttl, ips)
  {
    if ips == [] {
    } else {
      BuildIpsShows(owner, rrtype, ttl, ips[1..]);
      PickedCons(ips, ip => ShownIp(owner, rrtype, ttl, ip));
    }
  }

  /** For every type: the answer at a record shows what the record, the ANAME or the CAA climb holds. */
  lemma {:induction false} LeafShows(w: World, zd: ZoneData, qtype: RRType, owner: string, record: Record)
    ensures var a := Resolver.LeafAnswer(w, zd, qtype, owner, record);
      && (a.Some? <==> Implemented(qtype))
      && (a.Some? ==> FinalAnswer(w, zd, qtype, owner, record, a.value.rcode, a.value.rrs))
  {
    match qtype
    case A => AddressShows(w, A, owner, record);
    case AAAA => AddressShows(w, AAAA, owner, record);
    case TXT => BuildShows(owner, TXT, w.maxTtl, record.txt);
    case NS => BuildShows(owner, NS, w.maxTtl, record.ns);
    case MX => BuildShows(owner, MX, w.maxTtl, record.mx);
    case SRV => BuildShows(owner, SRV, w.maxTtl, record.srv);
    case TLSA => BuildShows(owner, TLSA, w.maxTtl, record.tlsa);
    case CAA =>
      var found := Caa.FindCAA(zd, record);
      if found.Some? { BuildShows(owner, CAA, w.maxTtl, found.value.caa); }
    case _ =>
  }

  lemma {:induction false} AddressShows(w: World, qtype: RRType, owner: string, record: Record)
    requires qtype == A || qtype == AAAA
    ensures var a := Resolver.AddressAnswer(w, owner, qtype, Aname.SetOf(record, qtype), record);
      AddressAnswer(w, qtype, owner, record, a.rcode, a.rrs)
  {
    var ips := Aname.SetOf(record, qtype);
    if ips.data == [] && record.aname.Some? {
      var found := Aname.FindANAME(w, record.aname.value, qtype);
      BuildIpsShows(owner, qtype, GetTtl(w.maxTtl, found.ttl), found.ips);
    } else {
      BuildIpsShows(owner, qtype, GetTtl(w.maxTtl, ips.ttl), w.select(record.name, ips));
    }
  }

  // ---- Along a path ---------------------------------------------------------------------------

  /** The view hops exactly along these CNAMEs. */
  ghost predicate Agrees(v: View, cname: Cnames) {
    forall n :: AgreesAt(v, cname, n)
  }

  ghost predicate AgreesAt(v: View, cname: Cnames, n: string) {
    if cname(n).None? then !v.step(n).Hop? else v.step(n) == Hop(Followed(cname(n).value))
  }

  function Followed(c: HostRef): Alias {
    Alias(c.host, c.ttl, Fqdn(c.host))
  }

  lemma {:induction false} HopIffStored(w: World, zd: ZoneData, qtype: RRType, name: string)
    ensures var c := CnameAt(w, zd, qtype, name); var step := Resolver.StepAt(w, zd, qtype, name);
      if c.None? then !step.Hop? else step == Hop(Followed(c.value))
  {
  }

  lemma {:induction false} ViewAgrees(w: World, zd: ZoneData, qname: string, qtype: RRType)
    ensures Agrees(Resolver.ViewOf(w, zd, qname, qtype), CnamesOf(w, zd, qtype))
  {
    var v, cname := Resolver.ViewOf(w, zd, qname, qtype), CnamesOf(w, zd, qtype);
    forall n ensures AgreesAt(v, cname, n) { HopIffStored(w, zd, qtype, n); }
  }

  lemma {:induction false} PathTail(cname: Cnames, owned: string -> bool, names: seq<string>)
    requires Path(cname, names) && |names| > 1
    ensures Linked(cname, names[0], names[1])
    ensures Path(cname, names[1..]) && names[1..][0] == names[1] && Last(names[1..]) == Last(names)
    ensures LooksInside(cname, owned, names) ==> Inside(cname, owned, names[0]) && LooksInside(cname, owned, names[1..])
  {
    var rest := names[1..];
    assert forall i :: 0 <= i < |rest| ==> rest[i] == names[i + 1];
    forall i | 0 <= i < |rest| - 1 ensures Linked(cname, rest[i], rest[i + 1]) {
      assert Linked(cname, names[i + 1], names[i + 2]);
    }
    if LooksInside(cname, owned, names) {
      forall i | 0 <= i < |rest| - 1 ensures Inside(cname, owned, rest[i]) { assert Inside(cname, owned, names[i + 1]); }
    }
  }

  /** Without flattening a path is followed to its end, and its CNAMEs are listed on the way. */
  lemma {:induction false} PlainAlong(v: View, cname: Cnames, names: seq<string>, left: nat, acc: seq<RR>)
    requires Agrees(v, cname) && Path(cname, names) && |names| - 1 <= left
    ensures Walk(v, false, names[0], left, Sections(acc, [], [])) ==
            Walk(v, false, Last(names), left - (|names| - 1), Sections(acc + PathRRs(v.maxTtl, cname, names), [], []))
    decreases left
  {
    if |names| == 1 {
      assert acc + PathRRs(v.maxTtl, cname, names) == acc;
    } else {
      PathTail(cname, v.inZone, names);
      PathCons(v.maxTtl, cname, names);
      var rr, rest := AliasRR(v.maxTtl, names[0], cname(names[0]).value), PathRRs(v.maxTtl, cname, names[1..]);
      PlainHop(v, cname, names[0], left, acc);
      PlainAlong(v, cname, names[1..], left - 1, acc + [rr]);
      Associates(acc, [rr], rest);
    }
  }

  lemma {:induction false} PlainHop(v: View, cname: Cnames, name: string, left: nat, acc: seq<RR>)
    requires Agrees(v, cname) && cname(name).Some? && left > 0
    ensures var c := cname(name).value;
      Walk(v, false, name, left, Sections(acc, [], [])) ==
      Walk(v, false, Fqdn(c.host), left - 1, Sections(acc + [AliasRR(v.maxTtl, name, c)], [], []))
  {
    assert AgreesAt(v, cname, name);
    WalkHops(v, name, left, Sections(acc, [], []), Followed(cname(name).value));
  }

  lemma {:induction false} PathCons(maxTtl: nat, cname: Cnames, names: seq<string>)
    requires Path(cname, names) && |names| > 1 && Path(cname, names[1..])
    ensures Linked(cname, names[0], names[1])
    ensures PathRRs(maxTtl, cname, names) ==
            [AliasRR(maxTtl, names[0], cname(names[0]).value)] + PathRRs(maxTtl, cname, names[1..])
  {
    assert forall i :: 0 <= i < |names| - 1 ==> names[1..][i] == names[i + 1];
  }

  /** With flattening it is followed in silence, as long as the stored hosts look in-zone. */
  lemma {:induction false} FlatAlong(v: View, cname: Cnames, names: seq<string>, left: nat)
    requires Agrees(v, cname) && Path(cname, names) && LooksInside(cname, v.inZone, names) && |names| - 1 <= left
    ensures Walk(v, true, names[0], left, FRESH) == Walk(v, true, Last(names), left - (|names| - 1), FRESH)
    decreases left
  {
    if |names| == 1 {
    } else {
      PathTail(cname, v.inZone, names);
      assert AgreesAt(v, cname, names[0]);
      FlatHops(v, names[0], left, Followed(cname(names[0]).value));
      FlatAlong(v, cname, names[1..], left - 1);
    }
  }

  /** Every request has its path: to a name without an alias, or through all rounds. */
  lemma {:induction false} PathExists(cname: Cnames, name: string, left: nat) returns (names: seq<string>)
    ensures Path(cname, names) && names[0] == name && |names| <= left + 1
    ensures |names| <= left ==> cname(Last(names)).None?
    decreases left
  {
    if left == 0 || cname(name).None? {
      names := [name];
    } else {
      var rest := PathExists(cname, Fqdn(cname(name).value.host), left - 1);
      names := [name] + rest;
      forall i | 0 <= i < |names| - 1 ensures Linked(cname, names[i], names[i + 1]) {
        if i > 0 { assert Linked(cname, rest[i - 1], rest[i]); }
      }
    }
  }

  /** The part of a path before the first stored host that looks out of the zone. */
  lemma {:induction false} FirstExit(cname: Cnames, owned: string -> bool, names: seq<string>) returns (short: seq<string>)
    requires Path(cname, names) && !LooksInside(cname, owned, names)
    ensures short != [] && |short| < |names| && short[0] == names[0]
    ensures Path(cname, short) && LooksInside(cname, owned, short)
    ensures cname(Last(short)).Some? && !Inside(cname, owned, Last(short))
    decreases |names|
  {
    var i :| 0 <= i < |names| - 1 && !Inside(cname, owned, names[i]);
    var prefix := names[..i + 1];
    forall j | 0 <= j < i ensures Linked(cname, prefix[j], prefix[j + 1]) { assert Linked(cname, names[j], names[j + 1]); }
    assert Linked(cname, names[i], names[i + 1]);
    if LooksInside(cname, owned, prefix) { short := prefix; } else { short := FirstExit(cname, owned, prefix); }
  }

  // ---- The response ---------------------------------------------------------------------------

  /** A delegation below the apex. */
  predicate Delegates(zd: ZoneData, name: string, record: Record) {
    |record.ns.data| > 0 && name != zd.zone.name
  }

  /** How a request that ends at `last` answers, after the CNAMEs in `chain`. */
  ghost predicate EndsAt(w: World, zd: ZoneData, qtype: RRType, owner: string, last: string, chain: seq<RR>, out: Outcome) {
    var s, stored := out.sections, StoredAt(w, zd, last);
    if !Owned(w, zd, last) then out == Outcome(NoError, Sections(chain, [], []))
    else if !Matched(zd, last) then out == Outcome(NXDomain, Sections(chain, [Soa(zd)], []))
    else if stored.None? then out == Outcome(ServFail, Sections(chain, [], []))
    else if Delegates(zd, last, stored.value) then
      && out.rcode == NoError && s.answer == chain
      && ShowsSet(s.authority, last, NS, w.maxTtl, stored.value.ns)
      && s.additional == Resolver.Glue(w, zd, stored.value.ns.data)
    else if !Implemented(qtype) then out == Outcome(NotImp, Sections([], [Soa(zd)], []))
    else
      && chain <= s.answer && FinalAnswer(w, zd, qtype, owner, stored.value, out.rcode, s.answer[|chain|..])
      && s.authority == (if s.answer == chain && out.rcode == NoError then [Soa(zd)] else []) && s.additional == []
  }

  /** What the loop finds at a name that is not an alias. */
  lemma {:induction false} StepMeaning(w: World, zd: ZoneData, qtype: RRType, name: string)
    requires CnameAt(w, zd, qtype, name).None?
    ensures var stored := StoredAt(w, zd, name);
      Resolver.StepAt(w, zd, qtype, name) ==
        if !Owned(w, zd, name) then Leave
        else if !Matched(zd, name) then Missing
        else if stored.None? then Broken
        else if Delegates(zd, name, stored.value) then Cut(stored.value)
        else Leaf(stored.value)
  {
  }

  lemma {:induction false} LeafMeaning(v: View, flat: bool, name: string, record: Record, chain: seq<RR>)
    requires v.step(name) == Leaf(record)
    ensures var a := v.leaf(if flat then v.qname else name, record);
      Stop(v, flat, name, Sections(chain, [], [])) ==
        if a.None? then Outcome(NotImp, Sections([], [v.soa], []))
        else Outcome(a.value.rcode,
                     Sections(chain + a.value.rrs, if a.value.rrs == [] && a.value.rcode == NoError then [v.soa] else [], []))
  {
  }

  lemma {:induction false} CutMeaning(v: View, flat: bool, name: string, record: Record, chain: seq<RR>)
    requires v.step(name) == Cut(record)
    ensures Stop(v, flat, name, Sections(chain, [], [])) ==
            Outcome(NoError, Sections(chain, Build(v.maxTtl, name, NS, record.ns), v.glue(record)))
  {
    assert [] + Build(v.maxTtl, name, NS, record.ns) == Build(v.maxTtl, name, NS, record.ns);
    assert [] + v.glue(record) == v.glue(record);
  }

  lemma {:induction false} StopMeaning(w: World, zd: ZoneData, qname: string, qtype: RRType, flat: bool, last: string,
                                       left: nat, chain: seq<RR>)
    requires CnameAt(w, zd, qtype, last).None? && left > 0
    ensures EndsAt(w, zd, qtype, if flat then qname else last, last, chain,
                   Walk(Resolver.ViewOf(w, zd, qname, qtype), flat, last, left, Sections(chain, [], [])))
  {
    var v, owner := Resolver.ViewOf(w, zd, qname, qtype), if flat then qname else last;
    StepMeaning(w, zd, qtype, last);
    WalkStops(v, flat, last, left, Sections(chain, [], []));
    match v.step(last)
    case Cut(record) =>
      CutMeaning(v, flat, last, record, chain);
      BuildShows(last, NS, w.maxTtl, record.ns);
    case Leaf(record) =>
      LeafMeaning(v, flat, last, record, chain);
      LeafShows(w, zd, qtype, owner, record);
      AfterChain(chain, v.leaf(owner, record));
    case _ =>
  }

  lemma {:induction false} AfterChain(chain: seq<RR>, a: Option<Answered>)
    ensures a.Some? ==>
      var all := chain + a.value.rrs; chain <= all && all[|chain|..] == a.value.rrs && (all == chain <==> a.value.rrs == [])
  {
    if a.Some? && a.value.rrs != [] { assert |chain + a.value.rrs| > |chain|; }
  }

  /** The request follows this path to its end. */
  ghost predicate Complete(cname: Cnames, qname: string, names: seq<string>) {
    Path(cname, names) && names[0] == qname && |names| <= ROUNDS && cname(Last(names)).None?
  }

  /** Without flattening: the CNAMEs of the path, then what stands at its end; SERVFAIL alone after eleven aliases. */
  lemma {:induction false} PlainResponse(w: World, zd: ZoneData, qname: string, qtype: RRType, names: seq<string>)
    requires Path(CnamesOf(w, zd, qtype), names) && names[0] == qname && |names| <= ROUNDS + 1
    ensures Complete(CnamesOf(w, zd, qtype), qname, names) ==>
      EndsAt(w, zd, qtype, Last(names), Last(names), PathRRs(w.maxTtl, CnamesOf(w, zd, qtype), names), Resolver.Resolve(w, zd, qname, qtype, false))
    ensures |names| == ROUNDS + 1 ==> Resolver.Resolve(w, zd, qname, qtype, false) == Outcome(ServFail, FRESH)
  {
    ViewAgrees(w, zd, qname, qtype);
    var chain := PathRRs(w.maxTtl, CnamesOf(w, zd, qtype), names);
    PlainAlong(Resolver.ViewOf(w, zd, qname, qtype), CnamesOf(w, zd, qtype), names, ROUNDS, []);
    assert [] + chain == chain;
    if Complete(CnamesOf(w, zd, qtype), qname, names) {
      StopMeaning(w, zd, qname, qtype, false, Last(names), ROUNDS - (|names| - 1), chain);
    }
  }

  /** With flattening, while the stored hosts look in-zone: no CNAMEs, and answers owned by the queried name. */
  lemma {:induction false} FlatResponse(w: World, zd: ZoneData, qname: string, qtype: RRType, names: seq<string>)
    requires Path(CnamesOf(w, zd, qtype), names) && LooksInside(CnamesOf(w, zd, qtype), OwnedBy(w, zd), names)
    requires names[0] == qname && |names| <= ROUNDS + 1
    ensures Complete(CnamesOf(w, zd, qtype), qname, names) ==>
      EndsAt(w, zd, qtype, qname, Last(names), [], Resolver.Resolve(w, zd, qname, qtype, true))
    ensures |names| == ROUNDS + 1 ==> Resolver.Resolve(w, zd, qname, qtype, true) == Outcome(ServFail, FRESH)
  {
    ViewAgrees(w, zd, qname, qtype);
    SameInside(w, zd, qname, qtype, names);
    FlatAlong(Resolver.ViewOf(w, zd, qname, qtype), CnamesOf(w, zd, qtype), names, ROUNDS);
    if Complete(CnamesOf(w, zd, qtype), qname, names) {
      StopMeaning(w, zd, qname, qtype, true, Last(names), ROUNDS - (|names| - 1), []);
    }
  }

  lemma {:induction false} SameInside(w: World, zd: ZoneData, qname: string, qtype: RRType, names: seq<string>)
    requires LooksInside(CnamesOf(w, zd, qtype), OwnedBy(w, zd), names)
    ensures LooksInside(CnamesOf(w, zd, qtype), Resolver.ViewOf(w, zd, qname, qtype).inZone, names)
  {
    var cname, owned, inZone := CnamesOf(w, zd, qtype), OwnedBy(w, zd), Resolver.ViewOf(w, zd, qname, qtype).inZone;
    forall i | 0 <= i < |names| - 1 ensures Inside(cname, inZone, names[i]) { assert Inside(cname, owned, names[i]); }
  }

  /** With flattening, at the first stored host that looks out of the zone: that CNAME alone, under the queried name. */
  lemma {:induction false} FlatExit(w: World, zd: ZoneData, qname: string, qtype: RRType, names: seq<string>)
    requires Path(CnamesOf(w, zd, qtype), names) && LooksInside(CnamesOf(w, zd, qtype), OwnedBy(w, zd), names)
    requires names[0] == qname && |names| <= ROUNDS
    requires var c := CnameAt(w, zd, qtype, Last(names)); c.Some? && !Owned(w, zd, c.value.host)
    ensures Resolver.Resolve(w, zd, qname, qtype, true) ==
            Outcome(NoError, Sections([AliasRR(w.maxTtl, qname, CnameAt(w, zd, qtype, Last(names)).value)], [], []))
  {
    ViewAgrees(w, zd, qname, qtype);
    SameInside(w, zd, qname, qtype, names);
    FlatAlong(Resolver.ViewOf(w, zd, qname, qtype), CnamesOf(w, zd, qtype), names, ROUNDS);
    HopIffStored(w, zd, qtype, Last(names));
    ExitRound(Resolver.ViewOf(w, zd, qname, qtype), Last(names), ROUNDS - (|names| - 1));
  }

  lemma {:induction false} ExitRound(v: View, name: string, left: nat)
    requires left > 0 && v.step(name).Hop? && !v.inZone(v.step(name).alias.host)
    ensures Walk(v, true, name, left, FRESH) == Outcome(NoError, Sections([CnameRR(v, v.qname, v.step(name).alias)], [], []))
  {
    var rr := CnameRR(v, v.qname, v.step(name).alias);
    assert [] + [rr] == [rr];
  }

  // ---- Referrals --------------------------------------------------------------------------------

  /** The request ends at a delegation below the apex. */
  ghost predicate Refers(w: World, zd: ZoneData, qname: string, qtype: RRType, flat: bool, names: seq<string>) {
    && Complete(CnamesOf(w, zd, qtype), qname, names)
    && (flat ==> LooksInside(CnamesOf(w, zd, qtype), OwnedBy(w, zd), names))
    && StoredAt(w, zd, Last(names)).Some? && Delegates(zd, Last(names), StoredAt(w, zd, Last(names)).value)
  }

  /** A delegation is answered with its NS set and glue, after the chain. */
  lemma {:induction false} ReferralIsGiven(w: World, zd: ZoneData, qname: string, qtype: RRType, flat: bool, names: seq<string>)
    requires Refers(w, zd, qname, qtype, flat, names)
    ensures var out, ns := Resolver.Resolve(w, zd, qname, qtype, flat), StoredAt(w, zd, Last(names)).value.ns;
      && out.rcode == NoError && ShowsSet(out.sections.authority, Last(names), NS, w.maxTtl, ns)
      && out.sections.additional == Resolver.Glue(w, zd, ns.data)
      && out.sections.answer == if flat then [] else PathRRs(w.maxTtl, CnamesOf(w, zd, qtype), names)
  {
    if flat {
      FlatResponse(w, zd, qname, qtype, names);
    } else {
      PlainResponse(w, zd, qname, qtype, names);
    }
  }

  /** NS records stand in the authority only then. */
  lemma {:induction false} NsOnlyInReferrals(w: World, zd: ZoneData, qname: string, qtype: RRType, flat: bool, i: nat)
    returns (names: seq<string>)
    requires i < |Resolver.Resolve(w, zd, qname, qtype, flat).sections.authority|
    requires Resolver.Resolve(w, zd, qname, qtype, flat).sections.authority[i].rrtype == NS
    ensures Refers(w, zd, qname, qtype, flat, names)
  {
    var cname, owned := CnamesOf(w, zd, qtype), OwnedBy(w, zd);
    names := PathExists(cname, qname, ROUNDS);
    if !flat {
      PlainResponse(w, zd, qname, qtype, names);
    } else if LooksInside(cname, owned, names) {
      FlatResponse(w, zd, qname, qtype, names);
    } else {
      var short := FirstExit(cname, owned, names);
      FlatExit(w, zd, qname, qtype, short);
    }
  }

  /** The aliases of the chain theorems are the stored CNAMEs, all of them and nothing else. */
  lemma {:induction false} AliasesAreStored(w: World, zd: ZoneData, qname: string, qtype: RRType, i: nat)
    requires i <= |Resolver.Aliases(w, zd, qname, qtype)|
    ensures var t := Resolver.Aliases(w, zd, qname, qtype); var c := CnameAt(w, zd, qtype, NameAt(qname, t, i));
      && (i < |t| ==> c.Some? && t[i] == Followed(c.value))
      && (i == |t| < ROUNDS ==> c.None?)
  {
    var v, t := Resolver.ViewOf(w, zd, qname, qtype), Resolver.Aliases(w, zd, qname, qtype);
    TrailSteps(v, qname, ROUNDS, i);
    HopIffStored(w, zd, qtype, NameAt(qname, t, i));
  }

  // ---- Glue ---------------------------------------------------------------------------------------

  /** What this zone knows about a host of the delegation; the zone tree is not asked. */
  ghost predicate ShowsGlue(rrs: seq<RR>, w: World, zd: ZoneData, host: string) {
    var location := Locations.FindLocation(zd.zone.name, zd.zone.locations, host).0;
    if !Matched(zd, host) || location !in zd.records then rrs == []
    else ShowsAddresses(rrs, w, host, zd.records[location])
  }

  /** First the selected A addresses of the record, then the selected AAAA addresses. */
  ghost predicate ShowsAddresses(rrs: seq<RR>, w: World, owner: string, r: Record) {
    exists k :: 0 <= k <= |rrs|
      && ShowsIps(rrs[..k], owner, A, GetTtl(w.maxTtl, r.a.ttl), w.select(r.name, r.a))
      && ShowsIps(rrs[k..], owner, AAAA, GetTtl(w.maxTtl, r.aaaa.ttl), w.select(r.name, r.aaaa))
  }

  lemma {:induction false} GlueConcat(w: World, zd: ZoneData, a: seq<RData>, b: seq<RData>)
    ensures Resolver.Glue(w, zd, a + b) == Resolver.Glue(w, zd, a) + Resolver.Glue(w, zd, b)
  {
    if b == [] {
      assert a + b == a;
    } else {
      var n := |b| - 1;
      var init, last := b[..n], b[n];
      assert b == init + [last] && a + b == (a + init) + [last];
      GlueConcat(w, zd, a, init);
      GlueSnoc(w, zd, init, last);
      GlueSnoc(w, zd, a + init, last);
      Associates(Resolver.Glue(w, zd, a), Resolver.Glue(w, zd, init), GlueOf(w, zd, last));
    }
  }

  ghost function GlueOf(w: World, zd: ZoneData, d: RData): seq<RR> {
    if d.Target? then Resolver.GlueFor(w, zd, d.host) else []
  }

  lemma {:induction false} GlueSnoc(w: World, zd: ZoneData, ns: seq<RData>, d: RData)
    ensures Resolver.Glue(w, zd, ns + [d]) == Resolver.Glue(w, zd, ns) + GlueOf(w, zd, d)
  {
    assert (ns + [d])[..|ns|] == ns;
  }

  lemma {:induction false} GlueShows(w: World, zd: ZoneData, host: string)
    ensures ShowsGlue(Resolver.GlueFor(w, zd, host), w, zd, host)
  {
    var location := Locations.FindLocation(zd.zone.name, zd.zone.locations, host).0;
    if Matched(zd, host) && location in zd.records {
      var r := zd.records[location];
      var ttl, ttl' := GetTtl(w.maxTtl, r.a.ttl), GetTtl(w.maxTtl, r.aaaa.ttl);
      AddressesShow(w, host, r, BuildIps(host, A, ttl, w.select(r.name, r.a)), BuildIps(host, AAAA, ttl', w.select(r.name, r.aaaa)));
    }
  }

  lemma {:induction false} AddressesShow(w: World, owner: string, r: Record, a: seq<RR>, b: seq<RR>)
    requires a == BuildIps(owner, A, GetTtl(w.maxTtl, r.a.ttl), w.select(r.name, r.a))
    requires b == BuildIps(owner, AAAA, GetTtl(w.maxTtl, r.aaaa.ttl), w.select(r.name, r.aaaa))
    ensures ShowsAddresses(a + b, w, owner, r)
  {
    BuildIpsShows(owner, A, GetTtl(w.maxTtl, r.a.ttl), w.select(r.name, r.a));
    BuildIpsShows(owner, AAAA, GetTtl(w.maxTtl, r.aaaa.ttl), w.select(r.name, r.aaaa));
    assert (a + b)[..|a|] == a && (a + b)[|a|..] == b;
  }

  /** The glue of a delegation is that of its hosts, one after the other: nothing is missing and nothing is added. */
  lemma {:induction false} GlueIsComplete(w: World, zd: ZoneData, ns: seq<RData>, i: nat) returns (part: seq<RR>)
    requires i < |ns|
    ensures Resolver.Glue(w, zd, ns) == Resolver.Glue(w, zd, ns[..i]) + part + Resolver.Glue(w, zd, ns[i + 1..])
    ensures if ns[i].Target? then ShowsGlue(part, w, zd, ns[i].host) else part == []
  {
    var front, tail := ns[..i], ns[i + 1..];
    assert ns == (front + [ns[i]]) + tail;
    GlueConcat(w, zd, front + [ns[i]], tail);
    GlueConcat(w, zd, front, [ns[i]]);
    part := Resolver.Glue(w, zd, [ns[i]]);
    GlueSnoc(w, zd, [], ns[i]);
    assert [] + [ns[i]] == [ns[i]] && [] + GlueOf(w, zd, ns[i]) == GlueOf(w, zd, ns[i]);
    if ns[i].Target? { GlueShows(w, zd, ns[i].host); }
  }

  // ---- Signed denials --------------------------------------------------------------------------------

  /** Only the SOA and NS records. */
  ghost predicate SoaOrNs(rrs: seq<RR>) {
    forall i :: 0 <= i < |rrs| ==> rrs[i].rrtype == SOA || rrs[i].rrtype == NS
  }

  lemma {:induction false} EndAuthority(w: World, zd: ZoneData, qtype: RRType, owner: string, last: string, chain: seq<RR>, out: Outcome)
    requires EndsAt(w, zd, qtype, owner, last, chain, out)
    ensures SoaOrNs(out.sections.authority)
  {
    var stored := StoredAt(w, zd, last);
    if stored.Some? { BuildShows(last, NS, w.maxTtl, stored.value.ns); }
  }

  /** Without signing, authority sections hold nothing but the SOA or NS records. */
  lemma {:induction false} AuthorityTypes(w: World, zd: ZoneData, qname: string, qtype: RRType, flat: bool)
    ensures SoaOrNs(Resolver.Resolve(w, zd, qname, qtype, flat).sections.authority)
  {
    var cname, owned, out := CnamesOf(w, zd, qtype), OwnedBy(w, zd), Resolver.Resolve(w, zd, qname, qtype, flat);
    var names := PathExists(cname, qname, ROUNDS);
    if !flat {
      PlainResponse(w, zd, qname, qtype, names);
      if Complete(cname, qname, names) {
        EndAuthority(w, zd, qtype, Last(names), Last(names), PathRRs(w.maxTtl, cname, names), out);
      }
    } else if LooksInside(cname, owned, names) {
      FlatResponse(w, zd, qname, qtype, names);
      if Complete(cname, qname, names) { EndAuthority(w, zd, qtype, qname, Last(names), [], out); }
    } else {
      var short := FirstExit(cname, owned, names);
      FlatExit(w, zd, qname, qtype, short);
    }
  }

  predicate Denial(out: Outcome) {
    out.rcode == NXDomain || (out.rcode == NoError && |out.sections.answer| == 0)
  }

  lemma {:induction false} NoGroup(rrs: seq<RR>, k: DnsSec.SetKey)
    requires forall i :: 0 <= i < |rrs| ==> rrs[i].rrtype != k.1
    ensures DnsSec.Group(rrs, k) == []
  {
    if rrs == [] {
    } else {
      NoGroup(rrs[..|rrs| - 1], k);
    }
  }

  lemma {:induction false} GroupOfOne(rr: RR, k: DnsSec.SetKey)
    ensures DnsSec.Group([rr], k) == if DnsSec.Signable(rr) && DnsSec.KeyOf(rr) == k then [rr] else []
  {
    assert [rr][..0] == [];
  }

  /** A signed denial holds one NSEC for the queried name, and no other signed response does; all other sets are kept. */
  lemma {:induction false} DenialIsProved(w: World, zd: ZoneData, qname: string, qtype: RRType, flat: bool, signer: DnsSec.Signer,
                                          authority: seq<RR>, k: DnsSec.SetKey)
    requires DnsSec.MakesSignatures(signer)
    requires Resolver.SignedFrom(authority, Resolver.Denied(zd.zone, qname, Resolver.Resolve(w, zd, qname, qtype, flat)), signer)
    ensures var out := Resolver.Resolve(w, zd, qname, qtype, flat);
      && DnsSec.Group(authority, (qname, NSEC)) ==
           (if Denial(out) then [RR(qname, NSEC, zd.zone.minTtl, Records.Target("\\000." + qname))] else [])
      && (k != (qname, NSEC) ==> DnsSec.Group(authority, k) == DnsSec.Group(out.sections.authority, k))
  {
    AuthorityTypes(w, zd, qname, qtype, flat);
    SignedDenial(zd.zone, qname, Resolver.Resolve(w, zd, qname, qtype, flat), signer, authority, k);
    SignedDenial(zd.zone, qname, Resolver.Resolve(w, zd, qname, qtype, flat), signer, authority, (qname, NSEC));
  }

  lemma {:induction false} SignedDenial(zone: Zone, qname: string, out: Outcome, signer: DnsSec.Signer, authority: seq<RR>, k: DnsSec.SetKey)
    requires DnsSec.MakesSignatures(signer) && Resolver.SignedFrom(authority, Resolver.Denied(zone, qname, out), signer)
    requires SoaOrNs(out.sections.authority)
    ensures DnsSec.Group(authority, k) ==
      if k != (qname, NSEC) then DnsSec.Group(out.sections.authority, k)
      else if Denial(out) then [RR(qname, NSEC, zone.minTtl, Records.Target("\\000." + qname))]
      else []
  {
    var rrs, before := out.sections.authority, Resolver.Denied(zone, qname, out);
    var order :| DnsSec.OrderOf(order, before) && authority == DnsSec.Assemble(before, order, signer);
    DnsSec.SignKeepsSets(before, order, signer, k);
    DenialAdds(rrs, RR(qname, NSEC, zone.minTtl, Records.Target("\\000." + qname)), k);
    if k.1 == NSEC { NoGroup(rrs, k); }
  }

  lemma {:induction false} DenialAdds(authority: seq<RR>, nsec: RR, k: DnsSec.SetKey)
    requires nsec.rrtype == NSEC
    ensures DnsSec.Group(authority + [nsec], k) == DnsSec.Group(authority, k) + if k == (nsec.name, NSEC) then [nsec] else []
  {
    DnsSec.GroupConcat(authority, [nsec], k);
    GroupOfOne(nsec, k);
  }
}
