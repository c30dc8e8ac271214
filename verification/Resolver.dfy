/** HandleRequest of handler/handler.go over a concrete world: zones, records, selection, signing. */
module Resolver {
  import opened Names
  import opened Records
  import opened World
  import opened Walks
  import opened Flattening
  import ZoneIndex
  import Locations
  import Aname
  import Caa
  import DnsSec
  import Nsec

  function Owner(w: World, name: string): string {
    ZoneIndex.FindZone(w.zones, name)
  }

  function StepAt(w: World, zd: ZoneData, qtype: RRType, name: string): Step {
    if Owner(w, name) != zd.zone.name then Leave
    else
      var (location, m) := Locations.FindLocation(zd.zone.name, zd.zone.locations, name);
      if m == Locations.NoMatch then Missing
      else if location !in zd.records then Broken
      else
        var record := zd.records[location];
        if record.cname.Some? && qtype != CNAME then
          Hop(Alias(record.cname.value.host, record.cname.value.ttl, Fqdn(record.cname.value.host)))
        else if |record.ns.data| > 0 && name != zd.zone.name then Cut(record)
        else Leaf(record)
  }

  function AddressAnswer(w: World, owner: string, qtype: RRType, ips: IpSet, record: Record): Answered {
    if ips.data == [] && record.aname.Some? then
      var found := Aname.FindANAME(w, record.aname.value, qtype);
      Answered(BuildIps(owner, qtype, GetTtl(w.maxTtl, found.ttl), found.ips), found.rcode)
    else
      Answered(BuildIps(owner, qtype, GetTtl(w.maxTtl, ips.ttl), w.select(record.name, ips)), NoError)
  }

  function CaaAnswer(w: World, zd: ZoneData, owner: string, record: Record): seq<RR> {
    var found := Caa.FindCAA(zd, record);
    if found.Some? then Build(w.maxTtl, owner, CAA, found.value.caa) else []
  }

  function LeafAnswer(w: World, zd: ZoneData, qtype: RRType, owner: string, record: Record): Option<Answered> {
    match qtype
    case A => Some(AddressAnswer(w, owner, A, record.a, record))
    case AAAA => Some(AddressAnswer(w, owner, AAAA, record.aaaa, record))
    case CNAME => Some(Answered(BuildHost(w.maxTtl, owner, CNAME, record.cname), NoError))
    case TXT => Some(Answered(Build(w.maxTtl, owner, TXT, record.txt), NoError))
    case NS => Some(Answered(Build(w.maxTtl, owner, NS, record.ns), NoError))
    case MX => Some(Answered(Build(w.maxTtl, owner, MX, record.mx), NoError))
    case SRV => Some(Answered(Build(w.maxTtl, owner, SRV, record.srv), NoError))
    case CAA => Some(Answered(CaaAnswer(w, zd, owner, record), NoError))
    case PTR => Some(Answered(BuildHost(w.maxTtl, owner, PTR, record.ptr), NoError))
    case TLSA => Some(Answered(Build(w.maxTtl, owner, TLSA, record.tlsa), NoError))
    case SOA => Some(Answered([SoaRR(zd.zone)], NoError))
    case DNSKEY => Some(Answered(if zd.zone.dnssec then [KeyRR(zd.zone.zsk), KeyRR(zd.zone.ksk)] else [], NoError))
    case _ => None
  }

  /** Addresses of the delegation's hosts, as far as this zone knows them. */
  function GlueFor(w: World, zd: ZoneData, host: string): seq<RR> {
    var (location, m) := Locations.FindLocation(zd.zone.name, zd.zone.locations, host);
    if m == Locations.NoMatch || location !in zd.records then []
    else
      var r := zd.records[location];
      BuildIps(host, A, GetTtl(w.maxTtl, r.a.ttl), w.select(r.name, r.a))
      + BuildIps(host, AAAA, GetTtl(w.maxTtl, r.aaaa.ttl), w.select(r.name, r.aaaa))
  }

  function Glue(w: World, zd: ZoneData, ns: seq<RData>): seq<RR> {
    if ns == [] then []
    else Glue(w, zd, ns[..|ns| - 1])
         + (if ns[|ns| - 1].Target? then GlueFor(w, zd, ns[|ns| - 1].host) else [])
  }

  /** An address record for one of the delegation's hosts. */
  ghost predicate GlueRecord(rr: RR, ns: seq<RData>) {
    (rr.rrtype == A || rr.rrtype == AAAA) && rr.data.Address? && Target(rr.name) in ns
  }

  lemma {:induction false} BuildIpsAddress(name: string, rrtype: RRType, ttl: nat, ips: seq<Option<string>>, i: nat)
    requires i < |BuildIps(name, rrtype, ttl, ips)|
    ensures var rr := BuildIps(name, rrtype, ttl, ips)[i];
      rr.name == name && rr.rrtype == rrtype && rr.data.Address? && Some(rr.data.ip) in ips
  {
    if ips == [] {
    } else {
      var rest := BuildIps(name, rrtype, ttl, ips[1..]);
      var k := |BuildIps(name, rrtype, ttl, ips)| - |rest|;
      if i >= k { BuildIpsAddress(name, rrtype, ttl, ips[1..], i - k); }
    }
  }

  /** Glue for a host: its own A and AAAA addresses, selected from one record of this zone. */
  lemma {:induction false} GlueForHost(w: World, zd: ZoneData, host: string, i: nat) returns (location: string)
    requires i < |GlueFor(w, zd, host)|
    ensures var rr := GlueFor(w, zd, host)[i];
      && rr.name == host && (rr.rrtype == A || rr.rrtype == AAAA) && rr.data.Address?
      && location in zd.records
      && var r := zd.records[location]; Some(rr.data.ip) in w.select(r.name, Aname.SetOf(r, rr.rrtype))
  {
    location := Locations.FindLocation(zd.zone.name, zd.zone.locations, host).0;
    var r := zd.records[location];
    var a := BuildIps(host, A, GetTtl(w.maxTtl, r.a.ttl), w.select(r.name, r.a));
    if i < |a| {
      BuildIpsAddress(host, A, GetTtl(w.maxTtl, r.a.ttl), w.select(r.name, r.a), i);
    } else {
      BuildIpsAddress(host, AAAA, GetTtl(w.maxTtl, r.aaaa.ttl), w.select(r.name, r.aaaa), i - |a|);
    }
  }

  /** Every glue record is an address that one listed host selects from this zone. */
  lemma {:induction false} GlueContents(w: World, zd: ZoneData, ns: seq<RData>, i: nat) returns (location: string)
    requires i < |Glue(w, zd, ns)|
    ensures var rr := Glue(w, zd, ns)[i];
      && GlueRecord(rr, ns)
      && location in zd.records
      && var r := zd.records[location]; Some(rr.data.ip) in w.select(r.name, Aname.SetOf(r, rr.rrtype))
  {
    var n := |ns| - 1;
    var init, last := ns[..n], ns[n];
    var before := Glue(w, zd, init);
    GlueStep(w, zd, ns, i);
    if i < |before| {
      location := GlueContents(w, zd, init, i);
    } else {
      location := GlueForHost(w, zd, last.host, i - |before|);
    }
  }

  lemma {:induction false} GlueStep(w: World, zd: ZoneData, ns: seq<RData>, i: nat)
    requires i < |Glue(w, zd, ns)|
    ensures ns != []
    ensures var before, last, rr := Glue(w, zd, ns[..|ns| - 1]), ns[|ns| - 1], Glue(w, zd, ns)[i];
      if i < |before| then rr == before[i]
      else last.Target? && i - |before| < |GlueFor(w, zd, last.host)| && rr == GlueFor(w, zd, last.host)[i - |before|]
  {
    var before, last := Glue(w, zd, ns[..|ns| - 1]), ns[|ns| - 1];
    var part := if last.Target? then GlueFor(w, zd, last.host) else [];
    assert Glue(w, zd, ns) == before + part;
  }

  method GlueLoop(w: World, zd: ZoneData, ns: seq<RData>) returns (additional: seq<RR>)
    ensures additional == Glue(w, zd, ns)
    ensures forall i :: 0 <= i < |additional| ==> GlueRecord(additional[i], ns)
  {
    additional := [];
    for i := 0 to |ns|
      invariant additional == Glue(w, zd, ns[..i])
    {
      assert ns[..i + 1][..i] == ns[..i];
      if ns[i].Target? { additional := additional + GlueFor(w, zd, ns[i].host); }
    }
    assert ns[..|ns|] == ns;
    forall i | 0 <= i < |additional| ensures GlueRecord(additional[i], ns) {
      var location := GlueContents(w, zd, ns, i);
    }
  }

  function ViewOf(w: World, zd: ZoneData, qname: string, qtype: RRType): View {
    View(qname, qtype, SoaRR(zd.zone), w.maxTtl,
         name => StepAt(w, zd, qtype, name),
         name => Owner(w, name) == zd.zone.name,
         (owner, record) => LeafAnswer(w, zd, qtype, owner, record),
         (record: Record) => Glue(w, zd, record.ns.data))
  }

  // ---- The view is lawful ------------------------------------------------------------

  lemma {:induction false} AddressRenamed(w: World, owner: string, owner': string, qtype: RRType, ips: IpSet, record: Record)
    requires qtype == A || qtype == AAAA
    ensures var a, b := AddressAnswer(w, owner, qtype, ips, record), AddressAnswer(w, owner', qtype, ips, record);
      && b == Answered(RenamedAll(owner', a.rrs), a.rcode)
      && (forall i :: 0 <= i < |a.rrs| ==> a.rrs[i].rrtype == qtype)
      && (a.rcode != NoError ==> a.rrs == [] && a.rcode == ServFail)
  {
    if ips.data == [] && record.aname.Some? {
      var found := Aname.FindANAME(w, record.aname.value, qtype);
      Aname.FailureIsEmpty(w, record.aname.value, qtype);
      BuildIpsRenamed(owner, owner', qtype, GetTtl(w.maxTtl, found.ttl), found.ips);
    } else {
      BuildIpsRenamed(owner, owner', qtype, GetTtl(w.maxTtl, ips.ttl), w.select(record.name, ips));
    }
  }

  lemma {:induction false} LeafRenamed(w: World, zd: ZoneData, qtype: RRType, owner: string, owner': string, record: Record)
    ensures var a, b := LeafAnswer(w, zd, qtype, owner, record), LeafAnswer(w, zd, qtype, owner', record);
      && (a.Some? <==> b.Some?)
      && (a.Some? ==>
            && b.value == Answered(RenamedAll(owner', a.value.rrs), a.value.rcode)
            && forall i :: 0 <= i < |a.value.rrs| ==> a.value.rrs[i].rrtype == qtype)
      && (a.Some? && a.value.rcode != NoError ==> a.value.rrs == [] && a.value.rcode == ServFail)
  {
    match qtype
    case A => AddressRenamed(w, owner, owner', A, record.a, record);
    case AAAA => AddressRenamed(w, owner, owner', AAAA, record.aaaa, record);
    case TXT => SetRenamed(w, owner, owner', TXT, record.txt);
    case NS => SetRenamed(w, owner, owner', NS, record.ns);
    case MX => SetRenamed(w, owner, owner', MX, record.mx);
    case SRV => SetRenamed(w, owner, owner', SRV, record.srv);
    case TLSA => SetRenamed(w, owner, owner', TLSA, record.tlsa);
    case CAA =>
      var found := Caa.FindCAA(zd, record);
      if found.Some? { SetRenamed(w, owner, owner', CAA, found.value.caa); } else { RenamedNothing(owner'); }
    case _ => RenamedNothing(owner');
  }

  lemma {:induction false} RenamedNothing(q: string)
    ensures RenamedAll(q, []) == []
  {
  }

  lemma {:induction false} SetRenamed(w: World, owner: string, owner': string, rrtype: RRType, rrset: RRSet)
    requires rrtype != SOA && rrtype != DNSKEY
    ensures Build(w.maxTtl, owner', rrtype, rrset) == RenamedAll(owner', Build(w.maxTtl, owner, rrtype, rrset))
  {
    BuildRenamed(owner, owner', rrtype, GetTtl(w.maxTtl, rrset.ttl), rrset.data);
  }

  lemma {:induction false} StepLaws(w: World, zd: ZoneData, qtype: RRType, name: string)
    ensures StepAt(w, zd, qtype, name).Leave? <==> Owner(w, name) != zd.zone.name
    ensures qtype == CNAME ==> !StepAt(w, zd, qtype, name).Hop?
    ensures StepAt(w, zd, qtype, name).Hop? ==>
      StepAt(w, zd, qtype, name).alias.next == Fqdn(StepAt(w, zd, qtype, name).alias.host)
    ensures StepAt(w, zd, qtype, name).Missing? <==>
      Owner(w, name) == zd.zone.name
      && Locations.FindLocation(zd.zone.name, zd.zone.locations, name).1 == Locations.NoMatch
    ensures StepAt(w, zd, qtype, name).Cut? ==>
      name != zd.zone.name && (StepAt(w, zd, qtype, name).record.cname.None? || qtype == CNAME)
  {
  }

  lemma {:induction false} ViewIsLawful(w: World, zd: ZoneData, qname: string, qtype: RRType)
    ensures Lawful(ViewOf(w, zd, qname, qtype))
  {
    var v := ViewOf(w, zd, qname, qtype);
    forall n ensures (v.step(n).Leave? <==> !v.inZone(n)) && (v.qtype == CNAME ==> !v.step(n).Hop?) {
      StepLaws(w, zd, qtype, n);
    }
    forall owner, owner', record ensures LeafLaw(v, owner, owner', record) {
      LeafRenamed(w, zd, qtype, owner, owner', record);
    }
  }

  // ---- The request -------------------------------------------------------------------

  /** One of the section's assemblies under some set order. */
  ghost predicate SignedFrom(out: seq<RR>, rrs: seq<RR>, signer: DnsSec.Signer) {
    exists order :: DnsSec.OrderOf(order, rrs) && out == DnsSec.Assemble(rrs, order, signer)
  }

  /** Authority before signing: an NSEC is added to every denial. */
  function Denied(zone: Zone, qname: string, out: Outcome): seq<RR> {
    if (out.rcode == NoError && out.sections.answer == []) || out.rcode == NXDomain
    then out.sections.authority + [Nsec.NSec(qname, zone.minTtl)]
    else out.sections.authority
  }

  /** `secure` is context.Do() && context.Auth. */
  method HandleRequest(context: RequestContext, w: World, qname: string, qtype: RRType, secure: bool, signer: DnsSec.Signer)
    returns (res: Rcode)
    modifies context
    ensures Owner(w, qname) == "" ==> res == NotAuth && context.Held() == old(context.Held())
    ensures Owner(w, qname) != "" && Owner(w, qname) !in w.data ==> res == ServFail && context.Held() == old(context.Held())
    ensures Owner(w, qname) != "" && Owner(w, qname) in w.data ==>
      var zd := w.data[Owner(w, qname)];
      var out := Walk(ViewOf(w, zd, qname, qtype), zd.zone.flattening, qname, ROUNDS, old(context.Held()));
      if !(secure && zd.zone.dnssec) then Outcome(res, context.Held()) == out
      else
        && res == (if out.rcode == NXDomain then NoError else out.rcode)
        && SignedFrom(context.answer, out.sections.answer, signer)
        && SignedFrom(context.authority, Denied(zd.zone, qname, out), signer)
        && SignedFrom(context.additional, out.sections.additional, signer)
  {
    var zoneName := Owner(w, qname);
    if zoneName == "" { return NotAuth; }
    if zoneName !in w.data { return ServFail; }
    var zd := w.data[zoneName];
    var v := ViewOf(w, zd, qname, qtype);
    res := context.Resolve(v, zd.zone.flattening);
    if secure && zd.zone.dnssec {
      if res == NoError {
        if |context.answer| == 0 { context.authority := context.authority + [Nsec.NSec(qname, zd.zone.minTtl)]; }
      } else if res == NXDomain {
        context.authority := context.authority + [Nsec.NSec(qname, zd.zone.minTtl)];
        res := NoError;
      }
      var answer := DnsSec.Sign(context.answer, signer);
      var authority := DnsSec.Sign(context.authority, signer);
      var additional := DnsSec.Sign(context.additional, signer);
      context.answer, context.authority, context.additional := answer, authority, additional;
    }
  }

  // ---- The main results, for every world -------------------------------------------------

  /** The outcome of the loop for a fresh request, with or without flattening. */
  function Resolve(w: World, zd: ZoneData, qname: string, qtype: RRType, flat: bool): Outcome {
    Walk(ViewOf(w, zd, qname, qtype), flat, qname, ROUNDS, FRESH)
  }

  /** The aliases the request meets. */
  ghost function Aliases(w: World, zd: ZoneData, qname: string, qtype: RRType): seq<Alias> {
    Trail(ViewOf(w, zd, qname, qtype), qname, ROUNDS)
  }

  /** Flattening preserves meaning exactly on chains that are judged right (see Flattening.Preserves). */
  lemma {:induction false} FlatteningPreservesMeaning(w: World, zd: ZoneData, qname: string, qtype: RRType)
    requires Owner(w, qname) == zd.zone.name
    ensures SameMeaning(ViewOf(w, zd, qname, qtype), Resolve(w, zd, qname, qtype, true), Resolve(w, zd, qname, qtype, false))
            <==> Preserves(ViewOf(w, zd, qname, qtype), Aliases(w, zd, qname, qtype))
  {
    ViewIsLawful(w, zd, qname, qtype);
    FlatteningIff(ViewOf(w, zd, qname, qtype));
  }

  lemma {:induction false} AliasIsStored(w: World, zd: ZoneData, qtype: RRType, name: string, left: nat, i: nat)
    requires i < |Trail(ViewOf(w, zd, name, qtype), name, left)|
    ensures var c := Trail(ViewOf(w, zd, name, qtype), name, left)[i]; c.next == Fqdn(c.host)
  {
    var v := ViewOf(w, zd, name, qtype);
    var t := Trail(v, name, left);
    TrailSteps(v, name, left, i);
    StepLaws(w, zd, qtype, NameAt(name, t, i));
  }

  /** With fully qualified hosts and at most ten aliases, the flattened run means the same. */
  lemma {:induction false} QualifiedChainsFlatten(w: World, zd: ZoneData, qname: string, qtype: RRType)
    requires Owner(w, qname) == zd.zone.name && |Aliases(w, zd, qname, qtype)| <= 10
    requires forall i :: 0 <= i < |Aliases(w, zd, qname, qtype)| ==> HasSuffix(Aliases(w, zd, qname, qtype)[i].host, ".")
    ensures SameMeaning(ViewOf(w, zd, qname, qtype), Resolve(w, zd, qname, qtype, true), Resolve(w, zd, qname, qtype, false))
  {
    var t := Aliases(w, zd, qname, qtype);
    forall i | 0 <= i < |t| ensures t[i].host == t[i].next { AliasIsStored(w, zd, qtype, qname, ROUNDS, i); }
    ViewIsLawful(w, zd, qname, qtype);
    FqdnHostsFlatten(ViewOf(w, zd, qname, qtype));
  }

  /** A first alias stored without its trailing dot is answered as if it left the zone. */
  lemma {:induction false} UnqualifiedHostDeparts(w: World, zd: ZoneData, qname: string, qtype: RRType)
    requires Owner(w, qname) == zd.zone.name && StepAt(w, zd, qtype, qname).Hop?
    requires var host := StepAt(w, zd, qtype, qname).alias.host;
      !HasSuffix(host, ".") && Owner(w, host) != zd.zone.name && Owner(w, host + ".") == zd.zone.name
    ensures !SameMeaning(ViewOf(w, zd, qname, qtype), Resolve(w, zd, qname, qtype, true), Resolve(w, zd, qname, qtype, false))
  {
    StepLaws(w, zd, qtype, qname);
    ViewIsLawful(w, zd, qname, qtype);
    MisjudgedAliasShows(ViewOf(w, zd, qname, qtype), StepAt(w, zd, qtype, qname).alias);
  }

  lemma {:induction false} QualifiedZoneTrustsHosts(w: World, zd: ZoneData, qname: string, qtype: RRType)
    requires HasSuffix(zd.zone.name, ".")
    ensures HostsTrusted(ViewOf(w, zd, qname, qtype))
  {
    var v := ViewOf(w, zd, qname, qtype);
    forall n | v.step(n).Hop? && v.inZone(v.step(n).alias.host) ensures v.inZone(v.step(n).alias.next) {
      StepLaws(w, zd, qtype, n);
      OwnedIsQualified(w, v.step(n).alias.host, zd.zone.name);
    }
  }

  lemma {:induction false} OwnedIsQualified(w: World, host: string, zone: string)
    requires HasSuffix(zone, ".") && Owner(w, host) == zone
    ensures HasSuffix(host, ".") && Fqdn(host) == host
  {
    if host != zone {
      Caa.LastOfSuffix(host, "." + zone);
    }
    assert host[|host| - 1..] == [host[|host| - 1]] && zone[|zone| - 1..] == [zone[|zone| - 1]];
  }

  lemma {:induction false} OwnerIsQualified(w: World, qname: string)
    requires HasSuffix(qname, ".") && Owner(w, qname) != ""
    ensures HasSuffix(Owner(w, qname), ".")
  {
    var zone := Owner(w, qname);
    if qname != zone { Caa.LastOfSuffix(qname, "." + zone); }
    assert qname[|qname| - 1..] == [qname[|qname| - 1]] && zone[|zone| - 1..] == [zone[|zone| - 1]];
  }

  /**
   For every fully qualified query and either mode: NXDOMAIN carries exactly the SOA, a success
   has an answer, the SOA or NS records, and it is silent only at a delegation without hosts.
   */
  lemma {:induction false} ResponsesAreProper(w: World, zd: ZoneData, qname: string, qtype: RRType, flat: bool)
    requires HasSuffix(qname, ".") && Owner(w, qname) == zd.zone.name != ""
    ensures NegativeIsProper(ViewOf(w, zd, qname, qtype), Resolve(w, zd, qname, qtype, flat))
    ensures Silent(Resolve(w, zd, qname, qtype, flat)) <==> EndsBlank(ViewOf(w, zd, qname, qtype), flat, qname, ROUNDS)
  {
    OwnerIsQualified(w, qname);
    ViewIsLawful(w, zd, qname, qtype);
    QualifiedZoneTrustsHosts(w, zd, qname, qtype);
    NegativeAnswers(ViewOf(w, zd, qname, qtype), flat, qname, ROUNDS, []);
  }

  /**
   NXDOMAIN is answered exactly when the name at the end of a chain of at most ten aliases is in
   the zone and unmatched and, with flattening, every host on the way looks in-zone.
   */
  lemma {:induction false} NxdomainIff(w: World, zd: ZoneData, qname: string, qtype: RRType, flat: bool)
    ensures var t := Aliases(w, zd, qname, qtype); var last := NameAt(qname, t, |t|);
      Resolve(w, zd, qname, qtype, flat).rcode == NXDomain <==>
        && |t| <= 10 && Owner(w, last) == zd.zone.name
        && Locations.FindLocation(zd.zone.name, zd.zone.locations, last).1 == Locations.NoMatch
        && (flat ==> forall i :: 0 <= i < |t| ==> Owner(w, t[i].host) == zd.zone.name)
  {
    var v, t := ViewOf(w, zd, qname, qtype), Aliases(w, zd, qname, qtype);
    StepLaws(w, zd, qtype, NameAt(qname, t, |t|));
    ViewIsLawful(w, zd, qname, qtype);
    NxdomainAtEnd(v, flat);
  }

  lemma {:induction false} NxdomainAtEnd(v: View, flat: bool)
    requires Lawful(v)
    ensures var t := Trail(v, v.qname, ROUNDS);
      Walk(v, flat, v.qname, ROUNDS, FRESH).rcode == NXDomain <==>
        && |t| <= 10 && v.step(NameAt(v.qname, t, |t|)).Missing?
        && (flat ==> HostsInZone(v, t))
  {
    var t := Trail(v, v.qname, ROUNDS);
    var last := NameAt(v.qname, t, |t|);
    if |t| > 10 {
      ChainTooLong(v, v.qname, ROUNDS, FRESH);
      FlatNeverNxdomain(v, v.qname, ROUNDS);
    } else if flat {
      FlatChainEnds(v, v.qname, ROUNDS);
      NxdomainAtStop(v, flat, last, FRESH);
    } else {
      ChainEnds(v, v.qname, ROUNDS, FRESH);
      NxdomainAtStop(v, flat, last, Listed(v, v.qname, t, FRESH));
    }
  }

  lemma {:induction false} FlatNeverNxdomain(v: View, name: string, left: nat)
    requires |Trail(v, name, left)| == left
    ensures Walk(v, true, name, left, FRESH).rcode != NXDomain
    decreases left
  {
    if left == 0 {
    } else {
      FlatNeverNxdomain(v, v.step(name).alias.next, left - 1);
    }
  }

  lemma {:induction false} NxdomainAtStop(v: View, flat: bool, name: string, s: Sections)
    requires Lawful(v) && !v.step(name).Hop?
    ensures Stop(v, flat, name, s).rcode == NXDomain <==> v.step(name).Missing?
  {
    var owner := if flat then v.qname else name;
    if v.step(name).Leaf? { assert LeafLaw(v, owner, owner, v.step(name).record); }
  }

  /** Address answers list the selected addresses of the asked type, or what the ANAME leads to. */
  lemma {:induction false} AddressesAreSelected(w: World, zd: ZoneData, qtype: RRType, owner: string, record: Record)
    requires qtype == A || qtype == AAAA
    ensures var ips := if qtype == A then record.a else record.aaaa;
      var found := if ips.data == [] && record.aname.Some? then Aname.FindANAME(w, record.aname.value, qtype)
                   else Aname.Addresses(w.select(record.name, ips), NoError, ips.ttl);
      var rrs := LeafAnswer(w, zd, qtype, owner, record).value.rrs;
      && |rrs| == |Present(found.ips)|
      && forall i :: 0 <= i < |rrs| ==>
           rrs[i] == RR(owner, qtype, GetTtl(w.maxTtl, found.ttl), Address(Present(found.ips)[i]))
  {
    var ips := if qtype == A then record.a else record.aaaa;
    var found := if ips.data == [] && record.aname.Some? then Aname.FindANAME(w, record.aname.value, qtype)
                 else Aname.Addresses(w.select(record.name, ips), NoError, ips.ttl);
    BuildIpsContents(owner, qtype, GetTtl(w.maxTtl, found.ttl), found.ips);
  }

  /** A chain of at most ten aliases never gives up; a cyclic one always does, with an empty answer. */
  lemma {:induction false} ChainOutcome(w: World, zd: ZoneData, qname: string, qtype: RRType)
    ensures var v, t := ViewOf(w, zd, qname, qtype), Aliases(w, zd, qname, qtype);
      var last := NameAt(qname, t, |t|);
      if |t| > 10 then Resolve(w, zd, qname, qtype, false) == Outcome(ServFail, FRESH)
      else !v.step(last).Hop? && Resolve(w, zd, qname, qtype, false) == Stop(v, false, last, Listed(v, qname, t, FRESH))
  {
    var v, t := ViewOf(w, zd, qname, qtype), Aliases(w, zd, qname, qtype);
    if |t| > 10 { ChainTooLong(v, qname, ROUNDS, FRESH); } else { ChainEnds(v, qname, ROUNDS, FRESH); }
  }

  /**
   Every chain that runs into a cycle ends in SERVFAIL with an empty answer; with flattening,
   exactly when all hosts on the way look in-zone.
   */
  lemma {:induction false} CyclesFail(w: World, zd: ZoneData, qname: string, qtype: RRType, lead: nat, n: string, period: nat)
    requires var v := ViewOf(w, zd, qname, qtype); period > 0 && Reaches(v, qname, lead, n) && Reaches(v, n, period, n)
    ensures Resolve(w, zd, qname, qtype, false) == Outcome(ServFail, FRESH)
    ensures |Aliases(w, zd, qname, qtype)| == ROUNDS
    ensures Resolve(w, zd, qname, qtype, true) == Outcome(ServFail, FRESH) <==>
      forall i :: 0 <= i < ROUNDS ==> Owner(w, Aliases(w, zd, qname, qtype)[i].host) == zd.zone.name
  {
    var v := ViewOf(w, zd, qname, qtype);
    CycleFillsRounds(v, qname, lead, n, period, ROUNDS);
    ChainTooLong(v, qname, ROUNDS, FRESH);
    FlatChainTooLong(v, qname, ROUNDS);
  }

  /**
   The answer section of every unflattened response reads as one chain from the queried name
   (see Walks.LinkedAnswer), listing all aliases met unless the loop gave up or the type is
   not implemented.
   */
  lemma {:induction false} AnswersAreLinked(w: World, zd: ZoneData, qname: string, qtype: RRType)
    ensures var out, t := Resolve(w, zd, qname, qtype, false), Aliases(w, zd, qname, qtype);
      LinkedAnswer(ViewOf(w, zd, qname, qtype), out.sections.answer, if |t| > 10 || out.rcode == NotImp then 0 else |t|)
  {
    ViewIsLawful(w, zd, qname, qtype);
    AnswerIsLinked(ViewOf(w, zd, qname, qtype));
  }
}
