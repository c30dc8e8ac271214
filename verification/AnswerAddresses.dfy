/**
 Where the addresses of a response come from, when selection is the pipeline of AddressFilter:
 the resolution loop, the ANAME walk, glue and Filter put together.
 */
module AnswerAddresses {
  import opened Records
  import opened World
  import opened Walks
  import opened Selection
  import opened AddressFilter
  import opened Chasing
  import Names
  import ZoneIndex
  import Locations
  import Aname
  import Resolver

  /** What Filter reads for a name and an address set while the request runs. */
  type Reader = (string, IpSet) -> Readings

  /** Filter returns for this set, and `select` is what it returns. */
  ghost predicate Filtered(w: World, read: Reader, name: string, s: IpSet) {
    var r := read(name, s);
    && Fits(s, r) && FinalMask(s, r).Some?
    && w.select(name, s) == IpsAt(s.data, Chosen(FinalMask(s, r).value, s.data, s.filter, r.tick))
  }

  /** So it is for every stored address set. */
  ghost predicate SelectsByFilter(w: World, read: Reader) {
    forall z, l :: z in w.data && l in w.data[z].records ==>
      var record := w.data[z].records[l];
      Filtered(w, read, record.name, record.a) && Filtered(w, read, record.name, record.aaaa)
  }

  /** Entry `i` of the set is this address, and it passed the health stage and its floor. */
  ghost predicate PassedHealth(read: Reader, name: string, s: IpSet, i: nat, ip: string) {
    var r := read(name, s);
    && i < |s.data| && s.data[i].ip == Some(ip)
    && Fits(s, r) && Healthy(s, r)[i] == White && (r.healthEnabled ==> r.status[i] >= s.health.downCount)
  }

  /** The address is stored in some loaded zone, in a set of this type, and passed its health check. */
  ghost predicate StoredAndHealthy(w: World, read: Reader, qtype: RRType, ip: string) {
    exists z, l, i: nat ::
      && z in w.data && l in w.data[z].records
      && PassedHealth(read, w.data[z].records[l].name, Aname.SetOf(w.data[z].records[l], qtype), i, ip)
  }

  /** The address is in an upstream answer for a name outside all zones. */
  ghost predicate FromUpstream(w: World, qtype: RRType, ip: string) {
    exists name :: ZoneIndex.FindZone(w.zones, name) == "" &&
      Some(ip) in Aname.UpstreamIps(w.upstream(name, qtype).answers, qtype)
  }

  ghost predicate Accounted(w: World, read: Reader, qtype: RRType, ip: string) {
    StoredAndHealthy(w, read, qtype, ip) || FromUpstream(w, qtype, ip)
  }

  lemma {:induction false} SelectedIsHealthy(w: World, read: Reader, z: string, l: string, qtype: RRType, ip: string)
    requires SelectsByFilter(w, read) && z in w.data && l in w.data[z].records
    requires var record := w.data[z].records[l]; Some(ip) in w.select(record.name, Aname.SetOf(record, qtype))
    ensures StoredAndHealthy(w, read, qtype, ip)
  {
    var record := w.data[z].records[l];
    var s := Aname.SetOf(record, qtype);
    assert Filtered(w, read, record.name, s);
    var i := FilteredIsHealthy(w, read, record.name, s, ip);
    assert PassedHealth(read, record.name, s, i, ip);
  }

  lemma {:induction false} FilteredIsHealthy(w: World, read: Reader, name: string, s: IpSet, ip: string) returns (i: nat)
    requires Filtered(w, read, name, s) && Some(ip) in w.select(name, s)
    ensures PassedHealth(read, name, s, i, ip)
  {
    var r := read(name, s);
    var at := Chosen(FinalMask(s, r).value, s.data, s.filter, r.tick);
    var ips := IpsAt(s.data, at);
    var k :| 0 <= k < |ips| && ips[k] == Some(ip);
    SelectionIsHealthy(s, r, k);
    i := at[k];
  }

  lemma {:induction false} LookIsAccounted(w: World, read: Reader, name: string, qtype: RRType, ip: string)
    requires SelectsByFilter(w, read) && (qtype == A || qtype == AAAA)
    requires Aname.Look(w, name, qtype).Done? && Some(ip) in Aname.Look(w, name, qtype).result.ips
    ensures Accounted(w, read, qtype, ip)
  {
    var z, l := LookSource(w, name, qtype, ip);
    if ZoneIndex.FindZone(w.zones, name) != "" { SelectedIsHealthy(w, read, z, l, qtype, ip); }
  }

  /** Where a round of the ANAME walk gets an address from. */
  lemma {:induction false} LookSource(w: World, name: string, qtype: RRType, ip: string) returns (z: string, l: string)
    requires qtype == A || qtype == AAAA
    requires Aname.Look(w, name, qtype).Done? && Some(ip) in Aname.Look(w, name, qtype).result.ips
    ensures z == ZoneIndex.FindZone(w.zones, name)
    ensures if z == "" then Some(ip) in Aname.UpstreamIps(w.upstream(name, qtype).answers, qtype) else
      && z in w.data && l in w.data[z].records
      && Some(ip) in w.select(w.data[z].records[l].name, Aname.SetOf(w.data[z].records[l], qtype))
  {
    z, l := ZoneIndex.FindZone(w.zones, name), "";
    if z != "" {
      var zd := w.data[z];
      l := Locations.FindLocation(zd.zone.name, zd.zone.locations, name).0;
    }
  }

  /** Every address that an ANAME walk returns is stored and healthy, or comes from upstream. */
  lemma {:induction false} AnameIsAccounted(w: World, read: Reader, aname: string, qtype: RRType, ip: string)
    requires SelectsByFilter(w, read) && (qtype == A || qtype == AAAA)
    requires Some(ip) in Aname.FindANAME(w, aname, qtype).ips
    ensures Accounted(w, read, qtype, ip)
  {
    var p := (r: Aname.Addresses) => Some(ip) in r.ips ==> Accounted(w, read, qtype, ip);
    var look := Aname.Looker(w, qtype);
    forall n ensures look(n).Done? ==> p(look(n).result) {
      if look(n).Done? && Some(ip) in look(n).result.ips { LookIsAccounted(w, read, n, qtype, ip); }
    }
    ChaseKeeps(look, aname, ROUNDS, Aname.FAILURE, p);
  }

  /** The address of an address record is accounted for. */
  ghost predicate Sound(w: World, read: Reader, rr: RR) {
    rr.rrtype == A || rr.rrtype == AAAA ==> rr.data.Address? && Accounted(w, read, rr.rrtype, rr.data.ip)
  }

  lemma {:induction false} AddressAnswerIsSound(w: World, read: Reader, z: string, l: string, owner: string, qtype: RRType, i: nat)
    requires SelectsByFilter(w, read) && (qtype == A || qtype == AAAA) && z in w.data && l in w.data[z].records
    requires var record := w.data[z].records[l];
      i < |Resolver.AddressAnswer(w, owner, qtype, Aname.SetOf(record, qtype), record).rrs|
    ensures var record := w.data[z].records[l];
      Sound(w, read, Resolver.AddressAnswer(w, owner, qtype, Aname.SetOf(record, qtype), record).rrs[i])
  {
    var record := w.data[z].records[l];
    var ips := Aname.SetOf(record, qtype);
    var rr := Resolver.AddressAnswer(w, owner, qtype, ips, record).rrs[i];
    if ips.data == [] && record.aname.Some? {
      var found := Aname.FindANAME(w, record.aname.value, qtype);
      Resolver.BuildIpsAddress(owner, qtype, GetTtl(w.maxTtl, found.ttl), found.ips, i);
      AnameIsAccounted(w, read, record.aname.value, qtype, rr.data.ip);
    } else {
      Resolver.BuildIpsAddress(owner, qtype, GetTtl(w.maxTtl, ips.ttl), w.select(record.name, ips), i);
      SelectedIsHealthy(w, read, z, l, qtype, rr.data.ip);
    }
  }

  lemma {:induction false} LeafIsSound(w: World, read: Reader, z: string, l: string, owner: string, qtype: RRType, i: nat)
    requires SelectsByFilter(w, read) && z in w.data && l in w.data[z].records
    requires var a := Resolver.LeafAnswer(w, w.data[z], qtype, owner, w.data[z].records[l]); a.Some? && i < |a.value.rrs|
    ensures Sound(w, read, Resolver.LeafAnswer(w, w.data[z], qtype, owner, w.data[z].records[l]).value.rrs[i])
  {
    Resolver.LeafRenamed(w, w.data[z], qtype, owner, owner, w.data[z].records[l]);
    if qtype == A || qtype == AAAA { AddressAnswerIsSound(w, read, z, l, owner, qtype, i); }
  }

  lemma {:induction false} LeafRecordIsStored(w: World, zd: ZoneData, qtype: RRType, name: string) returns (l: string)
    requires Resolver.StepAt(w, zd, qtype, name).Leaf?
    ensures l in zd.records && zd.records[l] == Resolver.StepAt(w, zd, qtype, name).record
  {
    l := Locations.FindLocation(zd.zone.name, zd.zone.locations, name).0;
  }

  /** A record with addresses of the asked type answers with exactly what Filter returns for them, in order. */
  lemma {:induction false} AnswersListFilter(w: World, read: Reader, z: string, l: string, owner: string, qtype: RRType)
    requires SelectsByFilter(w, read) && (qtype == A || qtype == AAAA) && z in w.data && l in w.data[z].records
    requires var record := w.data[z].records[l]; Aname.SetOf(record, qtype).data != [] || record.aname.None?
    ensures var record := w.data[z].records[l];
      var s := Aname.SetOf(record, qtype); var r := read(record.name, s);
      && Fits(s, r) && FinalMask(s, r).Some?
      && var ips := Present(IpsAt(s.data, Chosen(FinalMask(s, r).value, s.data, s.filter, r.tick)));
         var a := Resolver.LeafAnswer(w, w.data[z], qtype, owner, record);
         && a.Some? && a.value.rcode == NoError && |a.value.rrs| == |ips|
         && forall i :: 0 <= i < |ips| ==> a.value.rrs[i] == RR(owner, qtype, GetTtl(w.maxTtl, s.ttl), Address(ips[i]))
  {
    var record := w.data[z].records[l];
    assert Filtered(w, read, record.name, Aname.SetOf(record, qtype));
    Resolver.AddressesAreSelected(w, w.data[z], qtype, owner, record);
  }

  /**
   In every response, flattened or not, each A and AAAA record of the answer carries an address
   that is stored in a loaded zone and passed its health check, or that came from upstream.
   */
  lemma {:induction false} AnswersAreHealthy(w: World, read: Reader, z: string, qname: string, qtype: RRType, flat: bool, i: nat)
    requires SelectsByFilter(w, read) && z in w.data
    requires i < |Resolver.Resolve(w, w.data[z], qname, qtype, flat).sections.answer|
    ensures Sound(w, read, Resolver.Resolve(w, w.data[z], qname, qtype, flat).sections.answer[i])
  {
    var v := Resolver.ViewOf(w, w.data[z], qname, qtype);
    var p := (rr: RR) => Sound(w, read, rr);
    forall n, owner ensures v.step(n).Leaf? ==> LeafKeeps(v, owner, v.step(n).record, p) {
      if v.step(n).Leaf? {
        var l := LeafRecordIsStored(w, w.data[z], qtype, n);
        var a := v.leaf(owner, v.step(n).record);
        if a.Some? {
          forall k | 0 <= k < |a.value.rrs| ensures p(a.value.rrs[k]) { LeafIsSound(w, read, z, l, owner, qtype, k); }
        }
      }
    }
    AnswerKeeps(v, flat, qname, ROUNDS, FRESH, p);
  }

  /** Some NS record of the section names this host. */
  ghost predicate NamedByNs(authority: seq<RR>, host: string) {
    exists j :: 0 <= j < |authority| && authority[j].rrtype == NS && authority[j].data == Target(Names.Fqdn(host))
  }

  lemma {:induction false} HostIsNamed(v: View, out: Outcome, n: string, host: string)
    requires Referral(v, out, n) && Target(host) in v.step(n).record.ns.data && host != ""
    ensures NamedByNs(out.sections.authority, host)
  {
    var ns := v.step(n).record.ns;
    var k :| 0 <= k < |ns.data| && ns.data[k] == Target(host);
    var j := BuildHas(n, NS, GetTtl(v.maxTtl, ns.ttl), ns.data, k);
    assert out.sections.authority[j].data == Target(Names.Fqdn(host));
  }

  lemma {:induction false} GlueIsSound(w: World, read: Reader, z: string, ns: seq<RData>, i: nat)
    requires SelectsByFilter(w, read) && z in w.data && i < |Resolver.Glue(w, w.data[z], ns)|
    ensures var rr := Resolver.Glue(w, w.data[z], ns)[i];
      Resolver.GlueRecord(rr, ns) && StoredAndHealthy(w, read, rr.rrtype, rr.data.ip)
  {
    var rr := Resolver.Glue(w, w.data[z], ns)[i];
    var l := Resolver.GlueContents(w, w.data[z], ns, i);
    SelectedIsHealthy(w, read, z, l, rr.rrtype, rr.data.ip);
  }

  /**
   In every response each additional record is a healthy address of this zone, owned by a host
   that an NS record of the authority section names (or by the empty host).
   */
  lemma {:induction false} GlueIsReferred(w: World, read: Reader, z: string, qname: string, qtype: RRType, flat: bool, i: nat)
    requires SelectsByFilter(w, read) && z in w.data
    requires i < |Resolver.Resolve(w, w.data[z], qname, qtype, flat).sections.additional|
    ensures var s := Resolver.Resolve(w, w.data[z], qname, qtype, flat).sections; var rr := s.additional[i];
      && (rr.rrtype == A || rr.rrtype == AAAA) && rr.data.Address?
      && StoredAndHealthy(w, read, rr.rrtype, rr.data.ip)
      && (rr.name == "" || NamedByNs(s.authority, rr.name))
  {
    var v := Resolver.ViewOf(w, w.data[z], qname, qtype);
    var out := Resolver.Resolve(w, w.data[z], qname, qtype, flat);
    var n := AdditionalIsGlue(v, flat, qname, ROUNDS, []);
    GlueIsSound(w, read, z, v.step(n).record.ns.data, i);
    var host := out.sections.additional[i].name;
    if host != "" { HostIsNamed(v, out, n, host); }
  }
}
