/**
 Resource records and rrsets of handler/dns_types.go, with the per-type answer
 builders and the TTL clamp of handler/handler.go.
 */
module Records {
  import opened Names

  datatype Option<+T> = None | Some(value: T)

  datatype RRType = A | AAAA | CNAME | TXT | NS | MX | SRV | CAA | PTR | TLSA | SOA | DNSKEY | NSEC | RRSIG | OPT
                  | OtherType(code: nat)

  datatype Rcode = NoError | ServFail | NXDomain | NotImp | NotAuth

  datatype RData =
    | Address(ip: string)
    | Target(host: string)
    | Text(text: string)
    | Exchange(preference: nat, mx: string)
    | Service(target: string, weight: nat, port: nat, priority: nat)
    | Property(flag: nat, tag: string, text: string)
    | Certificate(usage: nat, selector: nat, matching: nat, text: string)
    | Opaque(text: string)

  datatype RR = RR(name: string, rrtype: RRType, ttl: nat, data: RData)

  datatype RRSet = RRSet(ttl: nat, data: seq<RData>)

  datatype HostRef = HostRef(host: string, ttl: nat)

  datatype FilterConfig = FilterConfig(count: string, order: string, geoFilter: string)

  datatype HealthConfig = HealthConfig(protocol: string, uri: string, port: int, timeout: int,
                                       upCount: int, downCount: int, enable: bool)

  /** ip is None for a missing (nil) address. */
  datatype IpRR = IpRR(weight: int, ip: Option<string>, country: seq<string>, asn: seq<nat>)

  datatype IpSet = IpSet(ttl: nat, data: seq<IpRR>, filter: FilterConfig, health: HealthConfig)

  datatype Record = Record(name: string, a: IpSet, aaaa: IpSet, cname: Option<HostRef>, ns: RRSet,
                           txt: RRSet, mx: RRSet, srv: RRSet, caa: RRSet, ptr: Option<HostRef>, tlsa: RRSet,
                           aname: Option<string>)

  /** The smaller of the two, where zero stands for no bound. */
  function GetTtl(maxTtl: nat, ttl: nat): (r: nat)
    ensures (r == ttl || r == maxTtl) && (r == 0 <==> ttl == 0 && maxTtl == 0)
    ensures ttl > 0 && maxTtl > 0 ==> r <= ttl && r <= maxTtl
  {
    if ttl == 0 then maxTtl else if maxTtl == 0 then ttl else if ttl > maxTtl then maxTtl else ttl
  }

  /** Entries that the builders pass over: an empty host, target or text. */
  predicate Skipped(d: RData) {
    match d
    case Target(host) => host == ""
    case Text(text) => text == ""
    case Exchange(_, mx) => mx == ""
    case Service(target, _, _, _) => target == ""
    case _ => false
  }

  function Rendered(d: RData): RData {
    match d
    case Target(host) => Target(Fqdn(host))
    case Exchange(p, mx) => Exchange(p, Fqdn(mx))
    case Service(target, w, p, q) => Service(Fqdn(target), w, p, q)
    case _ => d
  }

  function BuildFrom(name: string, rrtype: RRType, ttl: nat, data: seq<RData>): (rrs: seq<RR>)
    ensures forall i :: 0 <= i < |rrs| ==> rrs[i].name == name && rrs[i].rrtype == rrtype
    ensures rrs == [] <==> forall i :: 0 <= i < |data| ==> Skipped(data[i])
  {
    if data == [] then []
    else if Skipped(data[0]) then
      var rest := BuildFrom(name, rrtype, ttl, data[1..]);
      assert forall i :: 1 <= i < |data| ==> data[i] == data[1..][i - 1];
      rest
    else [RR(name, rrtype, ttl, Rendered(data[0]))] + BuildFrom(name, rrtype, ttl, data[1..])
  }

  function Build(maxTtl: nat, name: string, rrtype: RRType, set_: RRSet): seq<RR> {
    BuildFrom(name, rrtype, GetTtl(maxTtl, set_.ttl), set_.data)
  }

  function BuildHost(maxTtl: nat, name: string, rrtype: RRType, ref: Option<HostRef>): seq<RR> {
    if ref.None? then []
    else [RR(name, rrtype, GetTtl(maxTtl, ref.value.ttl), Target(Fqdn(ref.value.host)))]
  }

  function BuildIps(name: string, rrtype: RRType, ttl: nat, ips: seq<Option<string>>): (rrs: seq<RR>)
    ensures forall i :: 0 <= i < |rrs| ==> rrs[i].name == name && rrs[i].rrtype == rrtype
  {
    if ips == [] then []
    else (if ips[0].None? then [] else [RR(name, rrtype, ttl, Address(ips[0].value))])
         + BuildIps(name, rrtype, ttl, ips[1..])
  }

  /** Every entry that is not skipped is built. */
  lemma {:induction false} BuildHas(name: string, rrtype: RRType, ttl: nat, data: seq<RData>, i: nat) returns (j: nat)
    requires i < |data| && !Skipped(data[i])
    ensures j < |BuildFrom(name, rrtype, ttl, data)| && BuildFrom(name, rrtype, ttl, data)[j].data == Rendered(data[i])
  {
    if i == 0 {
      j := 0;
    } else {
      j := BuildHas(name, rrtype, ttl, data[1..], i - 1);
      if !Skipped(data[0]) { j := j + 1; }
    }
  }

  /** What `pick` gives for the entries for which it gives something, in order. */
  function Picked<T, U>(xs: seq<T>, pick: T -> Option<U>): seq<U> {
    if xs == [] then []
    else Picked(xs[..|xs| - 1], pick) + (var last := pick(xs[|xs| - 1]); if last.Some? then [last.value] else [])
  }

  lemma {:induction false} PickedCons<T, U>(xs: seq<T>, pick: T -> Option<U>)
    requires xs != []
    ensures Picked(xs, pick) == (if pick(xs[0]).Some? then [pick(xs[0]).value] else []) + Picked(xs[1..], pick)
  {
    var n := |xs| - 1;
    if n == 0 {
      assert xs[..0] == [] && xs[1..] == [];
    } else {
      var init, rest := xs[..n], xs[1..];
      PickedCons(init, pick);
      assert init[1..] == rest[..n - 1] && rest[n - 1] == xs[n] && init[0] == xs[0];
    }
  }

  /** The addresses that are there, in order. */
  function Present(ips: seq<Option<string>>): seq<string> {
    if ips == [] then [] else (if ips[0].Some? then [ips[0].value] else []) + Present(ips[1..])
  }

  lemma {:induction false} BuildIpsContents(name: string, rrtype: RRType, ttl: nat, ips: seq<Option<string>>)
    ensures BuildIps(name, rrtype, ttl, ips) ==
      seq(|Present(ips)|, i requires 0 <= i < |Present(ips)| => RR(name, rrtype, ttl, Address(Present(ips)[i])))
  {
    if ips == [] {
    } else {
      BuildIpsContents(name, rrtype, ttl, ips[1..]);
    }
  }

  // ---- Owner renaming, used to compare flattened and unflattened answers ----

  function Renamed(q: string, rr: RR): RR {
    if rr.rrtype == SOA || rr.rrtype == DNSKEY then rr else rr.(name := q)
  }

  function RenamedAll(q: string, rrs: seq<RR>): seq<RR> {
    seq(|rrs|, i requires 0 <= i < |rrs| => Renamed(q, rrs[i]))
  }

  lemma {:induction false} BuildRenamed(name: string, q: string, rrtype: RRType, ttl: nat, data: seq<RData>)
    requires rrtype != SOA && rrtype != DNSKEY
    ensures BuildFrom(q, rrtype, ttl, data) == RenamedAll(q, BuildFrom(name, rrtype, ttl, data))
  {
    if data == [] {
    } else {
      BuildRenamed(name, q, rrtype, ttl, data[1..]);
    }
  }

  lemma {:induction false} BuildIpsRenamed(name: string, q: string, rrtype: RRType, ttl: nat, ips: seq<Option<string>>)
    requires rrtype != SOA && rrtype != DNSKEY
    ensures BuildIps(q, rrtype, ttl, ips) == RenamedAll(q, BuildIps(name, rrtype, ttl, ips))
  {
    if ips == [] {
    } else {
      BuildIpsRenamed(name, q, rrtype, ttl, ips[1..]);
    }
  }
}
