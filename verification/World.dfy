/** What one request sees: a fixed zone tree, the loadable records, and the outside lookups. */
module World {
  import opened Records

  datatype KeyRef = KeyRef(owner: string, ttl: nat, text: string)

  datatype Zone = Zone(name: string, locations: set<string>, flattening: bool, dnssec: bool,
                       soaTtl: nat, soaText: string, minTtl: nat, zsk: KeyRef, ksk: KeyRef)

  /** `records` holds the locations that load; any other load fails. */
  datatype ZoneData = ZoneData(zone: Zone, records: map<string, Record>)

  datatype Reply = Reply(answers: seq<RR>, rcode: Rcode)

  /**
   `data` holds the zones that load.  `select` is Filter for this client at this moment,
   `upstream` the answer of the configured resolvers.
   */
  datatype World = World(zones: set<string>, data: map<string, ZoneData>, maxTtl: nat,
                         select: (string, IpSet) -> seq<Option<string>>,
                         upstream: (string, RRType) -> Reply)

  function SoaRR(zone: Zone): RR {
    RR(zone.name, SOA, zone.soaTtl, Opaque(zone.soaText))
  }

  function KeyRR(key: KeyRef): RR {
    RR(key.owner, DNSKEY, key.ttl, Opaque(key.text))
  }

  /** The bound of both chasing loops: eleven rounds run, the twelfth gives up. */
  const ROUNDS: nat := 11
}
