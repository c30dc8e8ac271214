/**
 Bounded chasing of names, the skeleton of both loops of handler/handler.go: each round
 either jumps to another name or is done, and a fixed number of rounds is run.
 */
module Chasing {
  import opened Records

  datatype Round<+R> = Jump(next: string) | Done(result: R)

  function Chase<R>(look: string -> Round<R>, name: string, left: nat, givenUp: R): R
    decreases left
  {
    if left == 0 then givenUp
    else
      match look(name)
      case Done(result) => result
      case Jump(next) => Chase(look, next, left - 1, givenUp)
  }

  /** The loop, counting rounds up as the code does; the code gives up once the count exceeds ten. */
  method Loop<R>(look: string -> Round<R>, name: string, givenUp: R) returns (result: R)
    ensures result == Chase(look, name, 11, givenUp)
  {
    var current, loopCount := name, 0;
    while true
      invariant 0 <= loopCount <= 11
      invariant Chase(look, name, 11, givenUp) == Chase(look, current, 11 - loopCount, givenUp)
      decreases 11 - loopCount
    {
      if loopCount > 10 { return givenUp; }
      loopCount := loopCount + 1;
      match look(current) {
        case Done(r) => return r;
        case Jump(next) => current := next;
      }
    }
  }

  lemma {:induction false} ChaseKeeps<R>(look: string -> Round<R>, name: string, left: nat, givenUp: R, p: R -> bool)
    requires p(givenUp) && forall n :: look(n).Done? ==> p(look(n).result)
    ensures p(Chase(look, name, left, givenUp))
    decreases left
  {
    if left == 0 || !look(name).Jump? {
    } else {
      ChaseKeeps(look, look(name).next, left - 1, givenUp, p);
    }
  }

  /** The name looked up in round `k`, while every earlier round jumped. */
  function NameAt<R>(look: string -> Round<R>, name: string, k: nat): Option<string> {
    if k == 0 then Some(name)
    else
      var before := NameAt(look, name, k - 1);
      if before.Some? && look(before.value).Jump? then Some(look(before.value).next) else None
  }

  lemma {:induction false} NameAtShift<R>(look: string -> Round<R>, name: string, k: nat)
    requires look(name).Jump?
    ensures NameAt(look, name, k + 1) == NameAt(look, look(name).next, k)
  {
    if k == 0 {
    } else {
      NameAtShift(look, name, k - 1);
    }
  }

  lemma {:induction false} JumpsBefore<R>(look: string -> Round<R>, name: string, k: nat)
    requires k > 0 && NameAt(look, name, k).Some?
    ensures look(name).Jump?
  {
    if k <= 1 {
    } else {
      JumpsBefore(look, name, k - 1);
    }
  }

  /** The loop returns the result of the first round that does not jump, if one of its rounds does not. */
  lemma {:induction false} ChaseEnds<R>(look: string -> Round<R>, name: string, left: nat, givenUp: R, k: nat)
    requires NameAt(look, name, k).Some? && look(NameAt(look, name, k).value).Done?
    ensures Chase(look, name, left, givenUp) == if k < left then look(NameAt(look, name, k).value).result else givenUp
    decreases left
  {
    if left == 0 || k == 0 {
    } else {
      JumpsBefore(look, name, k);
      NameAtShift(look, name, k - 1);
      ChaseEnds(look, look(name).next, left - 1, givenUp, k - 1);
    }
  }

  /** Along names that jump from one to the next, each round costs one. */
  lemma {:induction false} ChaseAlong<R>(look: string -> Round<R>, names: seq<string>, left: nat, givenUp: R)
    requires names != [] && |names| - 1 <= left
    requires forall i :: 0 <= i < |names| - 1 ==> look(names[i]) == Jump(names[i + 1])
    ensures Chase(look, names[0], left, givenUp) == Chase(look, names[|names| - 1], left - (|names| - 1), givenUp)
    decreases left
  {
    if |names| == 1 {
    } else {
      var rest := names[1..];
      assert forall i :: 0 <= i < |rest| ==> rest[i] == names[i + 1];
      ChaseAlong(look, rest, left - 1, givenUp);
    }
  }

  /** A walk that only jumps gives up. */
  lemma {:induction false} EndlessChase<R>(look: string -> Round<R>, name: string, left: nat, givenUp: R)
    requires NameAt(look, name, left).Some?
    ensures Chase(look, name, left, givenUp) == givenUp
    decreases left
  {
    if left == 0 {
    } else {
      JumpsBefore(look, name, left);
      NameAtShift(look, name, left - 1);
      EndlessChase(look, look(name).next, left - 1, givenUp);
    }
  }

  /** Two equal names in one walk: it never ends. */
  lemma {:induction false} CycleNeverEnds<R>(look: string -> Round<R>, name: string, i: nat, j: nat, n: nat)
    requires i < j && NameAt(look, name, j).Some? && NameAt(look, name, i) == NameAt(look, name, j)
    ensures NameAt(look, name, n).Some?
  {
    if n <= j {
      EarlierToo(look, name, n, j);
    } else {
      CycleNeverEnds(look, name, i, j, n - (j - i));
      SameFromThere(look, name, i, j, n - j);
    }
  }

  lemma {:induction false} EarlierToo<R>(look: string -> Round<R>, name: string, n: nat, j: nat)
    requires n <= j && NameAt(look, name, j).Some?
    ensures NameAt(look, name, n).Some?
  {
    if n == j {
    } else {
      EarlierToo(look, name, n, j - 1);
    }
  }

  lemma {:induction false} SameFromThere<R>(look: string -> Round<R>, name: string, i: nat, j: nat, d: nat)
    requires NameAt(look, name, i) == NameAt(look, name, j)
    ensures NameAt(look, name, i + d) == NameAt(look, name, j + d)
  {
    if d == 0 {
    } else {
      SameFromThere(look, name, i, j, d - 1);
    }
  }
}

/** FindANAME of handler/handler.go: following CNAME and ANAME across zones to addresses. */
module Aname {
  import opened Records
  import opened World
  import opened Chasing
  import ZoneIndex
  import Locations

  datatype Addresses = Addresses(ips: seq<Option<string>>, rcode: Rcode, ttl: nat)

  const FAILURE := Addresses([], ServFail, 0)

  function UpstreamIps(answers: seq<RR>, qtype: RRType): seq<Option<string>> {
    if answers == [] then []
    else (var rr := answers[0];
          if rr.rrtype == (if qtype == A then A else AAAA) && rr.data.Address? then [Some(rr.data.ip)] else [])
         + UpstreamIps(answers[1..], qtype)
  }

  function FromUpstream(w: World, name: string, qtype: RRType): Addresses {
    var reply := w.upstream(name, qtype);
    if reply.rcode != NoError then FAILURE
    else Addresses(UpstreamIps(reply.answers, qtype), NoError, if |reply.answers| > 0 then reply.answers[0].ttl else 0)
  }

  function Look(w: World, name: string, qtype: RRType): Round<Addresses> {
    var zoneName := ZoneIndex.FindZone(w.zones, name);
    if zoneName == "" then Done(FromUpstream(w, name, qtype))
    else if zoneName !in w.data then Done(FAILURE)
    else
      var zd := w.data[zoneName];
      var location := Locations.FindLocation(zd.zone.name, zd.zone.locations, name).0;
      if location == "" || location !in zd.records then Done(FAILURE)
      else
        var rec := zd.records[location];
        if rec.cname.Some? then Jump(rec.cname.value.host)
        else if qtype == A && |rec.a.data| > 0 then Done(Addresses(w.select(rec.name, rec.a), NoError, rec.a.ttl))
        else if qtype == AAAA && |rec.aaaa.data| > 0 then Done(Addresses(w.select(rec.name, rec.aaaa), NoError, rec.aaaa.ttl))
        else if rec.aname.Some? then Jump(rec.aname.value)
        else Done(Addresses([], NoError, 0))
  }

  function Looker(w: World, qtype: RRType): string -> Round<Addresses> {
    name => Look(w, name, qtype)
  }

  function FindANAME(w: World, aname: string, qtype: RRType): Addresses {
    Chase(Looker(w, qtype), aname, ROUNDS, FAILURE)
  }

  method ChaseANAME(w: World, aname: string, qtype: RRType) returns (result: Addresses)
    ensures result == FindANAME(w, aname, qtype)
  {
    result := Loop(Looker(w, qtype), aname, FAILURE);
  }

  lemma {:induction false} LookFailsEmpty(w: World, name: string, qtype: RRType)
    ensures var round := Look(w, name, qtype);
      round.Done? ==> round.result.rcode == NoError || round.result == FAILURE
  {
  }

  /** Anything but success is the server failure, without addresses and with TTL 0. */
  lemma {:induction false} FailureIsEmpty(w: World, aname: string, qtype: RRType)
    ensures var r := FindANAME(w, aname, qtype);
      r.rcode != NoError ==> r.rcode == ServFail && r.ips == [] && r.ttl == 0
  {
    var p := (r: Addresses) => r.rcode == NoError || r == FAILURE;
    var look := Looker(w, qtype);
    forall n ensures look(n).Done? ==> p(look(n).result) { LookFailsEmpty(w, n, qtype); }
    ChaseKeeps(look, aname, ROUNDS, FAILURE, p);
  }

  /** Any cycle of CNAMEs and ANAMEs ends in failure. */
  lemma {:induction false} CycleFails(w: World, aname: string, qtype: RRType, i: nat, j: nat)
    requires i < j && NameAt(Looker(w, qtype), aname, j).Some?
    requires NameAt(Looker(w, qtype), aname, i) == NameAt(Looker(w, qtype), aname, j)
    ensures FindANAME(w, aname, qtype) == FAILURE
  {
    CycleNeverEnds(Looker(w, qtype), aname, i, j, ROUNDS);
    EndlessChase(Looker(w, qtype), aname, ROUNDS, FAILURE);
  }

  /** A chain that reaches an answer within ten jumps returns exactly that answer. */
  lemma {:induction false} ShortChainAnswers(w: World, aname: string, qtype: RRType, k: nat)
    requires k <= 10 && NameAt(Looker(w, qtype), aname, k).Some?
    requires Look(w, NameAt(Looker(w, qtype), aname, k).value, qtype).Done?
    ensures FindANAME(w, aname, qtype) == Look(w, NameAt(Looker(w, qtype), aname, k).value, qtype).result
  {
    ChaseEnds(Looker(w, qtype), aname, ROUNDS, FAILURE, k);
  }

  function SetOf(record: Record, qtype: RRType): IpSet {
    if qtype == A then record.a else record.aaaa
  }

  /**
   The first name on the walk that has addresses of the asked type, and no CNAME, decides: its
   selected addresses are the result, also when it has an ANAME of its own.
   */
  lemma {:induction false} FirstAddressesWin(w: World, aname: string, qtype: RRType, k: nat, name: string, location: string)
    requires qtype == A || qtype == AAAA
    requires k <= 10 && NameAt(Looker(w, qtype), aname, k) == Some(name)
    requires var zone := ZoneIndex.FindZone(w.zones, name);
      && zone != "" && zone in w.data
      && location == Locations.FindLocation(w.data[zone].zone.name, w.data[zone].zone.locations, name).0
      && location != "" && location in w.data[zone].records
    requires var record := w.data[ZoneIndex.FindZone(w.zones, name)].records[location];
      record.cname.None? && SetOf(record, qtype).data != []
    ensures var record := w.data[ZoneIndex.FindZone(w.zones, name)].records[location];
      FindANAME(w, aname, qtype) ==
        Addresses(w.select(record.name, SetOf(record, qtype)), NoError, SetOf(record, qtype).ttl)
  {
    ShortChainAnswers(w, aname, qtype, k);
  }

  // ---- The result, read off the stored data and the upstream reply -------------------------

  /** The record that answers for a name, in whichever loaded zone owns it. */
  function StoredFor(w: World, name: string): Option<Record> {
    var z := ZoneIndex.FindZone(w.zones, name);
    if z == "" || z !in w.data then None
    else
      var l := Locations.FindLocation(w.data[z].zone.name, w.data[z].zone.locations, name).0;
      if l != "" && l in w.data[z].records then Some(w.data[z].records[l]) else None
  }

  /** The name that the walk goes to next: the CNAME's host, or the ANAME of a record without addresses. */
  function NextFor(w: World, qtype: RRType, name: string): Option<string> {
    var r := StoredFor(w, name);
    if r.None? then None
    else if r.value.cname.Some? then Some(r.value.cname.value.host)
    else if |SetOf(r.value, qtype).data| == 0 then r.value.aname
    else None
  }

  function NextsOf(w: World, qtype: RRType): string -> Option<string> {
    name => NextFor(w, qtype, name)
  }

  ghost predicate Route(next: string -> Option<string>, names: seq<string>) {
    names != [] && forall i :: 0 <= i < |names| - 1 ==> next(names[i]) == Some(names[i + 1])
  }

  /** An answer of the asked type gives its address. */
  function Relayed(qtype: RRType, rr: RR): Option<Option<string>> {
    if rr.rrtype == qtype && rr.data.Address? then Some(Some(rr.data.ip)) else None
  }

  /** The addresses of the asked type in a successful reply, in order, with the first answer's TTL; else the failure. */
  ghost predicate Relays(reply: Reply, qtype: RRType, r: Addresses) {
    var answers := reply.answers;
    if reply.rcode != NoError then r == Addresses([], ServFail, 0)
    else
      && r.rcode == NoError && r.ttl == (if |answers| == 0 then 0 else answers[0].ttl)
      && r.ips == Picked(answers, rr => Relayed(qtype, rr))
  }

  /** What a walk that ends at a name returns. */
  ghost predicate EndsWith(w: World, qtype: RRType, name: string, r: Addresses) {
    var stored := StoredFor(w, name);
    if ZoneIndex.FindZone(w.zones, name) == "" then Relays(w.upstream(name, qtype), qtype, r)
    else if stored.None? then r == Addresses([], ServFail, 0)
    else
      var ips := SetOf(stored.value, qtype);
      r == if |ips.data| == 0 then Addresses([], NoError, 0) else Addresses(w.select(stored.value.name, ips), NoError, ips.ttl)
  }

  lemma {:induction false} UpstreamRelays(answers: seq<RR>, qtype: RRType)
    requires qtype == A || qtype == AAAA
    ensures UpstreamIps(answers, qtype) == Picked(answers, rr => Relayed(qtype, rr))
  {
    if answers == [] {
    } else {
      UpstreamRelays(answers[1..], qtype);
      PickedCons(answers, rr => Relayed(qtype, rr));
    }
  }

  lemma {:induction false} LookMeaning(w: World, name: string, qtype: RRType)
    requires qtype == A || qtype == AAAA
    ensures var next, round := NextFor(w, qtype, name), Look(w, name, qtype);
      if next.Some? then round == Jump(next.value) else round.Done? && EndsWith(w, qtype, name, round.result)
  {
    if ZoneIndex.FindZone(w.zones, name) == "" { UpstreamRelays(w.upstream(name, qtype).answers, qtype); }
  }

  /** The walk follows its route; the end decides, and a route of eleven jumps fails. */
  lemma {:induction false} RouteResult(w: World, aname: string, qtype: RRType, names: seq<string>)
    requires (qtype == A || qtype == AAAA) && Route(NextsOf(w, qtype), names) && names[0] == aname && |names| <= ROUNDS + 1
    ensures |names| <= ROUNDS && NextFor(w, qtype, names[|names| - 1]).None? ==>
      EndsWith(w, qtype, names[|names| - 1], FindANAME(w, aname, qtype))
    ensures |names| == ROUNDS + 1 ==> FindANAME(w, aname, qtype) == Addresses([], ServFail, 0)
  {
    var look := Looker(w, qtype);
    forall i | 0 <= i < |names| - 1 ensures look(names[i]) == Jump(names[i + 1]) { LookMeaning(w, names[i], qtype); }
    ChaseAlong(look, names, ROUNDS, FAILURE);
    LookMeaning(w, names[|names| - 1], qtype);
  }

  /** Every walk has its route: to a name with nowhere to go, or through all rounds. */
  lemma {:induction false} RouteExists(next: string -> Option<string>, name: string, left: nat) returns (names: seq<string>)
    ensures Route(next, names) && names[0] == name && |names| <= left + 1
    ensures |names| <= left ==> next(names[|names| - 1]).None?
    decreases left
  {
    if left == 0 || next(name).None? {
      names := [name];
    } else {
      var rest := RouteExists(next, next(name).value, left - 1);
      names := [name] + rest;
      assert forall i :: 1 <= i < |names| ==> names[i] == rest[i - 1];
    }
  }
}
