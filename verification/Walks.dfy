/**
 The loop of HandleRequest (handler/handler.go), over the view that one request has of its
 zone: what stands at each name, and how answers are built there.
 */
module Walks {
  import opened Records
  import opened World

  /** A CNAME record: its host as stored, and the fully qualified name that is followed. */
  datatype Alias = Alias(host: string, ttl: nat, next: string)

  /** What the loop finds at a name. */
  datatype Step =
    | Leave                     // another zone, or none, owns the name
    | Missing                   // no location matches
    | Broken                    // the location does not load
    | Hop(alias: Alias)
    | Cut(record: Record)       // a delegation below the apex
    | Leaf(record: Record)

  datatype Answered = Answered(rrs: seq<RR>, rcode: Rcode)

  datatype View = View(qname: string, qtype: RRType, soa: RR, maxTtl: nat,
                       step: string -> Step,
                       inZone: string -> bool,
                       leaf: (string, Record) -> Option<Answered>,   // by owner name; None: not implemented
                       glue: Record -> seq<RR>)

  datatype Sections = Sections(answer: seq<RR>, authority: seq<RR>, additional: seq<RR>)

  datatype Outcome = Outcome(rcode: Rcode, sections: Sections)

  const FRESH := Sections([], [], [])

  function CnameRR(v: View, owner: string, c: Alias): RR {
    RR(owner, CNAME, GetTtl(v.maxTtl, c.ttl), Target(c.next))
  }

  function AtLeaf(v: View, owner: string, record: Record, s: Sections): Outcome {
    match v.leaf(owner, record)
    case None => Outcome(NotImp, s.(answer := [], authority := [v.soa]))
    case Some(a) =>
      Outcome(a.rcode, s.(answer := s.answer + a.rrs,
                          authority := if a.rrs == [] && a.rcode == NoError then [v.soa] else s.authority))
  }

  /** How the loop ends at a name that is not an alias. */
  function Stop(v: View, flat: bool, name: string, s: Sections): Outcome
    requires !v.step(name).Hop?
  {
    match v.step(name)
    case Leave => Outcome(NoError, s)
    case Missing => Outcome(NXDomain, s.(authority := [v.soa]))
    case Broken => Outcome(ServFail, s)
    case Cut(record) =>
      Outcome(NoError, s.(authority := s.authority + Build(v.maxTtl, name, NS, record.ns),
                          additional := s.additional + v.glue(record)))
    case Leaf(record) => AtLeaf(v, if flat then v.qname else name, record, s)
  }

  function GivenUp(s: Sections): Outcome {
    Outcome(ServFail, s.(answer := []))
  }

  /** `left` rounds remain; `flat` is the zone's CNAME flattening. */
  function Walk(v: View, flat: bool, name: string, left: nat, s: Sections): Outcome
    decreases left
  {
    if left == 0 then GivenUp(s)
    else
      match v.step(name)
      case Hop(c) =>
        if !flat then Walk(v, flat, c.next, left - 1, s.(answer := s.answer + [CnameRR(v, name, c)]))
        else if !v.inZone(c.host) then Outcome(NoError, s.(answer := s.answer + [CnameRR(v, v.qname, c)]))
        else Walk(v, flat, c.next, left - 1, s)
      case _ => Stop(v, flat, name, s)
  }

  class RequestContext {
    var answer: seq<RR>
    var authority: seq<RR>
    var additional: seq<RR>

    constructor ()
      ensures Held() == FRESH
    {
      answer, authority, additional := [], [], [];
    }

    function Held(): Sections reads this {
      Sections(answer, authority, additional)
    }

    /** The loop, appending to the sections as it goes. */
    method Resolve(v: View, flat: bool) returns (res: Rcode)
      modifies this
      ensures Outcome(res, Held()) == Walk(v, flat, v.qname, ROUNDS, old(Held()))
    {
      var loopCount, currentQName := 0, v.qname;
      ghost var goal := Walk(v, flat, v.qname, ROUNDS, Held());
      while true
        invariant 0 <= loopCount <= ROUNDS
        invariant goal == Walk(v, flat, currentQName, ROUNDS - loopCount, Held())
        decreases ROUNDS - loopCount
      {
        if loopCount > 10 {
          answer := [];
          return ServFail;
        }
        loopCount := loopCount + 1;
        match v.step(currentQName) {
          case Leave => return NoError;
          case Missing =>
            authority := [v.soa];
            return NXDomain;
          case Broken => return ServFail;
          case Hop(c) =>
            if !flat {
              answer := answer + [CnameRR(v, currentQName, c)];
            } else if !v.inZone(c.host) {
              answer := answer + [CnameRR(v, v.qname, c)];
              return NoError;
            }
            currentQName := c.next;
          case Cut(record) =>
            authority := authority + Build(v.maxTtl, currentQName, NS, record.ns);
            additional := additional + v.glue(record);
            return NoError;
          case Leaf(record) =>
            if flat { currentQName := v.qname; }
            match v.leaf(currentQName, record) {
              case None =>
                answer, authority := [], [v.soa];
                return NotImp;
              case Some(a) =>
                answer := answer + a.rrs;
                if |a.rrs| == 0 && a.rcode == NoError { authority := [v.soa]; }
                return a.rcode;
            }
        }
      }
    }
  }

  // ---- Laws that every request's view satisfies --------------------------------------

  ghost predicate LeafLaw(v: View, owner: string, owner': string, record: Record) {
    var a, b := v.leaf(owner, record), v.leaf(owner', record);
    && (a.Some? <==> b.Some?)
    && (a.Some? ==>
          && b.value == Answered(RenamedAll(owner', a.value.rrs), a.value.rcode)
          && forall i :: 0 <= i < |a.value.rrs| ==> a.value.rrs[i].rrtype == v.qtype)
    && (a.Some? && a.value.rcode != NoError ==> a.value.rrs == [] && a.value.rcode == ServFail)
  }

  ghost predicate Lawful(v: View) {
    && (forall n :: v.step(n).Leave? <==> !v.inZone(n))
    && (forall n :: v.qtype == CNAME ==> !v.step(n).Hop?)
    && (forall owner, owner', record :: LeafLaw(v, owner, owner', record))
  }

  // ---- The chain and the closed form --------------------------------------------------

  /** The aliases met from `name` within `left` rounds. */
  ghost function Trail(v: View, name: string, left: nat): (t: seq<Alias>)
    ensures |t| <= left
    decreases left
  {
    if left == 0 then []
    else
      match v.step(name)
      case Hop(c) => [c] + Trail(v, c.next, left - 1)
      case _ => []
  }

  /** The name reached after `i` aliases. */
  function NameAt(name: string, t: seq<Alias>, i: nat): string
    requires i <= |t|
  {
    if i == 0 then name else t[i - 1].next
  }

  function ChainRRs(v: View, name: string, t: seq<Alias>): seq<RR> {
    seq(|t|, i requires 0 <= i < |t| => CnameRR(v, NameAt(name, t, i), t[i]))
  }

  lemma {:induction false} ChainCons(v: View, name: string, c: Alias, rest: seq<Alias>)
    ensures ChainRRs(v, name, [c] + rest) == [CnameRR(v, name, c)] + ChainRRs(v, c.next, rest)
    ensures forall i :: 1 <= i <= |rest| + 1 ==> NameAt(name, [c] + rest, i) == NameAt(c.next, rest, i - 1)
  {
    forall i | 1 <= i <= |rest| + 1
      ensures NameAt(name, [c] + rest, i) == NameAt(c.next, rest, i - 1) { }
  }

  lemma {:induction false} TrailSteps(v: View, name: string, left: nat, i: nat)
    requires i <= |Trail(v, name, left)|
    ensures var t := Trail(v, name, left); var n := NameAt(name, t, i);
      && (i < |t| ==> v.step(n) == Hop(t[i]))
      && (i == |t| < left ==> !v.step(n).Hop?)
    decreases left
  {
    if left == 0 || !v.step(name).Hop? {
    } else {
      var c := v.step(name).alias;
      ChainCons(v, name, c, Trail(v, c.next, left - 1));
      if i > 0 { TrailSteps(v, c.next, left - 1, i - 1); }
    }
  }

  /** The sections after listing the chain. */
  function Listed(v: View, name: string, t: seq<Alias>, s: Sections): Sections {
    s.(answer := s.answer + ChainRRs(v, name, t))
  }

  lemma {:induction false} ListedCons(v: View, name: string, c: Alias, rest: seq<Alias>, s: Sections)
    ensures Listed(v, name, [c] + rest, s) ==
            Listed(v, c.next, rest, s.(answer := s.answer + [CnameRR(v, name, c)]))
    ensures NameAt(name, [c] + rest, |rest| + 1) == NameAt(c.next, rest, |rest|)
  {
    ChainCons(v, name, c, rest);
    Associates(s.answer, [CnameRR(v, name, c)], ChainRRs(v, c.next, rest));
  }

  lemma {:induction false} Associates(a: seq<RR>, b: seq<RR>, c: seq<RR>)
    ensures a + (b + c) == (a + b) + c
  {
  }

  lemma {:induction false} ListedNothing(v: View, name: string, s: Sections)
    ensures Listed(v, name, [], s) == s
  {
    assert ChainRRs(v, name, []) == [];
  }

  lemma {:induction false} WalkHops(v: View, name: string, left: nat, s: Sections, c: Alias)
    requires left > 0 && v.step(name) == Hop(c)
    ensures Walk(v, false, name, left, s) ==
            Walk(v, false, c.next, left - 1, s.(answer := s.answer + [CnameRR(v, name, c)]))
    ensures Trail(v, name, left) == [c] + Trail(v, c.next, left - 1)
  {
  }

  lemma {:induction false} FlatHops(v: View, name: string, left: nat, c: Alias)
    requires left > 0 && v.step(name) == Hop(c) && v.inZone(c.host)
    ensures Walk(v, true, name, left, FRESH) == Walk(v, true, c.next, left - 1, FRESH)
  {
  }

  lemma {:induction false} WalkStops(v: View, flat: bool, name: string, left: nat, s: Sections)
    requires left > 0 && !v.step(name).Hop?
    ensures Walk(v, flat, name, left, s) == Stop(v, flat, name, s)
    ensures Trail(v, name, left) == []
  {
  }

  /** A chain that fills all rounds gives up with an empty answer. */
  lemma {:induction false} ChainTooLong(v: View, name: string, left: nat, s: Sections)
    requires |Trail(v, name, left)| == left
    ensures Walk(v, false, name, left, s) == GivenUp(s)
    decreases left
  {
    if left == 0 {
    } else {
      var c := v.step(name).alias;
      WalkHops(v, name, left, s, c);
      ChainTooLong(v, c.next, left - 1, s.(answer := s.answer + [CnameRR(v, name, c)]));
    }
  }

  /** Any shorter chain is listed in full, and its last name decides the outcome. */
  lemma {:induction false} ChainEnds(v: View, name: string, left: nat, s: Sections)
    requires |Trail(v, name, left)| < left
    ensures var t := Trail(v, name, left); var last := NameAt(name, t, |t|);
      !v.step(last).Hop? && Walk(v, false, name, left, s) == Stop(v, false, last, Listed(v, name, t, s))
    decreases left
  {
    if v.step(name).Hop? {
      var c := v.step(name).alias;
      WalkHops(v, name, left, s, c);
      ChainEnds(v, c.next, left - 1, s.(answer := s.answer + [CnameRR(v, name, c)]));
      ListedCons(v, name, c, Trail(v, c.next, left - 1), s);
    } else {
      WalkStops(v, false, name, left, s);
      ListedNothing(v, name, s);
    }
  }

  /** The record at `i` is owned by the queried name, or by the target of the record before it. */
  ghost predicate Continues(v: View, answer: seq<RR>, i: nat, owner: string)
    requires i <= |answer|
  {
    if i == 0 then owner == v.qname else answer[i - 1].data == Target(owner)
  }

  /**
   An answer section that reads as one chain: first `k` CNAMEs, at most ten, each owned in the
   zone by the queried name or the previous target; then only records of the asked type, owned
   by the last target (SOA and DNSKEY have owners of their own).
   */
  ghost predicate LinkedAnswer(v: View, answer: seq<RR>, k: nat) {
    && k <= 10 && k <= |answer|
    && (forall i :: 0 <= i < k ==>
          answer[i].rrtype == CNAME && v.inZone(answer[i].name) && Continues(v, answer, i, answer[i].name))
    && (forall i :: k <= i < |answer| ==>
          && answer[i].rrtype == v.qtype
          && (v.qtype != SOA && v.qtype != DNSKEY ==> Continues(v, answer, k, answer[i].name)))
  }

  lemma {:induction false} ChainIsLinked(v: View, i: nat)
    requires Lawful(v) && i < |Trail(v, v.qname, ROUNDS)|
    ensures var t := Trail(v, v.qname, ROUNDS); var chain := ChainRRs(v, v.qname, t);
      chain[i].rrtype == CNAME && v.inZone(chain[i].name) && Continues(v, chain, i, chain[i].name)
  {
    TrailSteps(v, v.qname, ROUNDS, i);
  }

  /** Records at a leaf have the asked type and, SOA and DNSKEY aside, the given owner. */
  lemma {:induction false} LeafOwner(v: View, owner: string, record: Record, i: nat)
    requires Lawful(v) && v.leaf(owner, record).Some? && i < |v.leaf(owner, record).value.rrs|
    ensures var rr := v.leaf(owner, record).value.rrs[i];
      rr.rrtype == v.qtype && (v.qtype != SOA && v.qtype != DNSKEY ==> rr.name == owner)
  {
    assert LeafLaw(v, owner, owner, record);
    var rrs := v.leaf(owner, record).value.rrs;
    assert RenamedAll(owner, rrs)[i] == Renamed(owner, rrs[i]);
  }

  lemma {:induction false} LeafAfterChain(v: View, chain: seq<RR>, owner: string, record: Record)
    requires Lawful(v) && |chain| <= 10 && Continues(v, chain, |chain|, owner) && v.leaf(owner, record).Some?
    requires forall i :: 0 <= i < |chain| ==>
      chain[i].rrtype == CNAME && v.inZone(chain[i].name) && Continues(v, chain, i, chain[i].name)
    ensures LinkedAnswer(v, chain + v.leaf(owner, record).value.rrs, |chain|)
  {
    var rrs := v.leaf(owner, record).value.rrs;
    var answer := chain + rrs;
    forall i | |chain| <= i < |answer|
      ensures answer[i].rrtype == v.qtype
      ensures v.qtype != SOA && v.qtype != DNSKEY ==> Continues(v, answer, |chain|, answer[i].name)
    {
      LeafOwner(v, owner, record, i - |chain|);
      assert answer[i] == rrs[i - |chain|];
    }
  }

  /**
   Without flattening the answer of every request reads as one chain, and it lists all aliases
   of the chain unless the loop gave up or the type is not implemented.
   */
  lemma {:induction false} AnswerIsLinked(v: View)
    requires Lawful(v)
    ensures var out, t := Walk(v, false, v.qname, ROUNDS, FRESH), Trail(v, v.qname, ROUNDS);
      LinkedAnswer(v, out.sections.answer, if |t| > 10 || out.rcode == NotImp then 0 else |t|)
  {
    var out, t := Walk(v, false, v.qname, ROUNDS, FRESH), Trail(v, v.qname, ROUNDS);
    if |t| > 10 {
      ChainTooLong(v, v.qname, ROUNDS, FRESH);
    } else {
      ChainEnds(v, v.qname, ROUNDS, FRESH);
      var chain, last := ChainRRs(v, v.qname, t), NameAt(v.qname, t, |t|);
      assert [] + chain == chain;
      forall i | 0 <= i < |t|
        ensures chain[i].rrtype == CNAME && v.inZone(chain[i].name) && Continues(v, chain, i, chain[i].name)
      {
        ChainIsLinked(v, i);
      }
      assert Continues(v, chain, |chain|, last);
      LinkedAtStop(v, chain, last);
    }
  }

  lemma {:induction false} LinkedAtStop(v: View, chain: seq<RR>, name: string)
    requires Lawful(v) && !v.step(name).Hop? && |chain| <= 10 && Continues(v, chain, |chain|, name)
    requires forall i :: 0 <= i < |chain| ==>
      chain[i].rrtype == CNAME && v.inZone(chain[i].name) && Continues(v, chain, i, chain[i].name)
    ensures var out := Stop(v, false, name, Sections(chain, [], []));
      LinkedAnswer(v, out.sections.answer, if out.rcode == NotImp then 0 else |chain|)
  {
    if v.step(name).Leaf? {
      var record := v.step(name).record;
      assert LeafLaw(v, name, name, record);
      if v.leaf(name, record).Some? { LeafAfterChain(v, chain, name, record); }
    }
  }

  /** Exactly `i` aliases lead from `name` to `n`. */
  ghost predicate Reaches(v: View, name: string, i: nat, n: string)
    decreases i
  {
    if i == 0 then name == n else v.step(name).Hop? && Reaches(v, v.step(name).alias.next, i - 1, n)
  }

  lemma {:induction false} ReachesAdd(v: View, name: string, i: nat, n: string, j: nat, m: string)
    requires Reaches(v, name, i, n) && Reaches(v, n, j, m)
    ensures Reaches(v, name, i + j, m)
    decreases i
  {
    if i == 0 {
    } else {
      ReachesAdd(v, v.step(name).alias.next, i - 1, n, j, m);
    }
  }

  lemma {:induction false} ReachesFillsTrail(v: View, name: string, i: nat, n: string, rounds: nat)
    requires Reaches(v, name, i, n) && rounds <= i
    ensures |Trail(v, name, rounds)| == rounds
    decreases i
  {
    if rounds == 0 {
    } else {
      ReachesFillsTrail(v, v.step(name).alias.next, i - 1, n, rounds - 1);
    }
  }

  lemma {:induction false} RoundAndRound(v: View, n: string, period: nat, times: nat)
    requires Reaches(v, n, period, n)
    ensures Reaches(v, n, times * period, n)
  {
    if times == 0 {
    } else {
      RoundAndRound(v, n, period, times - 1);
      assert times * period == period + (times - 1) * period;
      ReachesAdd(v, n, period, n, (times - 1) * period, n);
    }
  }

  /** Every chain that runs into a cycle fills all rounds. */
  lemma {:induction false} CycleFillsRounds(v: View, name: string, lead: nat, n: string, period: nat, rounds: nat)
    requires period > 0 && Reaches(v, name, lead, n) && Reaches(v, n, period, n)
    ensures |Trail(v, name, rounds)| == rounds
  {
    RoundAndRound(v, n, period, rounds);
    assert rounds * period >= rounds;
    ReachesAdd(v, name, lead, n, rounds * period, n);
    ReachesFillsTrail(v, name, lead + rounds * period, n, rounds);
  }

  ghost predicate HostsInZone(v: View, t: seq<Alias>) {
    forall i :: 0 <= i < |t| ==> v.inZone(t[i].host)
  }

  lemma {:induction false} HostsCons(v: View, name: string, c: Alias, rest: seq<Alias>)
    ensures HostsInZone(v, [c] + rest) <==> v.inZone(c.host) && HostsInZone(v, rest)
    ensures NameAt(name, [c] + rest, |rest| + 1) == NameAt(c.next, rest, |rest|)
  {
    var t := [c] + rest;
    assert t[0] == c && forall i :: 0 <= i < |rest| ==> rest[i] == t[i + 1];
  }

  /** With flattening the same chain gives up exactly when every stored host looks in-zone. */
  lemma {:induction false} FlatChainTooLong(v: View, name: string, left: nat)
    requires |Trail(v, name, left)| == left
    ensures Walk(v, true, name, left, FRESH) == GivenUp(FRESH) <==>
      HostsInZone(v, Trail(v, name, left))
    decreases left
  {
    if left == 0 {
    } else {
      var c := v.step(name).alias;
      HostsCons(v, name, c, Trail(v, c.next, left - 1));
      if v.inZone(c.host) { FlatChainTooLong(v, c.next, left - 1); }
    }
  }

  /** With flattening a shorter chain is followed in silence to its last name, if every host looks in-zone. */
  lemma {:induction false} FlatChainEnds(v: View, name: string, left: nat)
    requires |Trail(v, name, left)| < left
    ensures var t := Trail(v, name, left); var last := NameAt(name, t, |t|);
      && !v.step(last).Hop?
      && (HostsInZone(v, t) ==> Walk(v, true, name, left, FRESH) == Stop(v, true, last, FRESH))
      && (!HostsInZone(v, t) ==>
            Walk(v, true, name, left, FRESH).rcode == NoError && |Walk(v, true, name, left, FRESH).sections.answer| == 1)
    decreases left
  {
    if v.step(name).Hop? {
      var c := v.step(name).alias;
      var rest := Trail(v, c.next, left - 1);
      HostsCons(v, name, c, rest);
      FlatChainEnds(v, c.next, left - 1);
    } else {
      WalkStops(v, true, name, left, FRESH);
    }
  }

  // ---- Where records come from ----------------------------------------------------------

  ghost predicate LeafKeeps(v: View, owner: string, record: Record, p: RR -> bool) {
    var a := v.leaf(owner, record);
    a.Some? ==> forall i :: 0 <= i < |a.value.rrs| ==> p(a.value.rrs[i])
  }

  /** What holds of chain CNAMEs and of all leaf answers holds of the whole answer, in either mode. */
  lemma {:induction false} AnswerKeeps(v: View, flat: bool, name: string, left: nat, s: Sections, p: RR -> bool)
    requires forall i :: 0 <= i < |s.answer| ==> p(s.answer[i])
    requires forall owner, c :: p(CnameRR(v, owner, c))
    requires forall n, owner :: v.step(n).Leaf? ==> LeafKeeps(v, owner, v.step(n).record, p)
    ensures forall i :: 0 <= i < |Walk(v, flat, name, left, s).sections.answer| ==>
      p(Walk(v, flat, name, left, s).sections.answer[i])
    decreases left
  {
    if left == 0 {
    } else if v.step(name).Hop? {
      var c := v.step(name).alias;
      if !flat {
        AnswerKeeps(v, flat, c.next, left - 1, s.(answer := s.answer + [CnameRR(v, name, c)]), p);
      } else if v.inZone(c.host) {
        AnswerKeeps(v, flat, c.next, left - 1, s, p);
      }
    } else {
      WalkStops(v, flat, name, left, s);
      if v.step(name).Leaf? { assert LeafKeeps(v, if flat then v.qname else name, v.step(name).record, p); }
    }
  }

  /** The additional section is empty, or the glue of the delegation named in the authority section. */
  ghost predicate Referral(v: View, out: Outcome, n: string) {
    && v.step(n).Cut?
    && out.sections.additional == v.glue(v.step(n).record)
    && out.sections.authority == Build(v.maxTtl, n, NS, v.step(n).record.ns)
  }

  lemma {:induction false} AdditionalIsGlue(v: View, flat: bool, name: string, left: nat, acc: seq<RR>) returns (n: string)
    ensures var out := Walk(v, flat, name, left, Sections(acc, [], []));
      out.sections.additional == [] || Referral(v, out, n)
    decreases left
  {
    n := name;
    if left == 0 {
    } else if v.step(name).Hop? {
      var c := v.step(name).alias;
      if !flat {
        n := AdditionalIsGlue(v, flat, c.next, left - 1, acc + [CnameRR(v, name, c)]);
      } else if v.inZone(c.host) {
        n := AdditionalIsGlue(v, flat, c.next, left - 1, acc);
      }
    } else {
      WalkStops(v, flat, name, left, Sections(acc, [], []));
      if v.step(name).Cut? {
        var record := v.step(name).record;
        assert [] + Build(v.maxTtl, name, NS, record.ns) == Build(v.maxTtl, name, NS, record.ns);
        assert [] + v.glue(record) == v.glue(record);
      }
    }
  }

  // ---- Negative answers (sections 2.1 and 2.2 of RFC 2308) ------------------------------

  /** A success that says nothing: no answer, no SOA, no delegation. */
  predicate Silent(out: Outcome) {
    out.rcode == NoError && out.sections.answer == [] && out.sections.authority == []
  }

  /** The loop arrives, with nothing in the answer, at a delegation whose hosts are all empty. */
  ghost predicate EndsBlank(v: View, flat: bool, name: string, left: nat)
    decreases left
  {
    left > 0 &&
    match v.step(name)
    case Hop(c) => flat && v.inZone(c.host) && EndsBlank(v, flat, c.next, left - 1)
    case Cut(record) => forall i :: 0 <= i < |record.ns.data| ==> Skipped(record.ns.data[i])
    case _ => false
  }

  /** A host text that looks in-zone leads to an in-zone name. */
  ghost predicate HostsTrusted(v: View) {
    forall n :: v.step(n).Hop? && v.inZone(v.step(n).alias.host) ==> v.inZone(v.step(n).alias.next)
  }

  /** NXDOMAIN carries exactly the SOA; a success without answers carries the SOA or NS records. */
  ghost predicate NegativeIsProper(v: View, out: Outcome) {
    && (out.rcode == NXDomain ==> out.sections.authority == [v.soa])
    && (out.rcode == NoError && out.sections.answer == [] && !Silent(out) ==>
          out.sections.authority == [v.soa]
          || forall i :: 0 <= i < |out.sections.authority| ==> out.sections.authority[i].rrtype == NS)
  }

  lemma {:induction false} NegativeStop(v: View, flat: bool, name: string, acc: seq<RR>)
    requires Lawful(v) && !v.step(name).Hop? && (v.inZone(name) || acc != [])
    ensures NegativeIsProper(v, Stop(v, flat, name, Sections(acc, [], [])))
    ensures Silent(Stop(v, flat, name, Sections(acc, [], []))) <==> acc == [] && EndsBlank(v, flat, name, 1)
  {
    match v.step(name)
    case Leaf(record) =>
      var owner := if flat then v.qname else name;
      assert LeafLaw(v, owner, owner, record);
    case Cut(record) =>
      var ns := Build(v.maxTtl, name, NS, record.ns);
      assert [] + ns == ns;
    case _ =>
  }

  lemma {:induction false} NegativeAnswers(v: View, flat: bool, name: string, left: nat, acc: seq<RR>)
    requires Lawful(v) && (flat ==> HostsTrusted(v)) && (v.inZone(name) || acc != [])
    ensures var out := Walk(v, flat, name, left, Sections(acc, [], []));
      NegativeIsProper(v, out) && (Silent(out) <==> acc == [] && EndsBlank(v, flat, name, left))
    decreases left
  {
    if left == 0 {
    } else {
      if v.step(name).Hop? {
        var c := v.step(name).alias;
        if !flat {
          NegativeAnswers(v, flat, c.next, left - 1, acc + [CnameRR(v, name, c)]);
        } else if v.inZone(c.host) {
          NegativeAnswers(v, flat, c.next, left - 1, acc);
        }
      } else {
        WalkStops(v, flat, name, left, Sections(acc, [], []));
        NegativeStop(v, flat, name, acc);
      }
    }
  }
}
