/**
 One concrete world for the two ways in which flattening departs from the unflattened meaning.
 Zone "z." holds the aliases a -> b -> ... -> k -> o. (eleven of them, the last one leaving the
 zone), the alias u -> l.z stored without its trailing dot, and a text record at l.
 */
module Departures {
  import opened Names
  import opened Records
  import opened World
  import opened Walks
  import opened Flattening
  import Locations
  import ZoneIndex
  import RecordCache
  import Resolver

  function Name(c: char): string {
    [c] + ".z."
  }

  function Succ(c: char): char
    requires c < 'z'
  {
    (c as int + 1) as char
  }

  /** The CNAME host stored at a letter. */
  function HostAt(c: char): string
    requires 'a' <= c <= 'k' || c == 'u'
  {
    if c == 'u' then "l.z" else if c == 'k' then "o." else Name(Succ(c))
  }

  function RecordOf(l: string): Record {
    var empty := RecordCache.Default(l + ".z.");
    if |l| == 1 && ('a' <= l[0] <= 'k' || l[0] == 'u') then empty.(cname := Some(HostRef(HostAt(l[0]), 0)))
    else empty.(txt := RRSet(0, [Text("t")]))
  }

  ghost function Letters(): set<string> {
    (set c: char | 'a' <= c <= 'l' :: [c]) + {"u"}
  }

  ghost function TheZone(): ZoneData {
    var none := KeyRef("", 0, "");
    ZoneData(Zone("z.", Letters(), false, false, 300, "", 300, none, none), map l | l in Letters() :: RecordOf(l))
  }

  ghost function TheWorld(): World {
    World({"z."}, map["z." := TheZone()], 300, (name, ips) => [], (name, qtype) => Reply([], ServFail))
  }

  ghost function TheView(qname: string): View {
    Resolver.ViewOf(TheWorld(), TheZone(), qname, TXT)
  }

  // ---- What stands at each name --------------------------------------------------------

  lemma {:induction false} LetterIsOwned(c: char)
    ensures ZoneIndex.FindZone({"z."}, Name(c)) == "z."
    ensures Name(c) != "z." && TrimSuffix(Name(c), ".z.") == [c]
    ensures HasSuffix(Name(c), ".")
  {
    SuffixJoin([c], "z.");
    assert Name(c) == [c] + "." + "z.";
    assert ".z." == "." + "z.";
    ZoneIndex.FindZoneUnique({"z."}, Name(c), "z.");
    assert Name(c)[3..] == ".";
  }

  lemma {:induction false} OutsideIsNotOwned(name: string)
    requires name == "o." || name == "l.z"
    ensures ZoneIndex.FindZone({"z."}, name) == ""
  {
    Locations.NotBelow(name, "z.");
  }

  lemma {:induction false} LetterIsFound(c: char)
    requires [c] in Letters()
    ensures Locations.FindLocation("z.", Letters(), Name(c)) == ([c], Locations.ExactMatch)
  {
    LetterIsOwned(c);
    assert "." + "z." == ".z.";
  }

  lemma {:induction false} AliasStep(c: char)
    requires 'a' <= c <= 'k' || c == 'u'
    ensures Resolver.StepAt(TheWorld(), TheZone(), TXT, Name(c)) == Hop(Alias(HostAt(c), 0, Fqdn(HostAt(c))))
  {
    assert [c] in Letters();
    LetterIsOwned(c);
    LetterIsFound(c);
  }

  lemma {:induction false} LeafStep()
    ensures Resolver.StepAt(TheWorld(), TheZone(), TXT, Name('l')) == Leaf(RecordOf("l"))
  {
    assert ['l'] in Letters();
    LetterIsOwned('l');
    LetterIsFound('l');
  }

  // ---- The eleventh alias leaves the zone ----------------------------------------------

  function Exit(owner: string): RR {
    RR(owner, CNAME, 300, Target("o."))
  }

  /** The chain as a request sees it. */
  ghost predicate Row(v: View) {
    && v.maxTtl == 300 && v.step(Name('k')) == Hop(Alias("o.", 0, "o.")) && !v.inZone("o.")
    && forall c :: 'a' <= c < 'k' ==> Linked(v, c)
  }

  /** The alias at one letter leads to the next letter. */
  ghost predicate Linked(v: View, c: char)
    requires c < 'z'
  {
    var next := Name(Succ(c));
    v.step(Name(c)) == Hop(Alias(next, 0, next)) && v.inZone(next)
  }

  lemma {:induction false} LinkIsStored(qname: string, c: char)
    requires 'a' <= c < 'k'
    ensures Linked(TheView(qname), c)
  {
    var next := Name(Succ(c));
    LinkStep(c, Succ(c), next);
    Judged(TheWorld(), TheZone(), qname, Name(c), Alias(next, 0, next));
  }

  lemma {:induction false} LinkStep(c: char, next: char, name: string)
    requires 'a' <= c < 'k' && next == Succ(c) && name == Name(next)
    ensures Resolver.StepAt(TheWorld(), TheZone(), TXT, Name(c)) == Hop(Alias(name, 0, name))
    ensures ZoneIndex.FindZone(TheWorld().zones, name) == TheZone().zone.name
  {
    NextHost(c, next, name);
    AliasStep(c);
    LetterIsOwned(next);
  }

  lemma {:induction false} NextHost(c: char, next: char, name: string)
    requires 'a' <= c < 'k' && next == Succ(c) && name == Name(next)
    ensures HostAt(c) == name && Fqdn(name) == name
  {
    LetterIsOwned(next);
  }

  lemma {:induction false} Judged(w: World, zd: ZoneData, qname: string, name: string, c: Alias)
    requires Resolver.StepAt(w, zd, TXT, name) == Hop(c)
    ensures var v := Resolver.ViewOf(w, zd, qname, TXT);
      v.step(name) == Hop(c) && (v.inZone(c.host) <==> ZoneIndex.FindZone(w.zones, c.host) == zd.zone.name)
  {
  }

  lemma {:induction false} RowIsStored(qname: string)
    ensures Row(TheView(qname))
  {
    forall c | 'a' <= c < 'k' ensures Linked(TheView(qname), c) { LinkIsStored(qname, c); }
    AliasStep('k');
    OutsideIsNotOwned("o.");
  }

  /** From letter c, with just enough rounds to reach k: the plain run gives up, the flattened one exits. */
  lemma {:induction false} ToTheExit(v: View, c: char, left: nat, s: Sections)
    requires Row(v) && 'a' <= c <= 'k' && left == 'k' as int - c as int + 1
    ensures Walk(v, false, Name(c), left, s) == GivenUp(s)
    ensures Walk(v, true, Name(c), left, FRESH) == Outcome(NoError, FRESH.(answer := [Exit(v.qname)]))
    decreases left
  {
    if c == 'k' {
      LastHop(v, Name(c), s);
    } else {
      var next := Succ(c);
      assert Linked(v, c);
      var alias := Alias(Name(next), 0, Name(next));
      WalkHops(v, Name(c), left, s, alias);
      FlatHops(v, Name(c), left, alias);
      ToTheExit(v, next, left - 1, s.(answer := s.answer + [CnameRR(v, Name(c), alias)]));
    }
  }

  lemma {:induction false} LastHop(v: View, name: string, s: Sections)
    requires v.step(name) == Hop(Alias("o.", 0, "o.")) && !v.inZone("o.") && v.maxTtl == 300
    ensures Walk(v, false, name, 1, s) == GivenUp(s)
    ensures Walk(v, true, name, 1, FRESH) == Outcome(NoError, FRESH.(answer := [Exit(v.qname)]))
  {
    WalkHops(v, name, 1, s, Alias("o.", 0, "o."));
    assert [] + [Exit(v.qname)] == [Exit(v.qname)];
  }

  lemma {:induction false} FromTheFirst(qname: string, left: nat)
    requires qname == Name('a') && left == ROUNDS
    ensures Walk(TheView(qname), false, qname, left, FRESH) == Outcome(ServFail, FRESH)
    ensures Walk(TheView(qname), true, qname, left, FRESH) == Outcome(NoError, FRESH.(answer := [Exit(qname)]))
  {
    RowIsStored(qname);
    ToTheExit(TheView(qname), 'a', left, FRESH);
  }

  /** Eleven aliases, the last one out of the zone: SERVFAIL unflattened, one CNAME flattened. */
  lemma {:induction false} EleventhAliasExits(qname: string)
    requires qname == "a.z."
    ensures var plain := Resolver.Resolve(TheWorld(), TheZone(), qname, TXT, false);
      var flat := Resolver.Resolve(TheWorld(), TheZone(), qname, TXT, true);
      && plain == Outcome(ServFail, FRESH)
      && flat == Outcome(NoError, FRESH.(answer := [Exit(qname)]))
      && !SameMeaning(TheView(qname), flat, plain)
  {
    FromTheFirst(qname, ROUNDS);
  }

  // ---- A host without its trailing dot --------------------------------------------------

  /** u -> l.z: the text behind it unflattened, a CNAME into the zone itself flattened. */
  lemma {:induction false} UnqualifiedHostExits(qname: string)
    requires qname == "u.z."
    ensures var plain := Resolver.Resolve(TheWorld(), TheZone(), qname, TXT, false);
      var flat := Resolver.Resolve(TheWorld(), TheZone(), qname, TXT, true);
      && plain.rcode == flat.rcode == NoError
      && plain.sections == FRESH.(answer := [RR(qname, CNAME, 300, Target("l.z.")), RR("l.z.", TXT, 300, Text("t"))])
      && flat.sections == FRESH.(answer := [RR(qname, CNAME, 300, Target("l.z."))])
      && !SameMeaning(TheView(qname), flat, plain)
  {
    var v := TheView(qname);
    assert Name('u') == qname && Name('l') == "l.z.";
    AliasStep('u');
    LeafStep();
    OutsideIsNotOwned("l.z");
    LetterIsOwned('u');
    LetterIsOwned('l');
    DotAdded();
    TextAt("l.z.");
    var c := Alias("l.z", 0, "l.z.");
    OneAlias(v, c, RecordOf("l"), RR("l.z.", TXT, 300, Text("t")), ROUNDS);
    Resolver.ViewIsLawful(TheWorld(), TheZone(), qname, TXT);
    MisjudgedAliasShows(v, c);
  }

  lemma {:induction false} DotAdded()
    ensures Fqdn("l.z") == "l.z."
  {
    assert !HasSuffix("l.z", ".") by { assert "l.z"[2..][0] != '.'; }
  }

  lemma {:induction false} TextAt(owner: string)
    ensures Resolver.LeafAnswer(TheWorld(), TheZone(), TXT, owner, RecordOf("l")) ==
            Some(Answered([RR(owner, TXT, 300, Text("t"))], NoError))
  {
    var data := [Text("t")];
    assert data[1..] == [];
    assert BuildFrom(owner, TXT, 300, []) == [];
    assert BuildFrom(owner, TXT, 300, data) == [RR(owner, TXT, 300, Text("t"))];
  }

  lemma {:induction false} OneAlias(v: View, c: Alias, record: Record, text: RR, left: nat)
    requires v.step(v.qname) == Hop(c) && !v.inZone(c.host) && v.step(c.next) == Leaf(record)
    requires v.leaf(c.next, record) == Some(Answered([text], NoError)) && left >= 2
    ensures Walk(v, false, v.qname, left, FRESH) ==
            Outcome(NoError, FRESH.(answer := [CnameRR(v, v.qname, c), text]))
    ensures Walk(v, true, v.qname, left, FRESH) == Outcome(NoError, FRESH.(answer := [CnameRR(v, v.qname, c)]))
  {
    var rr := CnameRR(v, v.qname, c);
    assert [] + [rr] == [rr] && [rr] + [text] == [rr, text];
    WalkHops(v, v.qname, left, FRESH, c);
    WalkStops(v, false, c.next, left - 1, FRESH.(answer := [rr]));
  }
}
