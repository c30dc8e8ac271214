/**
 Zone.FindLocation of handler/zone.go, and the wildcard rule of section 3.3.1 of
 RFC 4592 that it is meant to follow.
 */
module Locations {
  import opened Names

  datatype Match = ExactMatch | WildCardMatch | NoMatch

  predicate KeyMatches(locs: set<string>, key: string) {
    exists v :: v in locs && HasSuffix(v, key)
  }

  /** The candidate closest encloser and its source of synthesis. */
  function SplitQuery(q: string): (string, string)
    requires q != ""
  {
    var d := FirstDot(q);
    if d < |q| then (q[d + 1..], "*." + q[d + 1..]) else ("", "*")
  }

  function Search(locs: set<string>, q: string): (string, Match)
    decreases |q|
  {
    if q == "" then ("", NoMatch)
    else
      var (ce, ss) := SplitQuery(q);
      if KeyMatches(locs, ce) || ce in locs then
        if ss in locs then (ss, WildCardMatch) else ("", NoMatch)
      else Search(locs, ce)
  }

  function FindRelative(locs: set<string>, q: string): (string, Match) {
    if q in locs then (q, ExactMatch) else Search(locs, q)
  }

  function FindLocation(zone: string, locs: set<string>, query: string): (string, Match) {
    if query == zone then (query, ExactMatch)
    else FindRelative(locs, TrimSuffix(query, "." + zone))
  }

  // ---- The loops -----------------------------------------------------------

  method ScanKeys(locs: set<string>, key: string) returns (found: bool)
    ensures found <==> KeyMatches(locs, key)
  {
    var rest := locs;
    while rest != {}
      invariant rest <= locs
      invariant forall v :: v in locs - rest ==> !HasSuffix(v, key)
      decreases rest
    {
      var value :| value in rest;
      if HasSuffix(value, key) { return true; }
      rest := rest - {value};
    }
    found := false;
  }

  method Find(zone: string, locs: set<string>, query: string) returns (location: string, m: Match)
    ensures (location, m) == FindLocation(zone, locs, query)
  {
    if query == zone { return query, ExactMatch; }
    var q := TrimSuffix(query, "." + zone);
    if q in locs { return q, ExactMatch; }
    var ce, ss, ok := "", "", q != "";
    if ok { var p := SplitQuery(q); ce, ss := p.0, p.1; }
    ghost var current := q;
    while ok
      invariant ok <==> current != ""
      invariant ok ==> (ce, ss) == SplitQuery(current)
      invariant Search(locs, q) == Search(locs, current)
      decreases |current|
    {
      var matches := ScanKeys(locs, ce);
      var ceExists, ssExists := matches || ce in locs, ss in locs;
      if ceExists {
        if ssExists { return ss, WildCardMatch; }
        return "", NoMatch;
      }
      current := ce;
      ok := ce != "";
      if ok { var p := SplitQuery(ce); ce, ss := p.0, p.1; }
    }
    return "", NoMatch;
  }

  // ---- The rule of RFC 4592 over label sequences ---------------------------

  datatype Lookup = Found(owner: string) | EmptyNonTerminal | Synthesized(source: string) | Denied

  /** A domain name exists when it owns records or has a descendant that does. */
  ghost predicate NodeExists(locs: set<string>, ls: seq<string>) {
    exists v :: v in locs && LabelSuffix(Labels(v), ls)
  }

  /** The longest existing name among `ls` and its ancestors; the apex, [], always exists. */
  ghost function Encloser(locs: set<string>, ls: seq<string>): seq<string> {
    if ls == [] || NodeExists(locs, ls) then ls else Encloser(locs, ls[1..])
  }

  lemma {:induction false} EncloserIsAncestor(locs: set<string>, ls: seq<string>)
    ensures LabelSuffix(ls, Encloser(locs, ls))
    ensures Encloser(locs, ls) == [] || NodeExists(locs, Encloser(locs, ls))
    decreases |ls|
  {
    if ls == [] || NodeExists(locs, ls) {
      assert ls[0..] == ls;
    } else {
      EncloserIsAncestor(locs, ls[1..]);
      SuffixOfRest(ls, Encloser(locs, ls[1..]));
    }
  }

  lemma {:induction false} SuffixOfRest(ls: seq<string>, e: seq<string>)
    requires ls != [] && LabelSuffix(ls[1..], e)
    ensures LabelSuffix(ls, e)
  {
    assert ls[1..][|ls| - 1 - |e|..] == ls[|ls| - |e|..];
  }

  lemma {:induction false} EncloserIsLongest(locs: set<string>, ls: seq<string>, k: nat)
    requires k <= |ls| && NodeExists(locs, ls[k..])
    ensures |ls| - k <= |Encloser(locs, ls)|
    decreases |ls|
  {
    if ls == [] || NodeExists(locs, ls) {
    } else {
      assert ls[0..] == ls;
      assert ls[1..][k - 1..] == ls[k..];
      EncloserIsLongest(locs, ls[1..], k - 1);
    }
  }

  ghost function Source(locs: set<string>, q: string): string {
    Join(["*"] + Encloser(locs, Labels(q)[1..]))
  }

  ghost function Rfc4592(locs: set<string>, q: string): Lookup {
    if q in locs then Found(q)
    else if NodeExists(locs, Labels(q)) then EmptyNonTerminal
    else if Source(locs, q) in locs then Synthesized(Source(locs, q))
    else Denied
  }

  ghost predicate Agrees(r: (string, Match), rule: Lookup) {
    match rule
    case Found(owner) => r == (owner, ExactMatch)
    case Synthesized(source) => r == (source, WildCardMatch)
    case Denied => r == ("", NoMatch)
    case EmptyNonTerminal => false  // neither a miss nor the records of another owner is right
  }

  // ---- When the two agree --------------------------------------------------

  /** A location ends in the text of `ls` without lying at or below the name `ls`. */
  ghost predicate TextualOnly(locs: set<string>, ls: seq<string>) {
    KeyMatches(locs, Join(ls)) && !NodeExists(locs, ls)
  }

  /** The search stops at an ancestor that does not exist (or never starts, on ""). */
  ghost predicate Misled(locs: set<string>, q: string) {
    q == "" || exists k :: 1 <= k < |Labels(q)| && TextualOnly(locs, Labels(q)[k..])
  }

  lemma {:induction false} NodeExistsText(locs: set<string>, s: string)
    ensures NodeExists(locs, Labels(s)) <==> exists v :: v in locs && Under(v, s)
    ensures NodeExists(locs, Labels(s)) ==> KeyMatches(locs, s)
  {
    forall v | v in locs ensures LabelSuffix(Labels(v), Labels(s)) <==> Under(v, s) {
      UnderIsLabelSuffix(v, s);
    }
    if NodeExists(locs, Labels(s)) {
      var v :| v in locs && Under(v, s);
      if v != s {
        var x := SuffixSplit(v, s);
      }
      assert HasSuffix(v, s);
    }
  }

  lemma {:induction false} ExistsUpward(locs: set<string>, ls: seq<string>, k: nat)
    requires k <= |ls| && NodeExists(locs, ls)
    ensures NodeExists(locs, ls[k..])
  {
    var v :| v in locs && LabelSuffix(Labels(v), ls);
    LabelSuffixDrop(Labels(v), ls, k);
  }

  lemma {:induction false} LabelSuffixDrop(vs: seq<string>, ls: seq<string>, k: nat)
    requires k <= |ls| && LabelSuffix(vs, ls)
    ensures LabelSuffix(vs, ls[k..])
  {
    var n := |vs| - |ls|;
    assert vs[n..][k..] == vs[n + k..];
  }

  lemma {:induction false} WildcardText(locs: set<string>, ce: string)
    ensures Join(["*"] + Labels(ce)) == "*." + ce
    ensures "*." + ce in locs ==> NodeExists(locs, Labels(ce))
  {
    JoinLabels(ce);
    JoinConcat(["*"], Labels(ce));
    SuffixJoin("*", ce);
    if "*." + ce in locs {
      assert Under("*." + ce, ce);
      NodeExistsText(locs, ce);
    }
  }

  lemma {:induction false} SearchMeaning(locs: set<string>, q: string)
    ensures Misled(locs, q) ==> Search(locs, q) == ("", NoMatch)
    ensures !Misled(locs, q) ==>
      Search(locs, q) == if Source(locs, q) in locs then (Source(locs, q), WildCardMatch) else ("", NoMatch)
    decreases |q|
  {
    if q == "" {
    } else if FirstDot(q) == |q| {
      assert Labels(q) == [q];
      if locs == {} {
        assert Search(locs, "") == ("", NoMatch);
      } else {
        var v :| v in locs;
        assert HasSuffix(v, "");
      }
      assert ["*"] + [] == ["*"];
    } else {
      var ce := q[FirstDot(q) + 1..];
      assert Labels(q)[1..] == Labels(ce);
      SearchStep(locs, q, ce);
      if !NodeExists(locs, Labels(ce)) && !KeyMatches(locs, ce) {
        SearchMeaning(locs, ce);
      }
    }
  }

  lemma {:induction false} SearchStep(locs: set<string>, q: string, ce: string)
    requires FirstDot(q) < |q| && ce == q[FirstDot(q) + 1..]
    ensures NodeExists(locs, Labels(ce)) ==> !Misled(locs, q) && Source(locs, q) == "*." + ce && KeyMatches(locs, ce)
    ensures !NodeExists(locs, Labels(ce)) && KeyMatches(locs, ce) ==> Misled(locs, q) && "*." + ce !in locs
    ensures !NodeExists(locs, Labels(ce)) && !KeyMatches(locs, ce) ==> ce !in locs
    ensures !NodeExists(locs, Labels(ce)) && !KeyMatches(locs, ce) ==>
      if ce == "" then !Misled(locs, q) && locs == {}
      else (Misled(locs, q) <==> Misled(locs, ce)) && Source(locs, q) == Source(locs, ce)
  {
    var ls := Labels(q);
    assert ls[1..] == Labels(ce);
    JoinLabels(ce);
    NodeExistsText(locs, ce);
    WildcardText(locs, ce);
    assert ce in locs ==> Under(ce, ce);
    forall k | 1 <= k < |ls| ensures ls[k..] == Labels(ce)[k - 1..] { }
    assert Labels(ce)[0..] == Labels(ce);
    if NodeExists(locs, Labels(ce)) {
      forall k | 1 <= k < |ls| ensures !TextualOnly(locs, ls[k..]) {
        ExistsUpward(locs, Labels(ce), k - 1);
      }
    } else if KeyMatches(locs, ce) {
      assert TextualOnly(locs, ls[1..]);
    } else {
      forall k | 1 <= k < |Labels(ce)| ensures Labels(ce)[k..] == ls[k + 1..] { }
      if ce == "" {
        assert forall v :: v in locs ==> HasSuffix(v, ce);
        assert locs == {};
      }
    }
  }

  /**
   FindLocation follows RFC 4592 exactly when the name is not an empty non-terminal and,
   if the rule synthesises an answer, no ancestor merely looks enclosed because some
   location ends in its text off a label boundary.
   */
  lemma {:induction false} FindRelativeIffRfc4592(locs: set<string>, q: string)
    ensures Agrees(FindRelative(locs, q), Rfc4592(locs, q)) <==>
      (q in locs || (!NodeExists(locs, Labels(q)) && (Source(locs, q) in locs ==> !Misled(locs, q))))
  {
    SearchMeaning(locs, q);
  }

  /** The same for a query as it arrives, the apex included. */
  lemma {:induction false} FindLocationIffRfc4592(zone: string, locs: set<string>, query: string)
    ensures query == zone ==> FindLocation(zone, locs, query) == (zone, ExactMatch)
    ensures query != zone ==>
      var q := TrimSuffix(query, "." + zone);
      (Agrees(FindLocation(zone, locs, query), Rfc4592(locs, q)) <==>
        (q in locs || (!NodeExists(locs, Labels(q)) && (Source(locs, q) in locs ==> !Misled(locs, q)))))
  {
    FindRelativeIffRfc4592(locs, TrimSuffix(query, "." + zone));
  }

  /** Off a label boundary: "xb" ends in "b" but does not make the name "b" exist. */
  lemma {:induction false} DepartureOffBoundary(locs: set<string>, q: string, ce: string)
    requires locs == {"*", "xb"} && q == "a.b" && ce == "b"
    ensures FindRelative(locs, q) == ("", NoMatch)
    ensures Rfc4592(locs, q) == Synthesized("*")
  {
    OffBoundaryFacts(locs, q, ce);
    StoppedShort(locs, q, ce);
  }

  lemma {:induction false} StoppedShort(locs: set<string>, q: string, ce: string)
    requires q !in locs && "*" in locs && q != "" && SplitQuery(q) == (ce, "*." + ce)
    requires KeyMatches(locs, ce) && "*." + ce !in locs
    requires Labels(q)[1..] == [ce] && !NodeExists(locs, [ce]) && !NodeExists(locs, Labels(q))
    ensures FindRelative(locs, q) == ("", NoMatch)
    ensures Rfc4592(locs, q) == Synthesized("*")
  {
    assert [ce][1..] == [];
    assert Encloser(locs, [ce]) == [];
    assert ["*"] + [] == ["*"];
  }

  lemma {:induction false} OffBoundaryFacts(locs: set<string>, q: string, ce: string)
    requires locs == {"*", "xb"} && q == "a.b" && ce == "b"
    ensures q !in locs && "*" in locs && q != "" && SplitQuery(q) == (ce, "*." + ce)
    ensures KeyMatches(locs, ce) && "*." + ce !in locs
    ensures Labels(q)[1..] == [ce] && !NodeExists(locs, [ce]) && !NodeExists(locs, Labels(q))
  {
    OffBoundaryLabels(q, ce);
    OffBoundaryMembers(locs, q, ce);
    NodeExistsText(locs, ce);
    NodeExistsText(locs, q);
    WildcardText(locs, ce);
  }

  lemma {:induction false} OffBoundaryMembers(locs: set<string>, q: string, ce: string)
    requires locs == {"*", "xb"} && q == "a.b" && ce == "b"
    ensures q !in locs && "*" in locs && q != "" && KeyMatches(locs, ce)
    ensures forall v :: v in locs ==> !Under(v, ce) && !Under(v, q)
  {
    NotBelow("xb", ce);
    NotBelow("*", ce);
    NotBelow("xb", q);
    NotBelow("*", q);
    assert HasSuffix("xb", ce);
  }

  lemma {:induction false} NotBelow(v: string, s: string)
    requires v != s && |v| <= |s| + 1 && v != "" && v[0] != '.'
    ensures !Under(v, s)
  {
    assert v[0..][0] == v[0];
  }

  lemma {:induction false} OffBoundaryLabels(q: string, ce: string)
    requires q == "a.b" && ce == "b"
    ensures SplitQuery(q) == (ce, "*." + ce) && Labels(ce) == [ce] && Labels(q)[1..] == [ce]
  {
    FirstDotUnique(q, 1);
    FirstDotUnique(ce, 1);
    assert q[2..] == ce;
  }

  /** An empty non-terminal is answered from the wildcard that it blocks. */
  lemma {:induction false} DepartureEmptyNonTerminal(locs: set<string>)
    requires locs == {"*", "a.b"}
    ensures FindRelative(locs, "b") == ("*", WildCardMatch)
    ensures Rfc4592(locs, "b") == EmptyNonTerminal
  {
    assert HasSuffix("*", "");
    assert KeyMatches(locs, "");
    SuffixJoin("a", "b");
    assert "a.b" in locs && Under("a.b", "b");
    NodeExistsText(locs, "b");
  }

  // ---- What holds with no hypothesis ---------------------------------------

  /** Any match names the apex or a stored location, so loading it cannot fail for lack of a label. */
  lemma {:induction false} MatchIsStored(zone: string, locs: set<string>, query: string)
    ensures var (location, m) := FindLocation(zone, locs, query);
      && (m == NoMatch ==> location == "")
      && (m == ExactMatch ==> location == query == zone || (location == TrimSuffix(query, "." + zone) && location in locs))
      && (m == WildCardMatch ==> location in locs)
  {
    if query != zone {
      SearchIsStored(locs, TrimSuffix(query, "." + zone));
    }
  }

  lemma {:induction false} SearchIsStored(locs: set<string>, q: string)
    ensures Search(locs, q).1 != ExactMatch
    ensures Search(locs, q).1 == WildCardMatch ==> Search(locs, q).0 in locs
    ensures Search(locs, q).1 == NoMatch ==> Search(locs, q).0 == ""
    decreases |q|
  {
    if q == "" {
    } else {
      var (ce, ss) := SplitQuery(q);
      if !(KeyMatches(locs, ce) || ce in locs) { SearchIsStored(locs, ce); }
    }
  }
}
