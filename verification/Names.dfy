/**
 Domain names as text, the way the handler treats them: dot-separated labels,
 compared by suffix.  `Labels` gives the label view that the DNS standards speak of.
 */
module Names {

  predicate HasSuffix(s: string, t: string) {
    |t| <= |s| && s[|s| - |t|..] == t
  }

  function TrimSuffix(s: string, t: string): string {
    if HasSuffix(s, t) then s[..|s| - |t|] else s
  }

  /** `name` is `ancestor`, or lies below it on a label boundary. */
  predicate Under(name: string, ancestor: string) {
    name == ancestor || HasSuffix(name, "." + ancestor)
  }

  function Fqdn(s: string): (r: string)
    ensures HasSuffix(r, ".") && (r == s || r == s + ".")
    ensures HasSuffix(s, ".") ==> r == s
  {
    if HasSuffix(s, ".") then s else s + "."
  }

  /** Position of the first dot, or the length when there is none. */
  function FirstDot(s: string): (n: nat)
    ensures n <= |s| && '.' !in s[..n]
    ensures n < |s| ==> s[n] == '.'
  {
    if s == "" || s[0] == '.' then 0 else 1 + FirstDot(s[1..])
  }

  function Labels(s: string): (ls: seq<string>)
    ensures |ls| > 0
    decreases |s|
  {
    var d := FirstDot(s);
    if d == |s| then [s] else [s[..d]] + Labels(s[d + 1..])
  }

  function Join(ls: seq<string>): string
  {
    if |ls| == 0 then "" else if |ls| == 1 then ls[0] else ls[0] + "." + Join(ls[1..])
  }

  function Dots(s: string): nat {
    if s == "" then 0 else (if s[0] == '.' then 1 else 0) + Dots(s[1..])
  }

  /** The label sequence `ls` ends with `suffix`. */
  predicate LabelSuffix(ls: seq<string>, suffix: seq<string>) {
    |suffix| <= |ls| && ls[|ls| - |suffix|..] == suffix
  }

  lemma {:induction false} FirstDotUnique(s: string, n: nat)
    requires n <= |s| && '.' !in s[..n] && (n < |s| ==> s[n] == '.')
    ensures FirstDot(s) == n
  {
  }

  lemma {:induction false} JoinLabels(s: string)
    ensures Join(Labels(s)) == s
    decreases |s|
  {
    var d := FirstDot(s);
    if d == |s| {
    } else {
      JoinLabels(s[d + 1..]);
      JoinCons(s[..d], Labels(s[d + 1..]));
      Rejoined(s, d);
    }
  }

  lemma {:induction false} JoinCons(l: string, ls: seq<string>)
    requires |ls| > 0
    ensures Join([l] + ls) == l + "." + Join(ls)
  {
    assert ([l] + ls)[1..] == ls;
  }

  lemma {:induction false} Rejoined(s: string, d: nat)
    requires d < |s| && s[d] == '.'
    ensures s == s[..d] + "." + s[d + 1..]
  {
  }

  lemma {:induction false} LabelsConcat(x: string, y: string)
    ensures Labels(x + "." + y) == Labels(x) + Labels(y)
    decreases |x|
  {
    var s, d := x + "." + y, FirstDot(x);
    assert s[..d] == x[..d];
    FirstDotUnique(s, d);
    if d == |x| {
      assert s[..d] == x && s[d + 1..] == y;
    } else {
      assert s[d + 1..] == x[d + 1..] + "." + y;
      LabelsConcat(x[d + 1..], y);
    }
  }

  lemma {:induction false} JoinConcat(p: seq<string>, q: seq<string>)
    requires |p| > 0 && |q| > 0
    ensures Join(p + q) == Join(p) + "." + Join(q)
  {
    if |p| == 1 {
      assert (p + q)[1..] == q;
    } else {
      assert (p + q)[1..] == p[1..] + q;
      JoinConcat(p[1..], q);
    }
  }

  lemma {:induction false} SuffixSplit(s: string, a: string) returns (x: string)
    requires HasSuffix(s, "." + a)
    ensures s == x + "." + a
  {
    x := s[..|s| - |a| - 1];
    assert s == x + s[|s| - |a| - 1..];
  }

  lemma {:induction false} SuffixJoin(x: string, a: string)
    ensures HasSuffix(x + "." + a, "." + a)
    ensures TrimSuffix(x + "." + a, "." + a) == x
  {
    var s := x + "." + a;
    assert s[|s| - |a| - 1..] == "." + a;
  }

  /** Textual "equal, or ends in dot plus ancestor" is exactly the suffix relation on labels. */
  lemma {:induction false} UnderIsLabelSuffix(name: string, ancestor: string)
    ensures Under(name, ancestor) <==> LabelSuffix(Labels(name), Labels(ancestor))
  {
    var ls, anc := Labels(name), Labels(ancestor);
    JoinLabels(name);
    JoinLabels(ancestor);
    if HasSuffix(name, "." + ancestor) {
      var x := SuffixSplit(name, ancestor);
      LabelsConcat(x, ancestor);
    }
    if LabelSuffix(ls, anc) {
      var p := ls[..|ls| - |anc|];
      assert ls == p + anc;
      if |p| > 0 {
        JoinConcat(p, anc);
        SuffixJoin(Join(p), ancestor);
      } else {
        assert ls == anc;
      }
    }
  }

  lemma {:induction false} UnderTransitive(a: string, b: string, c: string)
    requires Under(a, b) && Under(b, c)
    ensures Under(a, c)
  {
    if a != b && b != c {
      var x := SuffixSplit(a, b);
      var y := SuffixSplit(b, c);
      assert a == (x + "." + y) + "." + c;
      SuffixJoin(x + "." + y, c);
    }
  }

  /** Two ancestors of one name: the shorter encloses the longer. */
  lemma {:induction false} UnderNested(name: string, a: string, b: string)
    requires Under(name, a) && Under(name, b) && |a| <= |b|
    ensures Under(b, a)
  {
    if name != a && name != b && |a| < |b| {
      var x := SuffixSplit(name, a);
      var y := SuffixSplit(name, b);
      var k := |b| - |a|;
      assert b == name[|name| - |b|..];
      assert b[k - 1..] == name[|name| - |a| - 1..] == "." + a;
    } else if name == b && name != a {
    } else if |a| == |b| && name != a {
      assert a == name[|name| - |a|..] == b;
    }
  }

  lemma {:induction false} DotsConcat(x: string, y: string)
    ensures Dots(x + y) == Dots(x) + Dots(y)
  {
    if x == "" {
      assert x + y == y;
    } else {
      assert (x + y)[1..] == x[1..] + y;
      DotsConcat(x[1..], y);
    }
  }
}
