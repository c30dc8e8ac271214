/** OrderIps of handler/handler.go: which address leads, and in what rotation. */
module Selection {
  import opened Records

  datatype Color = White | Grey | Black

  /** Indices of the white entries from position `i` on, in order. */
  function WhitesFrom(mask: seq<Color>, i: nat): (ws: seq<nat>)
    requires i <= |mask|
    ensures forall k :: 0 <= k < |ws| ==> i <= ws[k] < |mask| && mask[ws[k]] == White
    decreases |mask| - i
  {
    if i == |mask| then [] else (if mask[i] == White then [i] else []) + WhitesFrom(mask, i + 1)
  }

  function Whites(mask: seq<Color>): seq<nat> {
    WhitesFrom(mask, 0)
  }

  function WhitesTo(mask: seq<Color>, i: nat): (ws: seq<nat>)
    requires i <= |mask|
    ensures forall k :: 0 <= k < |ws| ==> 0 <= ws[k] < i && mask[ws[k]] == White
  {
    if i == 0 then [] else WhitesTo(mask, i - 1) + (if mask[i - 1] == White then [i - 1] else [])
  }

  /** Total weight of the white entries before position `i`. */
  function WeightTo(mask: seq<Color>, data: seq<IpRR>, i: nat): int
    requires i <= |mask| == |data|
  {
    if i == 0 then 0
    else WeightTo(mask, data, i - 1) + (if mask[i - 1] == White then data[i - 1].weight else 0)
  }

  /** The first white entry at which the running remainder drops below zero, or -1. */
  function PickWeighted(mask: seq<Color>, data: seq<IpRR>, s: int, i: nat): (r: int)
    requires i <= |mask| == |data|
    ensures -1 <= r < |mask| && (r >= 0 ==> i <= r && mask[r] == White)
    decreases |mask| - i
  {
    if i == |mask| then -1
    else if mask[i] != White then PickWeighted(mask, data, s, i + 1)
    else if s - data[i].weight < 0 then i
    else PickWeighted(mask, data, s - data[i].weight, i + 1)
  }

  /** The white entry of rank `r`, or -1. */
  function PickRank(mask: seq<Color>, r: int, i: nat): (k: int)
    requires i <= |mask|
    ensures -1 <= k < |mask| && (k >= 0 ==> i <= k && mask[k] == White)
    decreases |mask| - i
  {
    if i == |mask| then -1
    else if mask[i] != White then PickRank(mask, r, i + 1)
    else if r == 0 then i
    else PickRank(mask, r - 1, i + 1)
  }

  function Lead(mask: seq<Color>, data: seq<IpRR>, order: string, tick: nat): int
    requires |mask| == |data|
  {
    var count, sum := |Whites(mask)|, WeightTo(mask, data, |mask|);
    if count == 0 then -1
    else if order == "weighted" && sum > 0 then PickWeighted(mask, data, tick % sum, 0)
    else if order == "rr" || (order == "weighted" && sum == 0) then PickRank(mask, tick % count, 0)
    else PickRank(mask, 0, 0)
  }

  function IpsAt(data: seq<IpRR>, at: seq<nat>): (ips: seq<Option<string>>)
    requires forall k :: 0 <= k < |at| ==> at[k] < |data|
  {
    seq(|at|, k requires 0 <= k < |at| => data[at[k]].ip)
  }

  /** The chosen positions, in answer order. */
  function Chosen(mask: seq<Color>, data: seq<IpRR>, filter: FilterConfig, tick: nat): (at: seq<nat>)
    requires |mask| == |data|
    ensures forall k :: 0 <= k < |at| ==> at[k] < |data| && mask[at[k]] == White
  {
    var lead := Lead(mask, data, filter.order, tick);
    if lead == -1 then []
    else if filter.count == "single" then [lead]
    else WhitesFrom(mask, lead) + WhitesTo(mask, lead)
  }

  /** The loop form; `tick` is the nanosecond reading. */
  method OrderIps(data: seq<IpRR>, filter: FilterConfig, mask: seq<Color>, tick: nat) returns (result: seq<Option<string>>)
    requires |mask| == |data|
    ensures result == IpsAt(data, Chosen(mask, data, filter, tick))
  {
    var sum, count := 0, 0;
    for i := 0 to |mask|
      invariant sum == WeightTo(mask, data, i)
      invariant count == |WhitesTo(mask, i)|
    {
      if mask[i] == White {
        count := count + 1;
        sum := sum + data[i].weight;
      }
    }
    WhitesSplit(mask, |mask|);
    if count == 0 { return []; }
    var index := FindLead(data, filter.order, mask, tick, sum, count);
    if index == -1 { return []; }
    if filter.count == "single" { return [data[index].ip]; }
    result := Rotate(data, mask, index);
  }

  method FindLead(data: seq<IpRR>, order: string, mask: seq<Color>, tick: nat, sum: int, count: nat) returns (index: int)
    requires |mask| == |data| && count == |Whites(mask)| > 0 && sum == WeightTo(mask, data, |mask|)
    ensures index == Lead(mask, data, order, tick)
  {
    if order == "weighted" && sum > 0 {
      var s := tick % sum;
      for i := 0 to |mask|
        invariant PickWeighted(mask, data, s, i) == PickWeighted(mask, data, tick % sum, 0)
      {
        if mask[i] == White {
          s := s - data[i].weight;
          if s < 0 { return i; }
        }
      }
    } else if order == "rr" || (order == "weighted" && sum == 0) {
      var r := tick % count;
      for i := 0 to |mask|
        invariant PickRank(mask, r, i) == PickRank(mask, tick % count, 0)
      {
        if mask[i] == White {
          if r == 0 { return i; }
          r := r - 1;
        }
      }
    } else {
      for i := 0 to |mask|
        invariant PickRank(mask, 0, i) == PickRank(mask, 0, 0)
      {
        if mask[i] == White { return i; }
      }
    }
    index := -1;
  }

  method Rotate(data: seq<IpRR>, mask: seq<Color>, index: nat) returns (result: seq<Option<string>>)
    requires index <= |mask| == |data|
    ensures result == IpsAt(data, WhitesFrom(mask, index) + WhitesTo(mask, index))
  {
    result := TailIps(data, mask, index);
    ghost var at := WhitesFrom(mask, index);
    for i := 0 to index
      invariant at == WhitesFrom(mask, index) + WhitesTo(mask, i)
      invariant result == IpsAt(data, at)
    {
      if mask[i] == White {
        result := result + [data[i].ip];
        IpsAppend(data, at, i);
        at := at + [i];
      }
    }
  }

  method TailIps(data: seq<IpRR>, mask: seq<Color>, index: nat) returns (result: seq<Option<string>>)
    requires index <= |mask| == |data|
    ensures result == IpsAt(data, WhitesFrom(mask, index))
  {
    result := [];
    for i := index to |mask|
      invariant result + IpsFrom(data, mask, i) == IpsFrom(data, mask, index)
    {
      if mask[i] == White {
        assert result + ([data[i].ip] + IpsFrom(data, mask, i + 1)) == (result + [data[i].ip]) + IpsFrom(data, mask, i + 1);
        result := result + [data[i].ip];
      }
    }
    IpsFromIsIpsAt(data, mask, index);
  }

  ghost function IpsFrom(data: seq<IpRR>, mask: seq<Color>, i: nat): seq<Option<string>>
    requires i <= |mask| == |data|
    decreases |mask| - i
  {
    if i == |mask| then []
    else if mask[i] == White then [data[i].ip] + IpsFrom(data, mask, i + 1)
    else IpsFrom(data, mask, i + 1)
  }

  lemma {:induction false} IpsFromIsIpsAt(data: seq<IpRR>, mask: seq<Color>, i: nat)
    requires i <= |mask| == |data|
    ensures IpsFrom(data, mask, i) == IpsAt(data, WhitesFrom(mask, i))
    decreases |mask| - i
  {
    if i == |mask| {
    } else {
      IpsFromIsIpsAt(data, mask, i + 1);
      var rest := WhitesFrom(mask, i + 1);
      if mask[i] == White { assert IpsAt(data, [i] + rest) == [data[i].ip] + IpsAt(data, rest); }
    }
  }

  lemma {:induction false} IpsAppend(data: seq<IpRR>, at: seq<nat>, i: nat)
    requires i < |data| && forall k :: 0 <= k < |at| ==> at[k] < |data|
    ensures IpsAt(data, at + [i]) == IpsAt(data, at) + [data[i].ip]
  {
  }

  lemma {:induction false} WhitesSplit(mask: seq<Color>, i: nat)
    requires i <= |mask|
    ensures Whites(mask) == WhitesTo(mask, i) + WhitesFrom(mask, i)
  {
    if i == 0 {
    } else {
      WhitesSplit(mask, i - 1);
      var to, here, from := WhitesTo(mask, i - 1), if mask[i - 1] == White then [i - 1] else [], WhitesFrom(mask, i);
      assert to + (here + from) == (to + here) + from;
    }
  }

  lemma {:induction false} WhiteIsListed(mask: seq<Color>, from: nat, i: nat) returns (k: nat)
    requires from <= i < |mask| && mask[i] == White
    ensures k < |WhitesFrom(mask, from)| && WhitesFrom(mask, from)[k] == i
    decreases i - from
  {
    if from == i { return 0; }
    k := WhiteIsListed(mask, from + 1, i);
    if mask[from] == White { k := k + 1; }
  }

  // ---- Exact shares ----------------------------------------------------------

  predicate NonNegative(mask: seq<Color>, data: seq<IpRR>)
    requires |mask| == |data|
  {
    forall j :: 0 <= j < |mask| && mask[j] == White ==> data[j].weight >= 0
  }

  lemma {:induction false} WeightMonotone(mask: seq<Color>, data: seq<IpRR>, i: nat, j: nat)
    requires i <= j <= |mask| == |data| && NonNegative(mask, data)
    ensures 0 <= WeightTo(mask, data, i) <= WeightTo(mask, data, j)
    decreases j
  {
    if i < j {
      WeightMonotone(mask, data, i, j - 1);
    } else if i > 0 {
      WeightMonotone(mask, data, i - 1, j - 1);
    }
  }

  /** Position `i` owns the half-open interval of remainders between its two prefix sums. */
  lemma {:induction false} WeightedInterval(mask: seq<Color>, data: seq<IpRR>, s: int, i: nat, from: nat)
    requires i < |mask| == |data| && from <= |mask| && NonNegative(mask, data) && s >= 0
    requires mask[i] == White
    ensures PickWeighted(mask, data, s, from) == i <==>
      from <= i && WeightTo(mask, data, i) - WeightTo(mask, data, from) <= s
                   < WeightTo(mask, data, i + 1) - WeightTo(mask, data, from)
    decreases |mask| - from
  {
    if from == |mask| {
    } else if mask[from] != White {
      WeightedInterval(mask, data, s, i, from + 1);
    } else if s - data[from].weight < 0 {
      if from < i { WeightMonotone(mask, data, from + 1, i); }
    } else {
      WeightedInterval(mask, data, s - data[from].weight, i, from + 1);
    }
  }

  /** Position `i` comes first in the answer for this reading. */
  predicate First(mask: seq<Color>, data: seq<IpRR>, filter: FilterConfig, i: nat, tick: nat)
    requires |mask| == |data|
  {
    var at := Chosen(mask, data, filter, tick);
    at != [] && at[0] == i
  }

  ghost function FirstFor(mask: seq<Color>, data: seq<IpRR>, filter: FilterConfig, i: nat): nat -> bool
    requires |mask| == |data|
  {
    (tick: nat) => First(mask, data, filter, i, tick)
  }

  /** How many of the readings from, from + 1, ..., from + n - 1 satisfy `h`. */
  ghost function Hits(h: nat -> bool, from: nat, n: nat): nat {
    if n == 0 then 0 else Hits(h, from, n - 1) + (if h(from + n - 1) then 1 else 0)
  }

  lemma {:induction false} HitsFront(h: nat -> bool, from: nat, n: nat)
    ensures Hits(h, from, n + 1) == (if h(from) then 1 else 0) + Hits(h, from + 1, n)
  {
    if n == 0 {
    } else {
      HitsFront(h, from, n - 1);
    }
  }

  /** All windows of one period hold the same number of hits. */
  lemma {:induction false} HitsPeriodic(h: nat -> bool, period: nat, from: nat)
    requires forall t: nat :: h(t + period) <==> h(t)
    ensures Hits(h, from, period) == Hits(h, 0, period)
  {
    if from == 0 {
    } else {
      HitsPeriodic(h, period, from - 1);
      HitsFront(h, from - 1, period);
      assert h(from - 1 + period) <==> h(from - 1);
    }
  }

  /** The hits below `n` when `h` holds exactly on an interval. */
  lemma {:induction false} HitsInterval(h: nat -> bool, lo: nat, width: nat, n: nat)
    requires forall t: nat :: t < n ==> (h(t) <==> lo <= t < lo + width)
    ensures Hits(h, 0, n) == if n <= lo then 0 else if n <= lo + width then n - lo else width
  {
    if n == 0 {
    } else {
      HitsInterval(h, lo, width, n - 1);
    }
  }

  /** For every count value the answer starts with the lead; a "single" answer holds nothing else. */
  lemma {:induction false} LeadComesFirst(mask: seq<Color>, data: seq<IpRR>, filter: FilterConfig, tick: nat)
    requires |mask| == |data|
    ensures var at, lead := Chosen(mask, data, filter, tick), Lead(mask, data, filter.order, tick);
      && (at == [] <==> lead == -1) && (at != [] ==> at[0] == lead)
      && (filter.count == "single" && at != [] ==> |at| == 1)
  {
    LeadExists(mask, data, filter.order, tick);
  }

  lemma {:induction false} ModShift(x: nat, n: nat)
    requires n > 0
    ensures (x + n) % n == x % n
  {
    assert x == (x / n) * n + x % n;
    assert x + n == (x / n + 1) * n + x % n;
    RemainderUnique(x + n, x / n + 1, x % n, n);
  }

  lemma {:induction false} RemainderUnique(x: nat, q: nat, r: nat, n: nat)
    requires n > 0 && x == q * n + r && r < n
    ensures x % n == r
  {
    var q', r' := x / n, x % n;
    var d := q - q';
    Distributes(q', d, n);
    if d >= 1 { AtLeast(d, n); } else if d <= -1 { Distributes(d, -d, n); AtLeast(-d, n); }
  }

  lemma {:induction false} Distributes(a: int, b: int, n: int)
    ensures (a + b) * n == a * n + b * n
  {
  }

  lemma {:induction false} AtLeast(d: int, n: nat)
    requires d >= 1
    ensures d * n >= n
  {
    Distributes(1, d - 1, n);
    assert (d - 1) * n >= 0;
  }

  /** The period of the choice: the total weight, or the number of white addresses. */
  predicate Period(mask: seq<Color>, data: seq<IpRR>, order: string, period: nat)
    requires |mask| == |data|
  {
    var sum := WeightTo(mask, data, |mask|);
    period > 0 &&
    (|| (order == "weighted" && sum == period)
     || ((order == "rr" || (order == "weighted" && sum == 0)) && period == |Whites(mask)|))
  }

  lemma {:induction false} LeadPeriodic(mask: seq<Color>, data: seq<IpRR>, order: string, tick: nat, period: nat)
    requires |mask| == |data| && Period(mask, data, order, period)
    ensures Lead(mask, data, order, tick + period) == Lead(mask, data, order, tick)
  {
    ModShift(tick, period);
  }

  lemma {:induction false} SmallMod(x: nat, n: nat)
    requires x < n
    ensures x % n == x
  {
  }

  lemma {:induction false} LeadIsWeighted(mask: seq<Color>, data: seq<IpRR>, tick: nat)
    requires |mask| == |data| && Whites(mask) != [] && tick < WeightTo(mask, data, |mask|)
    ensures Lead(mask, data, "weighted", tick) == PickWeighted(mask, data, tick, 0)
  {
    SmallMod(tick, WeightTo(mask, data, |mask|));
  }

  lemma {:induction false} LeadIsRank(mask: seq<Color>, data: seq<IpRR>, order: string, r: nat)
    requires |mask| == |data| && r < |Whites(mask)|
    requires order == "rr" || (order == "weighted" && WeightTo(mask, data, |mask|) == 0)
    ensures Lead(mask, data, order, r) == PickRank(mask, r, 0)
  {
    SmallMod(r, |Whites(mask)|);
  }

  lemma {:induction false} WeightedLead(mask: seq<Color>, data: seq<IpRR>, i: nat, tick: nat)
    requires i < |mask| == |data| && mask[i] == White && NonNegative(mask, data)
    requires tick < WeightTo(mask, data, |mask|)
    ensures Lead(mask, data, "weighted", tick) == i <==>
      WeightTo(mask, data, i) <= tick < WeightTo(mask, data, i) + data[i].weight
  {
    var _ := WhiteIsListed(mask, 0, i);
    LeadIsWeighted(mask, data, tick);
    WeightedInterval(mask, data, tick, i, 0);
  }

  lemma {:induction false} WeightedFirst(mask: seq<Color>, data: seq<IpRR>, filter: FilterConfig, i: nat, tick: nat)
    requires i < |mask| == |data| && mask[i] == White && NonNegative(mask, data) && filter.order == "weighted"
    requires tick < WeightTo(mask, data, |mask|)
    ensures First(mask, data, filter, i, tick) <==> WeightTo(mask, data, i) <= tick < WeightTo(mask, data, i) + data[i].weight
  {
    WeightedLead(mask, data, i, tick);
    FirstIsLead(mask, data, filter, i, tick);
  }

  /**
   In "weighted" order, for every count value, white address i comes first for exactly Weight[i]
   of any run of consecutive readings as long as the total weight.
   */
  lemma {:induction false} WeightedShare(mask: seq<Color>, data: seq<IpRR>, filter: FilterConfig, i: nat, from: nat)
    requires i < |mask| == |data| && mask[i] == White && NonNegative(mask, data) && filter.order == "weighted"
    ensures WeightTo(mask, data, |mask|) >= 0
    ensures Hits(FirstFor(mask, data, filter, i), from, WeightTo(mask, data, |mask|)) == data[i].weight
  {
    var sum, h := WeightTo(mask, data, |mask|), FirstFor(mask, data, filter, i);
    WeightMonotone(mask, data, i + 1, |mask|);
    WeightMonotone(mask, data, i, i + 1);
    var lo, width := WeightTo(mask, data, i), data[i].weight;
    forall t: nat | t < sum ensures h(t) <==> lo <= t < lo + width { WeightedFirst(mask, data, filter, i, t); }
    HitsInterval(h, lo, width, sum);
    if sum > 0 {
      FirstPeriodic(mask, data, filter, i, sum);
      HitsPeriodic(h, sum, from);
    }
  }

  lemma {:induction false} FirstPeriodic(mask: seq<Color>, data: seq<IpRR>, filter: FilterConfig, i: nat, period: nat)
    requires |mask| == |data| && Period(mask, data, filter.order, period)
    ensures forall t: nat :: FirstFor(mask, data, filter, i)(t + period) <==> FirstFor(mask, data, filter, i)(t)
  {
    var h := FirstFor(mask, data, filter, i);
    forall t: nat ensures h(t + period) <==> h(t) { FirstShift(mask, data, filter, i, t, period); }
  }

  lemma {:induction false} FirstShift(mask: seq<Color>, data: seq<IpRR>, filter: FilterConfig, i: nat, t: nat, period: nat)
    requires |mask| == |data| && Period(mask, data, filter.order, period)
    ensures First(mask, data, filter, i, t + period) <==> First(mask, data, filter, i, t)
  {
    LeadPeriodic(mask, data, filter.order, t, period);
    FirstIsLead(mask, data, filter, i, t);
    FirstIsLead(mask, data, filter, i, t + period);
  }

  lemma {:induction false} FirstIsLead(mask: seq<Color>, data: seq<IpRR>, filter: FilterConfig, i: nat, tick: nat)
    requires |mask| == |data|
    ensures First(mask, data, filter, i, tick) <==> Lead(mask, data, filter.order, tick) == i
  {
    LeadComesFirst(mask, data, filter, tick);
  }

  lemma {:induction false} RankIsWhite(mask: seq<Color>, r: nat, from: nat)
    requires from <= |mask|
    ensures PickRank(mask, r, from) == if r < |WhitesFrom(mask, from)| then WhitesFrom(mask, from)[r] else -1
    decreases |mask| - from
  {
    if from == |mask| {
    } else if mask[from] != White {
      RankIsWhite(mask, r, from + 1);
    } else if r > 0 {
      RankIsWhite(mask, r - 1, from + 1);
    }
  }

  lemma {:induction false} Shifted(first: nat, rest: seq<nat>, k: nat)
    requires 0 < k <= |rest|
    ensures ([first] + rest)[k] == rest[k - 1]
  {
  }

  lemma {:induction false} WhitesIncrease(mask: seq<Color>, from: nat, j: nat, k: nat)
    requires from <= |mask| && j < k < |WhitesFrom(mask, from)|
    ensures WhitesFrom(mask, from)[j] < WhitesFrom(mask, from)[k]
    decreases |mask| - from
  {
    if mask[from] != White {
      WhitesIncrease(mask, from + 1, j, k);
    } else {
      var rest := WhitesFrom(mask, from + 1);
      Shifted(from, rest, k);
      if j > 0 {
        Shifted(from, rest, j);
        WhitesIncrease(mask, from + 1, j - 1, k - 1);
      }
    }
  }

  /**
   In "rr" order, and in "weighted" order with no weight, for every count value, each white address
   comes first for exactly one of any run of consecutive readings as long as there are white addresses.
   */
  lemma {:induction false} RoundRobinShare(mask: seq<Color>, data: seq<IpRR>, filter: FilterConfig, i: nat, from: nat)
    requires i < |mask| == |data| && mask[i] == White
    requires filter.order == "rr" || (filter.order == "weighted" && WeightTo(mask, data, |mask|) == 0)
    ensures Hits(FirstFor(mask, data, filter, i), from, |Whites(mask)|) == 1
  {
    var h, n := FirstFor(mask, data, filter, i), |Whites(mask)|;
    var k := WhiteIsListed(mask, 0, i);
    forall r: nat | r < n ensures h(r) <==> r == k {
      LeadIsRank(mask, data, filter.order, r);
      RankUnique(mask, i, k, r);
      FirstIsLead(mask, data, filter, i, r);
    }
    HitsInterval(h, k, 1, n);
    FirstPeriodic(mask, data, filter, i, n);
    HitsPeriodic(h, n, from);
  }

  lemma {:induction false} RankUnique(mask: seq<Color>, i: nat, k: nat, r: nat)
    requires r < |Whites(mask)| && k < |Whites(mask)| && Whites(mask)[k] == i
    ensures PickRank(mask, r, 0) == i <==> r == k
  {
    RankIsWhite(mask, r, 0);
    if r < k { WhitesIncrease(mask, 0, r, k); } else if k < r { WhitesIncrease(mask, 0, k, r); }
  }

  /** In any other order, and in "weighted" order with a negative total, the first white address comes first. */
  lemma {:induction false} FirstLeadsOtherwise(mask: seq<Color>, data: seq<IpRR>, filter: FilterConfig, tick: nat)
    requires |mask| == |data| && Whites(mask) != []
    requires filter.order != "rr" && (filter.order == "weighted" ==> WeightTo(mask, data, |mask|) < 0)
    ensures First(mask, data, filter, Whites(mask)[0], tick)
  {
    RankIsWhite(mask, 0, 0);
    LeadComesFirst(mask, data, filter, tick);
  }

  // ---- No white address is ever lost -----------------------------------------

  /** With any integer weights a remainder below the total is exhausted by the last white entry. */
  lemma {:induction false} WeightedLands(mask: seq<Color>, data: seq<IpRR>, s: int, from: nat)
    requires from <= |mask| == |data|
    requires s >= 0 && s < WeightTo(mask, data, |mask|) - WeightTo(mask, data, from)
    ensures PickWeighted(mask, data, s, from) >= 0
    decreases |mask| - from
  {
    if mask[from] != White { WeightedLands(mask, data, s, from + 1); }
    else if s - data[from].weight >= 0 { WeightedLands(mask, data, s - data[from].weight, from + 1); }
  }

  lemma {:induction false} LeadExists(mask: seq<Color>, data: seq<IpRR>, order: string, tick: nat)
    requires |mask| == |data|
    ensures Lead(mask, data, order, tick) >= 0 <==> White in mask
    ensures Lead(mask, data, order, tick) >= 0 ==> mask[Lead(mask, data, order, tick)] == White
  {
    var count, sum := |Whites(mask)|, WeightTo(mask, data, |mask|);
    if White in mask {
      var j :| 0 <= j < |mask| && mask[j] == White;
      var _ := WhiteIsListed(mask, 0, j);
      if order == "weighted" && sum > 0 { WeightedLands(mask, data, tick % sum, 0); }
      RankIsWhite(mask, tick % count, 0);
      RankIsWhite(mask, 0, 0);
    }
  }

  /** For all integer weights, negative ones included: an answer is empty only when no address is white. */
  lemma {:induction false} NonEmptyIffWhite(mask: seq<Color>, data: seq<IpRR>, filter: FilterConfig, tick: nat)
    requires |mask| == |data|
    ensures Chosen(mask, data, filter, tick) != [] <==> White in mask
  {
    LeadExists(mask, data, filter.order, tick);
  }

  /** A "multi" answer is a rotation of the white addresses that starts at the lead. */
  lemma {:induction false} MultiIsRotation(mask: seq<Color>, data: seq<IpRR>, filter: FilterConfig, tick: nat)
    requires |mask| == |data| && filter.count != "single" && White in mask
    ensures exists k :: 0 <= k < |Whites(mask)|
                        && Chosen(mask, data, filter, tick) == Whites(mask)[k..] + Whites(mask)[..k]
                        && First(mask, data, filter, Whites(mask)[k], tick)
  {
    LeadExists(mask, data, filter.order, tick);
    var lead := Lead(mask, data, filter.order, tick);
    WhitesSplit(mask, lead);
    var k := |WhitesTo(mask, lead)|;
    assert WhitesFrom(mask, lead)[0] == lead;
    assert Whites(mask)[k..] == WhitesFrom(mask, lead) && Whites(mask)[..k] == WhitesTo(mask, lead);
    assert Whites(mask)[k] == lead;
  }
}
