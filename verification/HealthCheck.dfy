/**
 The health status machine of handler/healthcheck.go and its shared store: the queueing
 loop loads items, workers finish them later, Transfer installs configuration, entries expire.
 */
module HealthCheck {
  import opened Records

  // ---- One status ------------------------------------------------------------

  function Up(status: int, upCount: int): int {
    if status < 0 then 1 else if status + 1 > upCount then upCount else status + 1
  }

  function Down(status: int, downCount: int): int {
    if status > 0 then -1 else if status - 1 < downCount then downCount else status - 1
  }

  function Max(a: int, b: int): int {
    if a < b then b else a
  }

  function Check(status: int, upCount: int, downCount: int, up: bool): int {
    if up then Up(status, upCount) else Down(status, downCount)
  }

  class HealthCheckItem {
    var status: int
    const upCount: int
    const downCount: int

    constructor (status: int, upCount: int, downCount: int)
      ensures this.status == status && this.upCount == upCount && this.downCount == downCount
    {
      this.status, this.upCount, this.downCount := status, upCount, downCount;
    }

    method StatusUp()
      modifies this
      ensures status == Up(old(status), upCount)
    {
      if status >= 0 {
        status := status + 1;
        if status > upCount { status := upCount; }
      } else {
        status := 1;
      }
    }

    method StatusDown()
      modifies this
      ensures status == Down(old(status), downCount)
    {
      if status <= 0 {
        status := status - 1;
        if status < downCount { status := downCount; }
      } else {
        status := -1;
      }
    }
  }

  /** Status after a history of check results, oldest first, from a new item. */
  function After(history: seq<bool>, upCount: int, downCount: int): int {
    if history == [] then 0
    else Check(After(history[..|history| - 1], upCount, downCount), upCount, downCount, history[|history| - 1])
  }

  /** Length of the run of equal results that ends the history. */
  function TrailingRun(history: seq<bool>): (k: nat)
    ensures k <= |history| && (k == 0 <==> history == [])
    ensures forall j :: |history| - k <= j < |history| ==> history[j] == history[|history| - 1]
    ensures 0 < k < |history| ==> history[|history| - k - 1] != history[|history| - 1]
  {
    var n := |history|;
    if n == 0 then 0
    else if n > 1 && history[n - 2] == history[n - 1] then TrailingRun(history[..n - 1]) + 1
    else 1
  }

  /** The status is the trailing run, signed and capped; earlier results leave no trace. */
  lemma {:induction false} StatusClosedForm(history: seq<bool>, upCount: int, downCount: int)
    requires upCount >= 1 && downCount <= -1 && history != []
    ensures var k: int := TrailingRun(history);
      k >= 1 &&
      After(history, upCount, downCount) ==
        if history[|history| - 1] then (if k < upCount then k else upCount) else (if -k > downCount then -k else downCount)
  {
    var n := |history|;
    if n > 1 {
      StatusClosedForm(history[..n - 1], upCount, downCount);
      assert history[..n - 1][n - 2] == history[n - 2];
    } else {
      assert history[..0] == [];
    }
  }

  predicate CountsFit(upCount: int, downCount: int) {
    (upCount >= 1 && downCount <= -1) || (upCount == 0 && downCount == 0)
  }

  lemma {:induction false} RangeStep(status: int, upCount: int, downCount: int, up: bool)
    requires CountsFit(upCount, downCount) && downCount <= status <= upCount
    ensures downCount <= Check(status, upCount, downCount, up) <= upCount
  {
  }

  lemma {:induction false} RangeHolds(history: seq<bool>, upCount: int, downCount: int)
    requires CountsFit(upCount, downCount)
    ensures downCount <= After(history, upCount, downCount) <= upCount
  {
    if history == [] {
    } else {
      RangeHolds(history[..|history| - 1], upCount, downCount);
    }
  }

  /** The status stays between the two counts for every history exactly for counts that fit. */
  lemma {:induction false} RangeIff(upCount: int, downCount: int)
    ensures (forall history :: downCount <= After(history, upCount, downCount) <= upCount) <==> CountsFit(upCount, downCount)
  {
    if CountsFit(upCount, downCount) {
      forall history ensures downCount <= After(history, upCount, downCount) <= upCount {
        RangeHolds(history, upCount, downCount);
      }
    } else {
      var history := RangeBreaks(upCount, downCount);
    }
  }

  lemma {:induction false} RangeBreaks(upCount: int, downCount: int) returns (history: seq<bool>)
    requires !CountsFit(upCount, downCount)
    ensures !(downCount <= After(history, upCount, downCount) <= upCount)
  {
    ShortHistories(upCount, downCount);
    history := if !(downCount <= 0 <= upCount) then [] else if upCount >= 1 then [true, false] else [false, true];
  }

  lemma {:induction false} ShortHistories(upCount: int, downCount: int)
    ensures After([], upCount, downCount) == 0
    ensures After([true, false], upCount, downCount) == Down(Up(0, upCount), downCount)
    ensures After([false, true], upCount, downCount) == Up(Down(0, downCount), upCount)
  {
    assert [true][..0] == [] && [false][..0] == [];
    assert [true, false][..1] == [true] && [false, true][..1] == [false];
    assert After([true], upCount, downCount) == Up(0, upCount);
    assert After([false], upCount, downCount) == Down(0, downCount);
  }

  // ---- Items, keys and the store ----------------------------------------------

  /** What is serialised; host and address come back from the key. */
  datatype Saved = Saved(config: HealthConfig, status: int, lastCheck: int, domainId: string)

  datatype Item = Item(host: string, ip: string, saved: Saved)

  /** One enabled address of one record, as Transfer reads it. */
  datatype Target = Target(host: string, ip: string, config: HealthConfig, domainId: string)

  const BLANK := Saved(HealthConfig("", "", 0, 0, 0, 0, false), 0, 0, "")

  function Key(host: string, ip: string): string {
    host + ":" + ip
  }

  function FirstColon(s: string): (n: nat)
    ensures n <= |s| && ':' !in s[..n] && (n < |s| ==> s[n] == ':')
  {
    if s == "" || s[0] == ':' then 0 else 1 + FirstColon(s[1..])
  }

  function Negated(saved: Saved): Saved {
    if saved.config.downCount > 0
    then saved.(config := saved.config.(downCount := -saved.config.downCount)) else saved
  }

  /** `answered` is whether the store replied; a reply for a missing key decodes to a blank item. */
  function LoadItem(store: map<string, Saved>, key: string, answered: bool): Option<Item> {
    var c := FirstColon(key);
    if c == |key| || !answered then None
    else Some(Item(key[..c], key[c + 1..], if key in store then Negated(store[key]) else BLANK))
  }

  predicate ItemsEqual(old_: Option<Item>, t: Target) {
    old_.Some? && old_.value.ip == t.ip && old_.value.saved.config == t.config
  }

  function NewItem(t: Target): Saved {
    Saved(t.config, 0, 0, t.domainId)
  }

  // ---- The interleavings --------------------------------------------------------

  datatype State = State(store: map<string, Saved>, inFlight: seq<Item>)

  datatype Event =
    | Queue(key: string, answered: bool)                         // Start: load an item and queue it
    | Finish(index: nat, up: bool, now: int, stored: bool)       // a worker ends a check; the write may fail
    | Transfer(target: Target, answered: bool, stored: bool)     // one address of a Transfer pass
    | Expire(key: string)

  function Finished(item: Item, up: bool, now: int): Item {
    var s := item.saved;
    item.(saved := s.(status := Check(s.status, s.config.upCount, s.config.downCount, up), lastCheck := now))
  }

  function Next(st: State, e: Event): State {
    match e
    case Queue(key, answered) =>
      var item := LoadItem(st.store, key, answered);
      if item.Some? then st.(inFlight := st.inFlight + [item.value]) else st
    case Finish(i, up, now, stored) =>
      if i >= |st.inFlight| then st
      else
        var item := Finished(st.inFlight[i], up, now);
        State(if stored then st.store[Key(item.host, item.ip) := item.saved] else st.store,
              st.inFlight[..i] + st.inFlight[i + 1..])
    case Transfer(t, answered, stored) =>
      if !t.config.enable then st
      else if ItemsEqual(LoadItem(st.store, Key(t.host, t.ip), answered), t) || !stored then st
      else st.(store := st.store[Key(t.host, t.ip) := NewItem(t)])
    case Expire(key) => st.(store := st.store - {key})
  }

  function Run(st: State, events: seq<Event>): State {
    if events == [] then st else Next(Run(st, events[..|events| - 1]), events[|events| - 1])
  }

  /** In range against the item's own counts, once the sign of the down count is settled. */
  predicate InRange(s: Saved) {
    var c := Negated(s).config;
    CountsFit(c.upCount, c.downCount) && c.downCount <= s.status <= c.upCount
  }

  predicate AllInRange(st: State) {
    && (forall k :: k in st.store ==> InRange(st.store[k]))
    && (forall i :: 0 <= i < |st.inFlight| ==>
          InRange(st.inFlight[i].saved) && st.inFlight[i].saved.config.downCount <= 0)
  }

  /** Configured counts: at least one up, and a non-zero down count of either sign. */
  predicate Configured(e: Event) {
    e.Transfer? ==> e.target.config.upCount >= 1 && e.target.config.downCount != 0
  }

  lemma {:induction false} InRangeStep(st: State, e: Event)
    requires AllInRange(st) && Configured(e)
    ensures AllInRange(Next(st, e))
  {
    match e
    case Finish(i, up, now, stored) =>
      if i < |st.inFlight| {
        var s := st.inFlight[i].saved;
        RangeStep(s.status, s.config.upCount, s.config.downCount, up);
      }
    case _ =>
  }

  /** Over every interleaving, every stored or in-flight item stays within its own counts. */
  lemma {:induction false} AlwaysInRange(st: State, events: seq<Event>)
    requires AllInRange(st) && forall i :: 0 <= i < |events| ==> Configured(events[i])
    ensures AllInRange(Run(st, events))
  {
    if events == [] {
    } else {
      var n := |events| - 1;
      AlwaysInRange(st, events[..n]);
      InRangeStep(Run(st, events[..n]), events[n]);
    }
  }

  // ---- The status of one key over a run -------------------------------------------

  predicate Mine(item: Item, key: string) {
    Key(item.host, item.ip) == key
  }

  /** The results of the finished checks of a key, oldest first. */
  ghost function Results(st: State, events: seq<Event>, key: string): seq<bool> {
    if events == [] then []
    else
      var n := |events| - 1;
      var before, e := Run(st, events[..n]), events[n];
      Results(st, events[..n], key)
      + if e.Finish? && e.index < |before.inFlight| && Mine(before.inFlight[e.index], key) then [e.up] else []
  }

  /** Checks of the key do not overlap, their writes succeed, and Transfer and expiry leave it alone. */
  ghost predicate Orderly(st: State, e: Event, key: string) {
    match e
    case Queue(k, _) => k == key ==> forall i :: 0 <= i < |st.inFlight| ==> !Mine(st.inFlight[i], key)
    case Finish(i, _, _, stored) => i < |st.inFlight| && Mine(st.inFlight[i], key) ==> stored
    case Transfer(t, _, _) => Key(t.host, t.ip) != key || Next(st, e) == st
    case Expire(k) => k != key
  }

  /** The stored item of the key and its check under way, if any, have this configuration and status. */
  ghost predicate Holds(st: State, key: string, config: HealthConfig, status: int) {
    && key in st.store && Negated(st.store[key]).config == config && st.store[key].status == status
    && (forall i :: 0 <= i < |st.inFlight| && Mine(st.inFlight[i], key) ==>
          st.inFlight[i].saved.config == config && st.inFlight[i].saved.status == status)
    && (forall i, j :: 0 <= i < j < |st.inFlight| ==> !(Mine(st.inFlight[i], key) && Mine(st.inFlight[j], key)))
  }

  lemma {:induction false} QueueHolds(st: State, k: string, answered: bool, key: string, config: HealthConfig, status: int)
    requires Holds(st, key, config, status) && Orderly(st, Queue(k, answered), key)
    ensures Holds(Next(st, Queue(k, answered)), key, config, status)
  {
    var c := FirstColon(k);
    if c < |k| && answered {
      assert k == k[..c] + ":" + k[c + 1..];
      var item := LoadItem(st.store, k, answered).value;
      assert Mine(item, k);
      assert Next(st, Queue(k, answered)).inFlight == st.inFlight + [item];
    }
  }

  lemma {:induction false} FinishHolds(st: State, e: Event, key: string, config: HealthConfig, status: int)
    requires Holds(st, key, config, status) && Orderly(st, e, key) && e.Finish? && config.downCount <= 0
    ensures var mine := e.index < |st.inFlight| && Mine(st.inFlight[e.index], key);
      Holds(Next(st, e), key, config, if mine then Check(status, config.upCount, config.downCount, e.up) else status)
  {
    var i := e.index;
    if i < |st.inFlight| {
      var left := st.inFlight[..i] + st.inFlight[i + 1..];
      assert forall j :: 0 <= j < |left| ==> left[j] == st.inFlight[if j < i then j else j + 1];
      assert Next(st, e).inFlight == left;
    }
  }

  lemma {:induction false} StatusRun(st: State, events: seq<Event>, key: string, config: HealthConfig)
    requires Holds(st, key, config, 0) && config.downCount <= 0
    requires forall n :: 0 <= n < |events| ==> Orderly(Run(st, events[..n]), events[n], key)
    ensures Holds(Run(st, events), key, config, After(Results(st, events, key), config.upCount, config.downCount))
  {
    if events == [] {
    } else {
      var n := |events| - 1;
      var init, e := events[..n], events[n];
      forall m | 0 <= m < |init| ensures Orderly(Run(st, init[..m]), init[m], key) { assert init[..m] == events[..m]; }
      StatusRun(st, init, key, config);
      StatusStep(st, events, key, config);
    }
  }

  lemma {:induction false} StatusStep(st: State, events: seq<Event>, key: string, config: HealthConfig)
    requires events != [] && config.downCount <= 0
    requires var n := |events| - 1; var init := events[..n];
      && Orderly(Run(st, init), events[n], key)
      && Holds(Run(st, init), key, config, After(Results(st, init, key), config.upCount, config.downCount))
    ensures Holds(Run(st, events), key, config, After(Results(st, events, key), config.upCount, config.downCount))
  {
    var n := |events| - 1;
    var before, e, history := Run(st, events[..n]), events[n], Results(st, events[..n], key);
    var status := After(history, config.upCount, config.downCount);
    assert history + [] == history;
    match e
    case Queue(k, answered) => QueueHolds(before, k, answered, key, config, status);
    case Finish(_, up, _, _) =>
      FinishHolds(before, e, key, config, status);
      assert (history + [up])[..|history|] == history;
    case Transfer(_, _, _) =>
    case Expire(_) =>
  }

  /**
   From a new item, over every run that is orderly for its key: the stored status is the trailing
   run of the results of its checks, signed by the last result and capped by its counts.
   */
  lemma {:induction false} StatusIsHistory(st: State, events: seq<Event>, key: string)
    requires key in st.store && st.store[key].status == 0
    requires st.store[key].config.upCount >= 1 && st.store[key].config.downCount != 0
    requires forall i :: 0 <= i < |st.inFlight| ==> !Mine(st.inFlight[i], key)
    requires forall n :: 0 <= n < |events| ==> Orderly(Run(st, events[..n]), events[n], key)
    ensures key in Run(st, events).store
    ensures var c, history := st.store[key].config, Results(st, events, key);
      var k, status := TrailingRun(history), Run(st, events).store[key].status;
      var floor := if c.downCount > 0 then c.downCount else -c.downCount;
      if history == [] then status == 0
      else if history[|history| - 1] then status == if k < c.upCount then k else c.upCount
      else status == -(if k < floor then k else floor)
  {
    var config, history := Negated(st.store[key]).config, Results(st, events, key);
    StatusRun(st, events, key, config);
    if history != [] { StatusClosedForm(history, config.upCount, config.downCount); }
  }

  function Min(a: int, b: int): int {
    if a < b then a else b
  }

  /** Queueing a stored key and finishing that check moves its status one step, and touches nothing else. */
  lemma {:induction false} OneCheck(st: State, key: string, up: bool, now: int)
    requires key in st.store && ':' in key && st.store[key].config.upCount >= 1 && st.store[key].config.downCount != 0
    ensures var old_ := st.store[key];
      var floor := if old_.config.downCount > 0 then -old_.config.downCount else old_.config.downCount;
      var status := if up then Min(Max(old_.status, 0) + 1, old_.config.upCount) else Max(Min(old_.status, 0) - 1, floor);
      Next(Next(st, Queue(key, true)), Finish(|st.inFlight|, up, now, true)) ==
        State(st.store[key := Saved(old_.config.(downCount := floor), status, now, old_.domainId)], st.inFlight)
  {
    var item := QueuedLast(st, key);
    FinishLast(st, item, up, now);
  }

  lemma {:induction false} QueuedLast(st: State, key: string) returns (item: Item)
    requires key in st.store && ':' in key
    ensures Mine(item, key) && item.saved == Negated(st.store[key])
    ensures Next(st, Queue(key, true)) == st.(inFlight := st.inFlight + [item])
  {
    var c := FirstColon(key);
    assert key[..|key|] == key;
    assert key == key[..c] + ":" + key[c + 1..];
    item := LoadItem(st.store, key, true).value;
  }

  lemma {:induction false} FinishLast(st: State, item: Item, up: bool, now: int)
    ensures var s := item.saved;
      Next(st.(inFlight := st.inFlight + [item]), Finish(|st.inFlight|, up, now, true)) ==
      st.(store := st.store[Key(item.host, item.ip) :=
                              s.(status := Check(s.status, s.config.upCount, s.config.downCount, up), lastCheck := now)])
  {
    var queued := st.inFlight + [item];
    assert queued[..|st.inFlight|] + queued[|st.inFlight| + 1..] == st.inFlight;
  }

  // ---- When a Transfer pass has nothing to do -------------------------------------

  /** One address of a pass, and whether the store answers the read of its old item. */
  datatype Visit = Visit(target: Target, answered: bool)

  /** The store after one visit whose write, if any, succeeds. */
  function Visited(store: map<string, Saved>, v: Visit): map<string, Saved> {
    Next(State(store, []), Transfer(v.target, v.answered, true)).store
  }

  /** One pass over all targets. */
  function Pass(store: map<string, Saved>, visits: seq<Visit>): map<string, Saved>
    decreases |visits|
  {
    if visits == [] then store else Pass(Visited(store, visits[0]), visits[1..])
  }

  /** The target needs no write, provided its item can be read. */
  predicate Settled(store: map<string, Saved>, t: Target) {
    !t.config.enable || ItemsEqual(LoadItem(store, Key(t.host, t.ip), true), t)
  }

  /** The visit writes a new item, with its status back at 0. */
  predicate Writes(store: map<string, Saved>, v: Visit) {
    v.target.config.enable && !ItemsEqual(LoadItem(store, Key(v.target.host, v.target.ip), v.answered), v.target)
  }

  predicate Rewrites(store: map<string, Saved>, visits: seq<Visit>)
    decreases |visits|
  {
    visits != [] && (Writes(store, visits[0]) || Rewrites(Visited(store, visits[0]), visits[1..]))
  }

  /** The status server as the workers and Transfer update it. */
  class StatusServer {
    var store: map<string, Saved>

    constructor ()
      ensures store == map[]
    {
      store := map[];
    }

    method StoreItem(item: Item)
      modifies this
      ensures store == old(store)[Key(item.host, item.ip) := item.saved]
    {
      store := store[Key(item.host, item.ip) := item.saved];
    }

    /** A worker ends the check of `item` with result `up`. */
    method HandleHealthCheck(item: Item, up: bool, now: int)
      modifies this
      ensures store == old(store)[Key(item.host, item.ip) := Finished(item, up, now).saved]
      ensures var s, s' := item.saved, store[Key(item.host, item.ip)];
        && s' == s.(status := s'.status, lastCheck := now)
        && (s.config.upCount >= 1 && s.config.downCount <= -1 ==>
              if up then 0 < s'.status <= s.config.upCount && s'.status <= Max(s.status, 0) + 1
              else s.config.downCount <= s'.status < 0 && s'.status >= -Max(-s.status, 0) - 1)
    {
      var s := item.saved;
      var job := new HealthCheckItem(s.status, s.config.upCount, s.config.downCount);
      if up { job.StatusUp(); } else { job.StatusDown(); }
      StoreItem(item.(saved := s.(status := job.status, lastCheck := now)));
    }

    method TransferPass(visits: seq<Visit>)
      modifies this
      ensures store == Pass(old(store), visits)
    {
      for i := 0 to |visits|
        invariant Pass(old(store), visits) == Pass(store, visits[i..])
      {
        var t := visits[i].target;
        assert visits[i..][0] == visits[i] && visits[i..][1..] == visits[i + 1..];
        if t.config.enable {
          var oldItem := LoadItem(store, Key(t.host, t.ip), visits[i].answered);
          if !ItemsEqual(oldItem, t) { StoreItem(Item(t.host, t.ip, NewItem(t))); }
        }
      }
    }
  }

  /** Host free of ':', down count not positive, and one configuration per key. */
  ghost predicate Stable(visits: seq<Visit>) {
    && (forall i :: 0 <= i < |visits| ==> Shapely(visits[i].target))
    && (forall i, j :: 0 <= i < |visits| && 0 <= j < |visits| ==> Agreeing(visits[i].target, visits[j].target))
  }

  predicate Shapely(t: Target) {
    t.config.enable ==> ':' !in t.host && t.config.downCount <= 0
  }

  predicate Agreeing(t: Target, d: Target) {
    t.config.enable && d.config.enable && Key(t.host, t.ip) == Key(d.host, d.ip) ==> t.config == d.config
  }

  ghost predicate AllAnswer(visits: seq<Visit>) {
    forall i :: 0 <= i < |visits| && visits[i].target.config.enable ==> visits[i].answered
  }

  lemma {:induction false} FirstColonUnique(s: string, n: nat)
    requires n <= |s| && ':' !in s[..n] && (n < |s| ==> s[n] == ':')
    ensures FirstColon(s) == n
  {
  }

  /** The key splits back at its first ':', so addresses that contain ':' survive. */
  lemma {:induction false} KeySplits(host: string, ip: string)
    ensures FirstColon(Key(host, ip)) <= |host|
    ensures ':' !in host <==> FirstColon(Key(host, ip)) == |host|
    ensures Key(host, ip)[|host| + 1..] == ip && Key(host, ip)[..|host|] == host
  {
    var key := Key(host, ip);
    assert key[|host|] == ':' && key[..|host|] == host;
    var c := FirstColon(key);
    assert forall i :: 0 <= i < c ==> key[i] == key[..c][i];
    if ':' !in host { FirstColonUnique(key, |host|); }
  }

  /** A pass writes nothing exactly when every target is settled and every read is answered. */
  lemma {:induction false} NoRewriteIff(store: map<string, Saved>, visits: seq<Visit>)
    ensures !Rewrites(store, visits) <==>
      AllAnswer(visits) && forall i :: 0 <= i < |visits| ==> Settled(store, visits[i].target)
    decreases |visits|
  {
    if visits == [] {
    } else if Writes(store, visits[0]) {
      assert !(visits[0].target.config.enable ==> visits[0].answered) || !Settled(store, visits[0].target);
    } else {
      assert Visited(store, visits[0]) == store;
      NoRewriteIff(store, visits[1..]);
      assert forall i :: 1 <= i < |visits| ==> visits[i] == visits[1..][i - 1];
    }
  }

  /** A visited target of the right shape is settled, whether or not its read was answered. */
  lemma {:induction false} VisitSettles(store: map<string, Saved>, v: Visit)
    requires Shapely(v.target)
    ensures Settled(Visited(store, v), v.target)
  {
    KeySplits(v.target.host, v.target.ip);
  }

  lemma {:induction false} UnsettledShape(store: map<string, Saved>, t: Target)
    requires !Shapely(t)
    ensures !Settled(store, t)
  {
    KeySplits(t.host, t.ip);
  }

  lemma {:induction false} StaysSettled(store: map<string, Saved>, d: Target, v: Visit)
    requires Settled(store, d) && Shapely(v.target) && Agreeing(d, v.target)
    ensures Settled(Visited(store, v), d)
  {
    KeySplits(v.target.host, v.target.ip);
    KeySplits(d.host, d.ip);
  }

  /** Visits of the other targets leave a settled one settled, given one configuration per key. */
  lemma {:induction false} PassKeeps(store: map<string, Saved>, visits: seq<Visit>, d: Target)
    requires Settled(store, d)
    requires forall i :: 0 <= i < |visits| ==> Shapely(visits[i].target) && Agreeing(d, visits[i].target)
    ensures Settled(Pass(store, visits), d)
    decreases |visits|
  {
    if visits == [] {
    } else {
      StaysSettled(store, d, visits[0]);
      PassKeeps(Visited(store, visits[0]), visits[1..], d);
    }
  }

  lemma {:induction false} PassSettles(store: map<string, Saved>, visits: seq<Visit>, i: nat)
    requires Stable(visits) && i < |visits|
    ensures Settled(Pass(store, visits), visits[i].target)
    decreases |visits|
  {
    var store', rest := Visited(store, visits[0]), visits[1..];
    assert forall j :: 0 <= j < |rest| ==> rest[j] == visits[j + 1];
    if i == 0 {
      VisitSettles(store, visits[0]);
      PassKeeps(store', rest, visits[0].target);
    } else {
      PassSettles(store', rest, i - 1);
    }
  }

  lemma {:induction false} SettledIsStable(store: map<string, Saved>, visits: seq<Visit>)
    requires forall i :: 0 <= i < |visits| ==> Settled(store, visits[i].target)
    ensures Stable(visits)
  {
    forall i | 0 <= i < |visits| ensures Shapely(visits[i].target) {
      if !Shapely(visits[i].target) { UnsettledShape(store, visits[i].target); }
    }
  }

  /** Targets that are not stable make every pass write, from every store. */
  lemma {:induction false} UnstableRewrites(store: map<string, Saved>, visits: seq<Visit>)
    requires !Stable(visits)
    ensures Rewrites(store, visits)
  {
    NoRewriteIff(store, visits);
    if !Rewrites(store, visits) { SettledIsStable(store, visits); }
  }

  /**
   After a pass, a second one over the same targets writes nothing exactly when the targets are
   stable and every read of an enabled target is answered the second time.
   */
  lemma {:induction false} SecondPassIff(store: map<string, Saved>, first: seq<Visit>, second: seq<Visit>)
    requires |first| == |second| && forall i :: 0 <= i < |first| ==> first[i].target == second[i].target
    ensures !Rewrites(Pass(store, first), second) <==> Stable(second) && AllAnswer(second)
  {
    var after := Pass(store, first);
    NoRewriteIff(after, second);
    if Stable(second) {
      assert Stable(first);
      forall i | 0 <= i < |second| ensures Settled(after, second[i].target) { PassSettles(store, first, i); }
    } else {
      UnstableRewrites(after, second);
    }
  }

  /** A failed read resets the item of an unchanged configuration, whatever its status was. */
  lemma {:induction false} FailedReadResets(st: State, t: Target)
    requires t.config.enable
    ensures Next(st, Transfer(t, false, true)) == st.(store := st.store[Key(t.host, t.ip) := Saved(t.config, 0, 0, t.domainId)])
  {
  }

  // ---- Interleaved with running checks ---------------------------------------------

  /** Store and in-flight items all carry the configuration of their target. */
  ghost predicate Quiet(st: State, targets: set<Target>) {
    && (forall t :: t in targets ==>
          && t.config.enable && ':' !in t.host && t.config.downCount <= 0
          && Key(t.host, t.ip) in st.store
          && Negated(st.store[Key(t.host, t.ip)]).config == t.config)
    && (forall t, i :: t in targets && 0 <= i < |st.inFlight|
          && Key(st.inFlight[i].host, st.inFlight[i].ip) == Key(t.host, t.ip)
          ==> st.inFlight[i].saved.config == t.config)
  }

  /** Transfer visits the targets, and no target's entry expires; reads and writes may fail. */
  ghost predicate QuietEvent(e: Event, targets: set<Target>) {
    match e
    case Transfer(t, _, _) => t in targets
    case Expire(key) => forall t :: t in targets ==> Key(t.host, t.ip) != key
    case _ => true
  }

  lemma {:induction false} QuietStep(st: State, targets: set<Target>, e: Event)
    requires Quiet(st, targets) && QuietEvent(e, targets)
    ensures Quiet(Next(st, e), targets)
    ensures e.Transfer? ==>
      var key := Key(e.target.host, e.target.ip);
      (Next(st, e) == st <==> e.answered || !e.stored || st.store[key] == NewItem(e.target))
  {
    match e
    case Queue(key, answered) =>
      var c := FirstColon(key);
      if c < |key| { assert key == key[..c] + ":" + key[c + 1..]; }
    case Transfer(t, answered, stored) =>
      KeySplits(t.host, t.ip);
      if !answered && stored { QuietReset(st, targets, t); }
    case _ =>
  }

  lemma {:induction false} QuietReset(st: State, targets: set<Target>, t: Target)
    requires Quiet(st, targets) && t in targets
    ensures Quiet(Next(st, Transfer(t, false, true)), targets)
    ensures Next(st, Transfer(t, false, true)) == st <==> st.store[Key(t.host, t.ip)] == NewItem(t)
  {
    var key, st' := Key(t.host, t.ip), Next(st, Transfer(t, false, true));
    FailedReadResets(st, t);
    if st.store[key] == NewItem(t) { assert st'.store == st.store; } else { assert st'.store[key] != st.store[key]; }
  }

  /**
   From a quiet state, however checks, expiries of other keys and failures are interleaved, a
   Transfer step changes nothing unless its read fails, and then it resets the item.
   */
  lemma {:induction false} QuietForever(st: State, targets: set<Target>, events: seq<Event>, k: nat)
    requires Quiet(st, targets) && forall i :: 0 <= i < |events| ==> QuietEvent(events[i], targets)
    requires k < |events| && events[k].Transfer?
    ensures var before, e := Run(st, events[..k]), events[k];
      var key := Key(e.target.host, e.target.ip);
      && key in before.store
      && (Run(st, events[..k + 1]) == before <==> e.answered || !e.stored || before.store[key] == NewItem(e.target))
      && (Run(st, events[..k + 1]) != before ==>
            Run(st, events[..k + 1]) == before.(store := before.store[key := NewItem(e.target)]))
  {
    QuietRun(st, targets, events, k);
    assert events[..k + 1][..k] == events[..k];
    QuietStep(Run(st, events[..k]), targets, events[k]);
  }

  lemma {:induction false} QuietRun(st: State, targets: set<Target>, events: seq<Event>, k: nat)
    requires Quiet(st, targets) && forall i :: 0 <= i < |events| ==> QuietEvent(events[i], targets)
    requires k <= |events|
    ensures Quiet(Run(st, events[..k]), targets)
  {
    if k == 0 {
    } else {
      QuietRun(st, targets, events, k - 1);
      assert events[..k][..k - 1] == events[..k - 1];
      QuietStep(Run(st, events[..k - 1]), targets, events[k - 1]);
    }
  }

  /** A check queued before a configuration change ends after it: the change is undone, and redone. */
  lemma {:induction false} StaleCheckUndoesTransfer(store: map<string, Saved>, item: Item, t: Target, up: bool, now: int)
    requires t.config.enable && ':' !in t.host && t.config.downCount <= 0
    requires item.host == t.host && item.ip == t.ip && Negated(item.saved).config != t.config
    ensures var st := Run(State(store, [item]), [Transfer(t, true, true), Finish(0, up, now, true)]);
      Rewrites(st.store, [Visit(t, true)])
  {
    var s0, e1, e2 := State(store, [item]), Transfer(t, true, true), Finish(0, up, now, true);
    assert [e1, e2][..1] == [e1] && [e1][..0] == [];
    assert Run(s0, [e1]) == Next(s0, e1);
    assert Run(s0, [e1, e2]) == Next(Next(s0, e1), e2);
    KeySplits(t.host, t.ip);
  }
}
