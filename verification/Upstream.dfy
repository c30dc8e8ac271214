/**
 Upstream.Query of handler/upstream.go: the first resolver that answers, cached for the
 smallest TTL of its answer and then reported with the seconds left.
 */
module Upstream {
  import opened Records

  const SECOND: int := 1_000_000_000
  const DEFAULT_SECONDS: nat := 600

  /** What one resolver gives: no reply, or a message with its rcode. */
  datatype Reply = NoReply | Message(answers: seq<RR>, rcode: Rcode)

  datatype Cached = Cached(answers: seq<RR>, expiry: int)

  type Cache = map<string, Cached>

  /** A zero lifetime asks the cache for its default one. */
  function Expiry(now: int, minTtl: nat): int {
    now + (if minTtl == 0 then DEFAULT_SECONDS else minTtl) * SECOND
  }

  function Remaining(expiry: int, now: int): nat {
    if now <= expiry then (expiry - now) / SECOND else 0
  }

  function WithTtl(rrs: seq<RR>, ttl: nat): seq<RR> {
    seq(|rrs|, i requires 0 <= i < |rrs| => rrs[i].(ttl := ttl))
  }

  function Smallest(rrs: seq<RR>): (m: nat)
    requires rrs != []
    ensures forall i :: 0 <= i < |rrs| ==> m <= rrs[i].ttl
    ensures exists i :: 0 <= i < |rrs| && rrs[i].ttl == m
  {
    if |rrs| == 1 then rrs[0].ttl
    else
      var m := Smallest(rrs[1..]);
      assert forall i :: 1 <= i < |rrs| ==> rrs[i] == rrs[1..][i - 1];
      if rrs[0].ttl < m then rrs[0].ttl else m
  }

  method MinTtl(rrs: seq<RR>) returns (m: nat)
    requires rrs != []
    ensures m == Smallest(rrs)
  {
    m := rrs[0].ttl;
    for i := 0 to |rrs|
      invariant forall j :: 0 <= j < i ==> m <= rrs[j].ttl
      invariant exists j :: 0 <= j < |rrs| && rrs[j].ttl == m
    {
      if rrs[i].ttl < m { m := rrs[i].ttl; }
    }
  }

  /** The position of the first resolver that replies, or the number of resolvers. */
  function FirstReply(replies: seq<Reply>): (k: nat)
    ensures k <= |replies| && (forall j :: 0 <= j < k ==> replies[j].NoReply?)
    ensures k < |replies| ==> replies[k].Message?
  {
    if replies == [] || replies[0].Message? then 0 else 1 + FirstReply(replies[1..])
  }

  predicate Live(cache: Cache, key: string, now: int) {
    key in cache && now <= cache[key].expiry
  }

  /** A reply that is cached. */
  predicate Caches(replies: seq<Reply>) {
    var k := FirstReply(replies);
    k < |replies| && replies[k].rcode == NoError && replies[k].answers != []
  }

  /** What one call returns, and the cache it leaves. */
  function Ask(cache: Cache, key: string, now: int, replies: seq<Reply>): (Cache, seq<RR>, Rcode) {
    var k := FirstReply(replies);
    if Live(cache, key, now) then
      var answers := WithTtl(cache[key].answers, Remaining(cache[key].expiry, now));
      (cache[key := cache[key].(answers := answers)], answers, NoError)
    else if k == |replies| then (cache, [], ServFail)
    else if !Caches(replies) then (cache, replies[k].answers, replies[k].rcode)
    else
      var rrs := replies[k].answers;
      (cache[key := Cached(rrs, Expiry(now, Smallest(rrs)))], rrs, NoError)
  }

  /** The resolver that answered overwrites the first one. */
  function Promoted(connections: seq<string>, k: nat): seq<string>
    requires k < |connections|
  {
    connections[0 := connections[k]]
  }

  class Resolvers {
    var cache: Cache
    var connections: seq<string>

    constructor (connections: seq<string>)
      ensures cache == map[] && this.connections == connections
    {
      cache := map[];
      this.connections := connections;
    }

    /** `replies[i]` is what connection i gives to this question. */
    method Query(key: string, now: int, replies: seq<Reply>) returns (answers: seq<RR>, rcode: Rcode)
      requires |replies| == |connections|
      modifies this
      ensures (cache, answers, rcode) == Ask(old(cache), key, now, replies)
      ensures connections ==
        if !Live(old(cache), key, now) && Caches(replies) then Promoted(old(connections), FirstReply(replies))
        else old(connections)
    {
      if key in cache && now <= cache[key].expiry {
        answers := WithTtl(cache[key].answers, Remaining(cache[key].expiry, now));
        cache := cache[key := cache[key].(answers := answers)];
        return answers, NoError;
      }
      for k := 0 to |replies|
        invariant forall j :: 0 <= j < k ==> replies[j].NoReply?
        invariant cache == old(cache) && connections == old(connections)
      {
        if replies[k].NoReply? { continue; }
        assert FirstReply(replies) == k;
        answers, rcode := replies[k].answers, replies[k].rcode;
        if rcode != NoError || |answers| == 0 { return; }
        var minTtl := MinTtl(answers);
        cache := cache[key := Cached(answers, Expiry(now, minTtl))];
        connections := connections[0 := connections[k]];
        return;
      }
      answers, rcode := [], ServFail;
    }
  }

  /** Whenever a later resolver answers, the first one is gone from a list of distinct resolvers. */
  lemma {:induction false} FirstConnectionLost(connections: seq<string>, k: nat)
    requires k < |connections| && forall i, j :: 0 <= i < j < |connections| ==> connections[i] != connections[j]
    ensures connections[0] in Promoted(connections, k) <==> k == 0
  {
    var after := Promoted(connections, k);
    if k == 0 {
      assert after[0] == connections[0];
    } else {
      assert forall i :: 0 < i < |connections| ==> after[i] == connections[i];
    }
  }

  // ---- Runs --------------------------------------------------------------------------

  /** One call in a run. */
  datatype Call = Call(key: string, now: int, replies: seq<Reply>)

  /** The clock does not go back. */
  ghost predicate Ordered(calls: seq<Call>) {
    forall i, j :: 0 <= i < j < |calls| ==> calls[i].now <= calls[j].now
  }

  /** The cache before call n. */
  function Before(calls: seq<Call>, n: nat): Cache
    requires n <= |calls|
  {
    if n == 0 then map[]
    else Ask(Before(calls, n - 1), calls[n - 1].key, calls[n - 1].now, calls[n - 1].replies).0
  }

  function Answer(calls: seq<Call>, n: nat): seq<RR>
    requires n < |calls|
  {
    Ask(Before(calls, n), calls[n].key, calls[n].now, calls[n].replies).1
  }

  /** Call n is answered from the cache. */
  predicate Hit(calls: seq<Call>, n: nat)
    requires n < |calls|
  {
    Live(Before(calls, n), calls[n].key, calls[n].now)
  }

  /** Call n stores a new answer for its key. */
  predicate Stores(calls: seq<Call>, n: nat)
    requires n < |calls|
  {
    !Hit(calls, n) && Caches(calls[n].replies)
  }

  /** Hit n serves the answer that call m stored: the last store of that key before n. */
  ghost predicate Serves(calls: seq<Call>, m: nat, n: nat)
    requires m < n < |calls|
  {
    && calls[m].key == calls[n].key && Stores(calls, m) && Hit(calls, n)
    && forall i :: m < i < n && calls[i].key == calls[n].key ==> !Stores(calls, i)
  }

  /** The entry at `n` goes back to call `m`: same records but for the TTL, and its expiry. */
  ghost predicate StoredBy(calls: seq<Call>, m: nat, n: nat, key: string)
    requires m < n <= |calls| && key in Before(calls, n)
  {
    && calls[m].key == key && Stores(calls, m) && Answer(calls, m) != []
    && WithTtl(Before(calls, n)[key].answers, 0) == WithTtl(Answer(calls, m), 0)
    && Before(calls, n)[key].expiry == Expiry(calls[m].now, Smallest(Answer(calls, m)))
    && forall i :: m < i < n && calls[i].key == key ==> !Stores(calls, i)
  }

  lemma {:induction false} WithTtlTwice(rrs: seq<RR>, a: nat, b: nat)
    ensures WithTtl(WithTtl(rrs, a), b) == WithTtl(rrs, b)
  {
  }

  /** In every run, every cache entry goes back to the last call that stored its key. */
  lemma {:induction false} EntryHasSource(calls: seq<Call>, n: nat, key: string) returns (m: nat)
    requires n <= |calls| && key in Before(calls, n)
    ensures m < n && StoredBy(calls, m, n, key)
  {
    if calls[n - 1].key == key && Stores(calls, n - 1) {
      m := n - 1;
    } else {
      EntryIsKept(calls, n - 1, key);
      m := EntryHasSource(calls, n - 1, key);
    }
  }

  /** A call that does not store the key leaves its entry as it is, but for the TTLs. */
  lemma {:induction false} EntryIsKept(calls: seq<Call>, n: nat, key: string)
    requires n < |calls| && key in Before(calls, n + 1) && !(calls[n].key == key && Stores(calls, n))
    ensures key in Before(calls, n)
    ensures Before(calls, n + 1)[key].expiry == Before(calls, n)[key].expiry
    ensures WithTtl(Before(calls, n + 1)[key].answers, 0) == WithTtl(Before(calls, n)[key].answers, 0)
  {
    var c, before := calls[n], Before(calls, n);
    if c.key == key && Hit(calls, n) {
      WithTtlTwice(before[key].answers, Remaining(before[key].expiry, c.now), 0);
    }
  }

  /**
   In every run, every hit serves the answer of an earlier call for the same key: the same
   records, each with the seconds that are left of that answer's lifetime.
   */
  lemma {:induction false} HitHasSource(calls: seq<Call>, n: nat) returns (m: nat)
    requires n < |calls| && Hit(calls, n)
    ensures m < n && Serves(calls, m, n) && Answer(calls, m) != []
    ensures Answer(calls, n) ==
      WithTtl(Answer(calls, m), Remaining(Expiry(calls[m].now, Smallest(Answer(calls, m))), calls[n].now))
  {
    var key, entry := calls[n].key, Before(calls, n)[calls[n].key];
    m := EntryHasSource(calls, n, key);
    var ttl := Remaining(entry.expiry, calls[n].now);
    WithTtlTwice(entry.answers, 0, ttl);
    WithTtlTwice(Answer(calls, m), 0, ttl);
  }

  lemma {:induction false} SourceIsUnique(calls: seq<Call>, m: nat, m': nat, n: nat)
    requires m < n < |calls| && m' < n && Serves(calls, m, n) && Serves(calls, m', n)
    ensures m == m'
  {
  }

  /** Every record of a hit reports the seconds left of the answer it serves. */
  lemma {:induction false} HitReports(calls: seq<Call>, m: nat, n: nat, i: nat)
    requires m < n < |calls| && Serves(calls, m, n) && i < |Answer(calls, n)|
    ensures Answer(calls, m) != []
    ensures Answer(calls, n)[i].ttl == Remaining(Expiry(calls[m].now, Smallest(Answer(calls, m))), calls[n].now)
  {
    var m' := HitHasSource(calls, n);
    SourceIsUnique(calls, m, m', n);
  }

  /** Later hits on one stored answer never report more. */
  lemma {:induction false} HitsNeverGrow(calls: seq<Call>, m: nat, n: nat, n': nat, i: nat)
    requires Ordered(calls) && m < n < n' < |calls| && Serves(calls, m, n) && Serves(calls, m, n')
    requires i < |Answer(calls, n)| && i < |Answer(calls, n')|
    ensures Answer(calls, n')[i].ttl <= Answer(calls, n)[i].ttl
  {
    HitReports(calls, m, n, i);
    HitReports(calls, m, n', i);
    RemainingShrinks(Expiry(calls[m].now, Smallest(Answer(calls, m))), calls[n].now, calls[n'].now);
  }

  lemma {:induction false} RemainingShrinks(expiry: int, hit: int, later: int)
    requires hit <= later
    ensures Remaining(expiry, later) <= Remaining(expiry, hit)
  {
    if later <= expiry { DivMonotone(expiry - later, expiry - hit); }
  }

  lemma {:induction false} DivMonotone(a: int, b: int)
    requires 0 <= a <= b
    ensures a / SECOND <= b / SECOND
  {
    assert a == (a / SECOND) * SECOND + a % SECOND && b == (b / SECOND) * SECOND + b % SECOND;
  }

  /** No hit on a stored answer, in any run, reports more than the smallest TTL of that answer. */
  ghost predicate Honest(rrs: seq<RR>)
    requires rrs != []
  {
    forall calls: seq<Call>, m: nat, n: nat, i: nat ::
      Ordered(calls) && m < n < |calls| && Serves(calls, m, n) && Answer(calls, m) == rrs && i < |Answer(calls, n)|
      ==> Answer(calls, n)[i].ttl <= Smallest(rrs)
  }

  lemma {:induction false} HitBounded(calls: seq<Call>, m: nat, n: nat, i: nat)
    requires Ordered(calls) && m < n < |calls| && Serves(calls, m, n) && i < |Answer(calls, n)|
    ensures Answer(calls, m) != []
    ensures Smallest(Answer(calls, m)) >= 1 ==> Answer(calls, n)[i].ttl <= Smallest(Answer(calls, m))
  {
    HitReports(calls, m, n, i);
    var min := Smallest(Answer(calls, m));
    RemainingShrinks(Expiry(calls[m].now, min), calls[m].now, calls[n].now);
  }

  /** An answer with a zero TTL is served again at once, with 600 seconds to live. */
  lemma {:induction false} ZeroTtlLives(rrs: seq<RR>, key: string)
    requires rrs != [] && Smallest(rrs) == 0
    ensures var c := Call(key, 0, [Message(rrs, NoError)]); var calls := [c, c];
      && Ordered(calls) && Serves(calls, 0, 1) && Answer(calls, 0) == rrs
      && Answer(calls, 1) == WithTtl(rrs, DEFAULT_SECONDS)
  {
    var c := Call(key, 0, [Message(rrs, NoError)]);
    var calls := [c, c];
    assert FirstReply(c.replies) == 0;
    assert Before(calls, 0) == map[];
    assert Before(calls, 1) == map[key := Cached(rrs, Expiry(0, 0))];
    assert Remaining(Expiry(0, 0), 0) == DEFAULT_SECONDS;
  }

  /** Cached answers are reported within their smallest TTL, in all runs, exactly when it is not zero. */
  lemma {:induction false} HonestIff(rrs: seq<RR>)
    requires rrs != []
    ensures Honest(rrs) <==> Smallest(rrs) >= 1
  {
    if Smallest(rrs) >= 1 {
      forall calls: seq<Call>, m: nat, n: nat, i: nat |
        Ordered(calls) && m < n < |calls| && Serves(calls, m, n) && Answer(calls, m) == rrs && i < |Answer(calls, n)|
        ensures Answer(calls, n)[i].ttl <= Smallest(rrs)
      {
        HitBounded(calls, m, n, i);
      }
    } else {
      ZeroTtlLives(rrs, "");
      var c := Call("", 0, [Message(rrs, NoError)]);
      assert Answer([c, c], 1)[0].ttl > 0;
    }
  }

  // ---- How long an answer lives ---------------------------------------------------------------

  lemma {:induction false} KeyStays(calls: seq<Call>, m: nat, n: nat)
    requires m < n <= |calls| && Stores(calls, m)
    ensures calls[m].key in Before(calls, n)
  {
    if n == m + 1 {
    } else {
      KeyStays(calls, m, n - 1);
    }
  }

  /**
   After a store the key is answered from the cache exactly for the smallest TTL of the answer, in
   seconds (600 for a zero TTL), and each record then reports the whole seconds that are left.
   */
  lemma {:induction false} LivesForItsTtl(calls: seq<Call>, m: nat, n: nat)
    requires m < n < |calls| && Stores(calls, m) && calls[m].key == calls[n].key
    requires forall i :: m < i < n && calls[i].key == calls[n].key ==> !Stores(calls, i)
    ensures Answer(calls, m) != []
    ensures var ttl := Smallest(Answer(calls, m));
      var end := calls[m].now + (if ttl == 0 then 600 else ttl) * 1_000_000_000;
      && (Hit(calls, n) <==> calls[n].now <= end)
      && (Hit(calls, n) ==> forall i :: 0 <= i < |Answer(calls, n)| ==>
            Answer(calls, n)[i].ttl == (end - calls[n].now) / 1_000_000_000)
  {
    KeyStays(calls, m, n);
    var key := calls[n].key;
    var m' := EntryHasSource(calls, n, key);
    assert m' == m;
    if Hit(calls, n) {
      forall i | 0 <= i < |Answer(calls, n)|
        ensures Answer(calls, n)[i].ttl == Remaining(Expiry(calls[m].now, Smallest(Answer(calls, m))), calls[n].now)
      {
        HitReports(calls, m, n, i);
      }
    }
  }

  /** On a miss the first resolver that replies is relayed, and cached only if it succeeds with an answer. */
  lemma {:induction false} MissRelays(cache: Cache, key: string, now: int, replies: seq<Reply>, k: nat)
    requires key in cache ==> cache[key].expiry < now
    requires k <= |replies| && (forall j :: 0 <= j < k ==> replies[j] == NoReply) && (k < |replies| ==> replies[k] != NoReply)
    ensures var (cache', answers, rcode) := Ask(cache, key, now, replies);
      if k == |replies| then answers == [] && rcode == ServFail && cache' == cache
      else
        && answers == replies[k].answers && rcode == replies[k].rcode
        && (rcode != NoError || answers == [] ==> cache' == cache)
        && (rcode == NoError && answers != [] ==> key in cache' && cache' == cache[key := cache'[key]] && cache'[key].answers == answers)
  {
    assert FirstReply(replies) == k;
  }
}
