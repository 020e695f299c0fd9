// The token bucket with its bounded, evicting map (src/limits.rs). Times are seconds; the f64
// fields are reals.
module TokenBucket {
  const IDLE_EVICT: real := 600.0
  const MAX_TRACKED_PEERS: nat := 4096

  /** The two numbers a limiter runs on; a rate of zero disables it. */
  datatype Config = Config(cap: real, rate: real) {
    predicate Ok() { 0.0 <= cap && 0.0 <= rate }
  }

  /** `capacity` requests may burst; the bucket refills `perMinute` tokens a minute. */
  function New(capacity: nat, perMinute: nat): Config {
    Config(capacity as real, perMinute as real / 60.0)
  }

  datatype Bucket = Bucket(tokens: real, last: real)

  type Buckets = map<string, Bucket>

  function Min(x: real, y: real): real {
    if x <= y then x else y
  }

  /** A time before `last` counts as no time at all. */
  function Elapsed(last: real, now: real): real {
    if now >= last then now - last else 0.0
  }

  function Refilled(c: Config, b: Bucket, now: real): real {
    Min(b.tokens + Elapsed(b.last, now) * c.rate, c.cap)
  }

  function TakeFrom(c: Config, b: Bucket, now: real): (Bucket, bool) {
    var tokens := Refilled(c, b, now);
    if tokens >= 1.0 then (Bucket(tokens - 1.0, now), true) else (Bucket(tokens, now), false)
  }

  /** The bucket that a take of `key` works on: the tracked one, or a full new one. */
  function Tracked(c: Config, m: Buckets, key: string, now: real): Bucket {
    if key in m then m[key] else Bucket(c.cap, now)
  }

  /** A take while there is room for its key. */
  function TakeMap(c: Config, m: Buckets, key: string, now: real): (Buckets, bool) {
    var (b, ok) := TakeFrom(c, Tracked(c, m, key, now), now);
    (m[key := b], ok)
  }

  function SweepMap(m: Buckets, now: real): Buckets {
    map k | k in m && now - m[k].last < IDLE_EVICT :: m[k]
  }

  /** `kept` is what is left of `m` after the coldest entries made room for one more. */
  ghost predicate RoomMade(m: Buckets, kept: Buckets) {
    && kept.Keys <= m.Keys && (forall k :: k in kept ==> kept[k] == m[k])
    && |kept| == (if |m| < MAX_TRACKED_PEERS then |m| else MAX_TRACKED_PEERS - 1)
    && (forall gone, k :: gone in m && gone !in kept && k in kept ==> m[gone].last <= m[k].last)
  }

  ghost predicate InRange(c: Config, m: Buckets) {
    forall k :: k in m ==> 0.0 <= m[k].tokens <= c.cap
  }

  predicate Coldest(m: Buckets, among: set<string>, k: string)
    requires among <= m.Keys
  {
    k in among && forall l :: l in among ==> m[k].last <= m[l].last
  }

  lemma ColdestExists(m: Buckets, among: set<string>)
    requires among <= m.Keys && among != {}
    ensures exists k :: Coldest(m, among, k)
  {
    var any :| any in among;
    var rest := among - {any};
    if rest == {} {
      assert among == {any};
      assert Coldest(m, among, any);
    } else {
      ColdestExists(m, rest);
      var k :| Coldest(m, rest, k);
      if m[any].last <= m[k].last {
        assert Coldest(m, among, any);
      } else {
        assert Coldest(m, among, k);
      }
    }
  }

  /** Nothing goes while there is room. */
  lemma RoomUnneeded(m: Buckets, kept: Buckets)
    requires RoomMade(m, kept) && |m| < MAX_TRACKED_PEERS
    ensures kept == m
  {
    if k :| k in m && k !in kept {
      assert |m.Keys - {k}| == |m| - 1;
      SizeMonotone(kept.Keys, m.Keys - {k});
    }
  }

  lemma TakeFromInRange(c: Config, b: Bucket, now: real)
    requires c.Ok() && 0.0 <= b.tokens <= c.cap
    ensures 0.0 <= TakeFrom(c, b, now).0.tokens <= c.cap
  {
    Product(Elapsed(b.last, now), 0.0, c.rate);
  }

  lemma Product(x: real, y: real, r: real)
    requires x >= y && r >= 0.0
    ensures x * r >= y * r
  {
    assert (x - y) * r >= 0.0;
  }

  lemma TakeMapInRange(c: Config, m: Buckets, key: string, at: real)
    requires c.Ok() && InRange(c, m)
    ensures InRange(c, TakeMap(c, m, key, at).0)
  {
    TakeFromInRange(c, Tracked(c, m, key, at), at);
  }

  lemma InsertSize(m: Buckets, key: string, b: Bucket)
    ensures |m[key := b]| == if key in m then |m| else |m| + 1
  {
    assert m[key := b].Keys == m.Keys + {key};
  }

  class TokenBucket {
    const config: Config
    var buckets: Buckets

    ghost predicate Valid()
      reads this
    {
      config.Ok() && |buckets| <= MAX_TRACKED_PEERS && InRange(config, buckets)
    }

    constructor (capacity: nat, perMinute: nat)
      ensures Valid() && buckets == map[] && config == New(capacity, perMinute)
    {
      config := New(capacity, perMinute);
      buckets := map[];
    }

    predicate IsDisabled() { config.rate == 0.0 }

    /** Drops the coldest entries until there is room for one more. */
    method MakeRoom()
      requires Valid()
      modifies this
      ensures Valid() && RoomMade(old(buckets), buckets)
    {
      while |buckets| >= MAX_TRACKED_PEERS
        invariant Valid()
        invariant buckets.Keys <= old(buckets).Keys && forall k :: k in buckets ==> buckets[k] == old(buckets)[k]
        invariant |buckets| == |old(buckets)| || |buckets| >= MAX_TRACKED_PEERS - 1
        invariant |buckets| == |old(buckets)| ==> buckets == old(buckets)
        invariant |old(buckets)| < MAX_TRACKED_PEERS ==> buckets == old(buckets)
        invariant forall gone, k :: gone in old(buckets) && gone !in buckets && k in buckets ==>
                    old(buckets)[gone].last <= buckets[k].last
        decreases |buckets|
      {
        ColdestExists(buckets, buckets.Keys);
        var coldest :| coldest in buckets && Coldest(buckets, buckets.Keys, coldest);
        assert (buckets - {coldest}).Keys == buckets.Keys - {coldest};
        buckets := buckets - {coldest};
      }
    }

    /** Takes one token for `key`, or reports that the caller is over budget. */
    method Take(key: string, now: real) returns (ok: bool)
      requires Valid()
      modifies this
      ensures Valid()
      ensures IsDisabled() ==> ok && buckets == old(buckets)
      ensures !IsDisabled() && (key in old(buckets) || |old(buckets)| < MAX_TRACKED_PEERS) ==>
                (buckets, ok) == TakeMap(config, old(buckets), key, now)
      ensures !IsDisabled() && key !in old(buckets) ==>
                exists kept :: RoomMade(old(buckets), kept) && (buckets, ok) == TakeMap(config, kept, key, now)
    {
      if IsDisabled() { return true; }
      if key !in buckets {
        MakeRoom();
        if |old(buckets)| < MAX_TRACKED_PEERS { RoomUnneeded(old(buckets), buckets); }
      }
      ghost var kept := buckets;
      var state := if key in buckets then buckets[key] else Bucket(config.cap, now);
      state := Bucket(Refilled(config, state, now), now);
      ok := state.tokens >= 1.0;
      if ok {
        state := state.(tokens := state.tokens - 1.0);
      }
      InsertSize(buckets, key, state);
      buckets := buckets[key := state];
      TakeMapInRange(config, kept, key, now);
    }

    /** Drops the buckets that nobody touched for the idle window. */
    method EvictIdle(now: real)
      requires Valid()
      modifies this
      ensures Valid()
      ensures buckets == if IsDisabled() then old(buckets) else SweepMap(old(buckets), now)
    {
      if IsDisabled() { return; }
      var swept := SweepMap(buckets, now);
      assert swept.Keys <= buckets.Keys;
      SizeMonotone(swept.Keys, buckets.Keys);
      buckets := swept;
    }
  }

  lemma SizeMonotone<T>(a: set<T>, b: set<T>)
    requires a <= b
    ensures |a| <= |b|
  {
    if a != {} {
      var x :| x in a;
      SizeMonotone(a - {x}, b - {x});
    }
  }

  // ---- runs of the limiter ----

  datatype Event = Take(key: string, at: real) | Sweep(at: real)

  ghost predicate Ordered(events: seq<Event>) {
    forall i, j :: 0 <= i <= j < |events| ==> events[i].at <= events[j].at
  }

  /** One event on the map, with all that eviction may do, and the answer it gives. */
  ghost predicate StepOf(c: Config, m: Buckets, e: Event, m': Buckets, answer: bool) {
    match e
    case Sweep(at) => m' == SweepMap(m, at) && !answer
    case Take(key, at) =>
      if key in m then (m', answer) == TakeMap(c, m, key, at)
      else exists kept :: RoomMade(m, kept) && (m', answer) == TakeMap(c, kept, key, at)
  }

  ghost predicate IsRun(c: Config, maps: seq<Buckets>, events: seq<Event>, answers: seq<bool>) {
    // at rate zero the limiter is disabled and keeps no buckets
    && c.Ok() && c.rate > 0.0 && |maps| == |events| + 1 && |answers| == |events|
    && maps[0] == map[]
    && forall i :: 0 <= i < |events| ==> StepOf(c, maps[i], events[i], maps[i + 1], answers[i])
  }

  /** A step of the limiter, or of one that leaves out sweeps or the cap. */
  ghost predicate Traces(c: Config, m: Buckets, e: Event, m': Buckets, answer: bool) {
    || StepOf(c, m, e, m', answer)
    || (if e.Take? then (m', answer) == TakeMap(c, m, e.key, e.at) else m' == m && !answer)
  }

  /** A run in which sweeps and the cap may be left out. */
  ghost predicate IsTrace(c: Config, maps: seq<Buckets>, events: seq<Event>, answers: seq<bool>) {
    && c.Ok() && |maps| == |events| + 1 && |answers| == |events| && maps[0] == map[]
    && forall i :: 0 <= i < |events| ==> Traces(c, maps[i], events[i], maps[i + 1], answers[i])
  }

  predicate Admits(e: Event, answer: bool, key: string) {
    e.Take? && e.key == key && answer
  }

  /** How often `key` was admitted among the events from `i` to `j - 1`. */
  function Admitted(events: seq<Event>, answers: seq<bool>, key: string, i: nat, j: nat): nat
    requires i <= j <= |events| == |answers|
    decreases j - i
  {
    if i == j then 0
    else Admitted(events, answers, key, i, j - 1) + if Admits(events[j - 1], answers[j - 1], key) then 1 else 0
  }

  lemma StepInRange(c: Config, m: Buckets, e: Event, m': Buckets, answer: bool)
    requires c.Ok() && Traces(c, m, e, m', answer) && InRange(c, m)
    ensures InRange(c, m')
  {
    if e.Take? {
      TakeMapInRange(c, m, e.key, e.at);
      if (m', answer) != TakeMap(c, m, e.key, e.at) {
        var kept :| RoomMade(m, kept) && (m', answer) == TakeMap(c, kept, e.key, e.at);
        TakeMapInRange(c, kept, e.key, e.at);
      }
    }
  }

  lemma StepUnderMax(c: Config, m: Buckets, e: Event, m': Buckets, answer: bool)
    requires StepOf(c, m, e, m', answer) && |m| <= MAX_TRACKED_PEERS
    ensures |m'| <= MAX_TRACKED_PEERS
  {
    match e
    case Sweep(at) => SizeMonotone(m'.Keys, m.Keys);
    case Take(key, at) =>
      if key in m {
        InsertSize(m, key, m'[key]);
      } else {
        var kept :| RoomMade(m, kept) && (m', answer) == TakeMap(c, kept, key, at);
        InsertSize(kept, key, m'[key]);
      }
  }

  lemma {:induction false} TraceInRange(c: Config, maps: seq<Buckets>, events: seq<Event>, answers: seq<bool>, k: nat)
    requires IsTrace(c, maps, events, answers) && k <= |events|
    ensures InRange(c, maps[k])
  {
    if k > 0 {
      TraceInRange(c, maps, events, answers, k - 1);
      StepInRange(c, maps[k - 1], events[k - 1], maps[k], answers[k - 1]);
    }
  }

  /** In every run the map stays under its cap, and the tokens of every entry under the capacity. */
  lemma {:induction false} RunInRange(c: Config, maps: seq<Buckets>, events: seq<Event>, answers: seq<bool>, k: nat)
    requires IsRun(c, maps, events, answers) && k <= |events|
    ensures InRange(c, maps[k]) && |maps[k]| <= MAX_TRACKED_PEERS
  {
    if k > 0 {
      RunInRange(c, maps, events, answers, k - 1);
      StepInRange(c, maps[k - 1], events[k - 1], maps[k], answers[k - 1]);
      StepUnderMax(c, maps[k - 1], events[k - 1], maps[k], answers[k - 1]);
    }
  }

  /** The tokens never exceed what was there and what time brought. */
  lemma TakePays(c: Config, b: Bucket, now: real)
    requires c.Ok() && now >= b.last && b.tokens <= c.cap
    ensures var (b', ok) := TakeFrom(c, b, now);
            && b'.last == now
            && b'.tokens + (if ok then 1.0 else 0.0) <= b.tokens + (now - b.last) * c.rate
            && b'.tokens + (if ok then 1.0 else 0.0) <= c.cap
  {
    Product(now - b.last, 0.0, c.rate);
  }

  /** The key's last take is never in the future, and its entry stays once it is there. */
  ghost predicate NeverEvicted(maps: seq<Buckets>, key: string) {
    forall i, j :: 0 <= i <= j < |maps| && key in maps[i] ==> key in maps[j]
  }

  lemma {:induction false} LastInPast(c: Config, maps: seq<Buckets>, events: seq<Event>, answers: seq<bool>,
                                      key: string, k: nat)
    requires IsTrace(c, maps, events, answers) && Ordered(events) && k < |events|
    ensures key in maps[k] ==> maps[k][key].last <= events[k].at
  {
    if k > 0 {
      LastInPast(c, maps, events, answers, key, k - 1);
      assert Traces(c, maps[k - 1], events[k - 1], maps[k], answers[k - 1]);
      assert events[k - 1].at <= events[k].at;
    }
  }

  lemma StepTakes(c: Config, m: Buckets, key: string, at: real, m': Buckets, answer: bool)
    requires Traces(c, m, Take(key, at), m', answer)
    ensures key in m' && (m'[key], answer) == TakeFrom(c, Tracked(c, m, key, at), at)
  {
    if (m', answer) != TakeMap(c, m, key, at) {
      var kept :| RoomMade(m, kept) && (m', answer) == TakeMap(c, kept, key, at);
    }
  }

  lemma StepLeaves(c: Config, m: Buckets, e: Event, m': Buckets, answer: bool, key: string)
    requires Traces(c, m, e, m', answer) && key in m && key in m' && !(e.Take? && e.key == key)
    ensures m'[key] == m[key]
  {
    if e.Take? && (m', answer) != TakeMap(c, m, e.key, e.at) {
      var kept :| RoomMade(m, kept) && (m', answer) == TakeMap(c, kept, e.key, e.at);
    }
  }

  /** `n` admissions since `start` and the tokens left are paid by one full bucket and the time since. */
  ghost predicate Covers(c: Config, b: Bucket, n: nat, start: real) {
    start <= b.last && n as real + b.tokens <= c.cap + (b.last - start) * c.rate
  }

  lemma TakeKeepsCover(c: Config, b: Bucket, at: real, start: real, n: nat)
    requires c.Ok() && b.last <= at && b.tokens <= c.cap && start <= at
    requires n > 0 ==> Covers(c, b, n, start)
    ensures var (b', ok) := TakeFrom(c, b, at); Covers(c, b', if ok then n + 1 else n, start)
  {
    TakePays(c, b, at);
    Product(at - start, 0.0, c.rate);
    assert (b.last - start) * c.rate + (at - b.last) * c.rate == (at - start) * c.rate;
  }

  lemma CoverBounds(c: Config, b: Bucket, n: nat, start: real, t1: real, t2: real)
    requires c.Ok() && 0.0 <= b.tokens && Covers(c, b, n, start) && t1 <= start && b.last <= t2
    ensures n as real <= c.cap + (t2 - t1) * c.rate
  {
    Product(t2 - t1, b.last - start, c.rate);
  }

  /** A take of the key itself, whatever eviction did to the others. */
  lemma OwnStepKeepsCover(c: Config, m: Buckets, key: string, at: real, m': Buckets, answer: bool, n: nat, start: real)
    requires c.Ok() && InRange(c, m) && Traces(c, m, Take(key, at), m', answer)
    requires start <= at && (key in m ==> m[key].last <= at)
    requires n > 0 ==> key in m && Covers(c, m[key], n, start)
    ensures key in m' && Covers(c, m'[key], if answer then n + 1 else n, start)
  {
    var b := Tracked(c, m, key, at);
    StepTakes(c, m, key, at, m', answer);
    TakeKeepsCover(c, b, at, start, n);
  }

  /** One event of any kind, while the key is not evicted. */
  lemma StepKeepsCover(c: Config, m: Buckets, e: Event, m': Buckets, answer: bool, key: string, n: nat, start: real)
    requires c.Ok() && InRange(c, m) && Traces(c, m, e, m', answer)
    requires start <= e.at && (key in m ==> key in m' && m[key].last <= e.at)
    requires n > 0 ==> key in m && Covers(c, m[key], n, start)
    ensures Admits(e, answer, key) ==> key in m' && Covers(c, m'[key], n + 1, start)
    ensures !Admits(e, answer, key) && n > 0 ==> key in m' && Covers(c, m'[key], n, start)
  {
    if e.Take? && e.key == key {
      OwnStepKeepsCover(c, m, key, e.at, m', answer, n, start);
    } else if n > 0 {
      StepLeaves(c, m, e, m', answer, key);
    }
  }

  /** The same, with the count that it leaves. */
  lemma CountKeepsCover(c: Config, m: Buckets, e: Event, m': Buckets, answer: bool, key: string,
                        n: nat, n': nat, start: real)
    requires c.Ok() && InRange(c, m) && Traces(c, m, e, m', answer)
    requires start <= e.at && (key in m ==> key in m' && m[key].last <= e.at)
    requires n > 0 ==> key in m && Covers(c, m[key], n, start)
    requires n' == n + if Admits(e, answer, key) then 1 else 0
    ensures n' > 0 ==> key in m' && Covers(c, m'[key], n', start)
  {
    StepKeepsCover(c, m, e, m', answer, key, n, start);
  }

  /** What was admitted from event `i` on is covered at every later point of the run. */
  lemma {:induction false} RunCovered(c: Config, maps: seq<Buckets>, events: seq<Event>, answers: seq<bool>,
                                      key: string, i: nat, k: nat)
    requires IsTrace(c, maps, events, answers) && Ordered(events) && NeverEvicted(maps, key)
    requires i < |events| && i <= k <= |events|
    ensures Admitted(events, answers, key, i, k) > 0 ==>
              key in maps[k] && Covers(c, maps[k][key], Admitted(events, answers, key, i, k), events[i].at)
    decreases k
  {
    if i < k {
      RunCovered(c, maps, events, answers, key, i, k - 1);
      TraceInRange(c, maps, events, answers, k - 1);
      LastInPast(c, maps, events, answers, key, k - 1);
      assert events[i].at <= events[k - 1].at;
      CountKeepsCover(c, maps[k - 1], events[k - 1], maps[k], answers[k - 1], key,
                      Admitted(events, answers, key, i, k - 1), Admitted(events, answers, key, i, k), events[i].at);
    }
  }

  /** The last take of a key is not after the last event. */
  lemma LastBefore(c: Config, maps: seq<Buckets>, events: seq<Event>, answers: seq<bool>, key: string, k: nat)
    requires IsTrace(c, maps, events, answers) && Ordered(events) && 0 < k <= |events| && key in maps[k]
    ensures maps[k][key].last <= events[k - 1].at
  {
    LastInPast(c, maps, events, answers, key, k - 1);
    assert Traces(c, maps[k - 1], events[k - 1], maps[k], answers[k - 1]);
  }

  lemma BudgetIsPositive(c: Config, t1: real, t2: real)
    requires c.Ok() && t1 <= t2
    ensures 0.0 <= c.cap + (t2 - t1) * c.rate
  {
    var x, r := t2 - t1, c.rate;
    Product(x, 0.0, r);
    assert 0.0 <= c.cap + x * r;
  }

  lemma TraceBound(c: Config, maps: seq<Buckets>, events: seq<Event>, answers: seq<bool>,
                   key: string, i: nat, j: nat, t1: real, t2: real)
    requires IsTrace(c, maps, events, answers) && Ordered(events) && NeverEvicted(maps, key)
    requires i < j <= |events| && t1 <= events[i].at && events[j - 1].at <= t2
    ensures Admitted(events, answers, key, i, j) as real <= c.cap + (t2 - t1) * c.rate
  {
    assert events[i].at <= events[j - 1].at;
    BudgetIsPositive(c, t1, t2);
    if Admitted(events, answers, key, i, j) > 0 {
      RunCovered(c, maps, events, answers, key, i, j);
      TraceInRange(c, maps, events, answers, j);
      LastBefore(c, maps, events, answers, key, j);
      CoverBounds(c, maps[j][key], Admitted(events, answers, key, i, j), events[i].at, t1, t2);
    }
  }

  /**
   * The admission bound: between any two moments of any run with times in order, a key that is
   * never evicted is admitted at most a full bucket plus what the time in between refills.
   */
  lemma AdmissionBound(c: Config, maps: seq<Buckets>, events: seq<Event>, answers: seq<bool>,
                       key: string, i: nat, j: nat, t1: real, t2: real)
    requires IsRun(c, maps, events, answers) && Ordered(events) && NeverEvicted(maps, key)
    requires i < j <= |events| && t1 <= events[i].at && events[j - 1].at <= t2
    ensures Admitted(events, answers, key, i, j) as real <= c.cap + (t2 - t1) * c.rate
  {
    TraceBound(c, maps, events, answers, key, i, j, t1, t2);
  }

  // ---- idle sweeps and the answers ----

  /** The tracked buckets after some events, with the sweeps carried out or ignored. */
  function After(c: Config, sweeping: bool, events: seq<Event>): Buckets
    decreases |events|
  {
    if events == [] then map[]
    else
      var m := After(c, sweeping, events[..|events| - 1]);
      match events[|events| - 1]
      case Take(key, at) => TakeMap(c, m, key, at).0
      case Sweep(at) => if sweeping then SweepMap(m, at) else m
  }

  /** The answer to a take after some events. */
  function Answer(c: Config, sweeping: bool, events: seq<Event>, key: string, at: real): bool {
    TakeMap(c, After(c, sweeping, events), key, at).1
  }

  /** What the swept map forgot is idle for the whole window. */
  ghost predicate Forgets(swept: Buckets, full: Buckets, now: real) {
    && swept.Keys <= full.Keys && (forall k :: k in swept ==> swept[k] == full[k])
    && (forall k :: k in full ==> full[k].last <= now && 0.0 <= full[k].tokens)
    && (forall k :: k in full && k !in swept ==> now - full[k].last >= IDLE_EVICT)
  }

  lemma IdleRefills(c: Config, b: Bucket, now: real)
    requires c.Ok() && c.cap <= IDLE_EVICT * c.rate
    requires now - b.last >= IDLE_EVICT && 0.0 <= b.tokens
    ensures Refilled(c, b, now) == c.cap
  {
    var elapsed := Elapsed(b.last, now);
    Product(elapsed, IDLE_EVICT, c.rate);
    assert elapsed * c.rate >= c.cap;
  }

  lemma NewIsFull(c: Config, now: real)
    ensures Refilled(c, Bucket(c.cap, now), now) == c.cap
  {
    assert (now - now) * c.rate == 0.0;
  }

  /** An entry that was idle for the window looks like a new one, if the window fills a bucket. */
  lemma IdleIsFull(c: Config, b: Bucket, now: real)
    requires c.Ok() && c.cap <= IDLE_EVICT * c.rate
    requires now - b.last >= IDLE_EVICT && 0.0 <= b.tokens
    ensures TakeFrom(c, b, now) == TakeFrom(c, Bucket(c.cap, now), now)
  {
    IdleRefills(c, b, now);
    NewIsFull(c, now);
  }

  lemma {:induction false} SweepsForget(c: Config, events: seq<Event>, now: real)
    requires c.Ok() && c.cap <= IDLE_EVICT * c.rate && Ordered(events)
    requires forall e :: e in events ==> e.at <= now
    ensures Forgets(After(c, true, events), After(c, false, events), now)
    decreases |events|
  {
    if events != [] {
      var before, e := events[..|events| - 1], events[|events| - 1];
      assert e in events;
      forall d | d in before ensures d.at <= e.at {
        var i :| 0 <= i < |before| && before[i] == d;
        assert events[i].at <= events[|events| - 1].at;
      }
      SweepsForget(c, before, e.at);
      var swept, full := After(c, true, before), After(c, false, before);
      if e.Take? {
        if e.key in full {
          TakeFromInRangeBelow(c, full[e.key], e.at);
          if e.key !in swept { IdleIsFull(c, full[e.key], e.at); }
        } else {
          TakeFromInRangeBelow(c, Bucket(c.cap, e.at), e.at);
        }
      }
    }
  }

  lemma TakeFromInRangeBelow(c: Config, b: Bucket, now: real)
    requires c.Ok() && 0.0 <= b.tokens
    ensures 0.0 <= TakeFrom(c, b, now).0.tokens
  {
    Product(Elapsed(b.last, now), 0.0, c.rate);
  }

  /** If the window fills a bucket, no sweep at any point changes the answer of any take. */
  lemma SweepsInvisible(c: Config, events: seq<Event>, key: string, at: real)
    requires c.Ok() && c.cap <= IDLE_EVICT * c.rate && Ordered(events)
    requires forall e :: e in events ==> e.at <= at
    ensures Answer(c, true, events, key, at) == Answer(c, false, events, key, at)
  {
    SweepsForget(c, events, at);
    var swept, full := After(c, true, events), After(c, false, events);
    if key in full && key !in swept {
      IdleIsFull(c, full[key], at);
    }
  }

  /** While the cap is not reached, a run is determined by its events. */
  lemma {:induction false} RunIsAfter(c: Config, maps: seq<Buckets>, events: seq<Event>, answers: seq<bool>, k: nat)
    requires IsRun(c, maps, events, answers) && k <= |events|
    requires forall m :: m in maps ==> |m| < MAX_TRACKED_PEERS
    ensures maps[k] == After(c, true, events[..k])
    ensures k < |events| && events[k].Take? ==> answers[k] == Answer(c, true, events[..k], events[k].key, events[k].at)
  {
    if k > 0 {
      RunIsAfter(c, maps, events, answers, k - 1);
      assert events[..k][..k - 1] == events[..k - 1];
      StepUnderCap(c, maps[k - 1], events[k - 1], maps[k], answers[k - 1]);
    }
    if k < |events| {
      StepUnderCap(c, maps[k], events[k], maps[k + 1], answers[k]);
    }
  }

  lemma StepUnderCap(c: Config, m: Buckets, e: Event, m': Buckets, answer: bool)
    requires StepOf(c, m, e, m', answer) && |m| < MAX_TRACKED_PEERS
    ensures e.Take? ==> (m', answer) == TakeMap(c, m, e.key, e.at)
  {
    if e.Take? && e.key !in m {
      var kept :| RoomMade(m, kept) && (m', answer) == TakeMap(c, kept, e.key, e.at);
      RoomUnneeded(m, kept);
    }
  }

  /** So every answer of a real run is the answer of the limiter that never sweeps. */
  lemma RunAnswersAsUnswept(c: Config, maps: seq<Buckets>, events: seq<Event>, answers: seq<bool>, k: nat)
    requires IsRun(c, maps, events, answers) && Ordered(events) && c.cap <= IDLE_EVICT * c.rate
    requires forall m :: m in maps ==> |m| < MAX_TRACKED_PEERS
    requires k < |events| && events[k].Take?
    ensures answers[k] == Answer(c, false, events[..k], events[k].key, events[k].at)
  {
    RunIsAfter(c, maps, events, answers, k);
    forall e | e in events[..k] ensures e.at <= events[k].at {
      var i :| 0 <= i < k && events[i] == e;
    }
    SweepsInvisible(c, events[..k], events[k].key, events[k].at);
  }

  /** The maps of the limiter that never sweeps. */
  ghost function UnsweptMaps(c: Config, events: seq<Event>): (maps: seq<Buckets>)
    ensures |maps| == |events| + 1 && forall j :: 0 <= j <= |events| ==> maps[j] == After(c, false, events[..j])
  {
    seq(|events| + 1, j requires 0 <= j <= |events| => After(c, false, events[..j]))
  }

  lemma UnsweptStep(c: Config, events: seq<Event>, j: nat, answer: bool)
    requires j < |events|
    requires events[j].Take? ==> answer == Answer(c, false, events[..j], events[j].key, events[j].at)
    requires events[j].Sweep? ==> !answer
    ensures var m, m' := After(c, false, events[..j]), After(c, false, events[..j + 1]);
            Traces(c, m, events[j], m', answer) && m.Keys <= m'.Keys
  {
    assert events[..j + 1][..j] == events[..j];
  }

  /** Idle sweeps do not loosen the admission bound: below the cap it holds for every key. */
  lemma SweptAdmissionBound(c: Config, maps: seq<Buckets>, events: seq<Event>, answers: seq<bool>,
                            key: string, i: nat, j: nat, t1: real, t2: real)
    requires IsRun(c, maps, events, answers) && Ordered(events) && c.cap <= IDLE_EVICT * c.rate
    requires forall m :: m in maps ==> |m| < MAX_TRACKED_PEERS
    requires i < j <= |events| && t1 <= events[i].at && events[j - 1].at <= t2
    ensures Admitted(events, answers, key, i, j) as real <= c.cap + (t2 - t1) * c.rate
  {
    var unswept := UnsweptMaps(c, events);
    assert events[..0] == [];
    forall k | 0 <= k < |events|
      ensures Traces(c, unswept[k], events[k], unswept[k + 1], answers[k]) && unswept[k].Keys <= unswept[k + 1].Keys
    {
      assert StepOf(c, maps[k], events[k], maps[k + 1], answers[k]);
      if events[k].Take? { RunAnswersAsUnswept(c, maps, events, answers, k); }
      UnsweptStep(c, events, k, answers[k]);
    }
    GrowingKeys(unswept, key);
    TraceBound(c, unswept, events, answers, key, i, j, t1, t2);
  }

  lemma GrowingKeys(maps: seq<Buckets>, key: string)
    requires forall k :: 0 <= k < |maps| - 1 ==> maps[k].Keys <= maps[k + 1].Keys
    ensures NeverEvicted(maps, key)
  {
    forall i, j | 0 <= i <= j < |maps| && key in maps[i] ensures key in maps[j] {
      KeyStays(maps, key, i, j);
    }
  }

  lemma {:induction false} KeyStays(maps: seq<Buckets>, key: string, i: nat, j: nat)
    requires forall k :: 0 <= k < |maps| - 1 ==> maps[k].Keys <= maps[k + 1].Keys
    requires i <= j < |maps| && key in maps[i]
    ensures key in maps[j]
    decreases j
  {
    if i < j {
      KeyStays(maps, key, i, j - 1);
      assert maps[j - 1].Keys <= maps[j - 1 + 1].Keys;
    }
  }

  // ---- when a take is refused ----

  /**
   * Since the take at event `i` found a full bucket, the entry holds at least a full bucket and
   * what the time since brought, less what was admitted.
   */
  ghost predicate Backed(c: Config, b: Bucket, events: seq<Event>, answers: seq<bool>, key: string, i: nat, k: nat) {
    && i < k <= |events| == |answers| && events[i].Take? && events[i].key == key
    && b.tokens >= c.cap + (b.last - events[i].at) * c.rate - Admitted(events, answers, key, i, k) as real
  }

  lemma OneAdmitted(events: seq<Event>, answers: seq<bool>, key: string, i: nat, k: nat)
    requires i <= k < |events| == |answers|
    ensures Admitted(events, answers, key, i, k + 1) ==
            Admitted(events, answers, key, i, k) + if Admits(events[k], answers[k], key) then 1 else 0
    ensures Admitted(events, answers, key, k, k) == 0
  {
  }

  /** A take that finds a full bucket starts the count anew. */
  lemma FullBacks(c: Config, b: Bucket, events: seq<Event>, answers: seq<bool>, key: string, k: nat)
    requires k < |events| == |answers| && events[k].Take? && events[k].key == key
    requires Refilled(c, b, events[k].at) == c.cap && answers[k] == TakeFrom(c, b, events[k].at).1
    ensures Backed(c, TakeFrom(c, b, events[k].at).0, events, answers, key, k, k + 1)
  {
    OneAdmitted(events, answers, key, k, k);
    NoTime(events[k].at, c.rate);
  }

  lemma NoTime(at: real, rate: real)
    ensures (at - at) * rate == 0.0
  {
  }

  /** What the time from `start` to `last` and on to `now` brings, if no time was cut off. */
  lemma TimeBrings(last: real, start: real, now: real, rate: real)
    requires rate >= 0.0
    ensures (last - start) * rate + Elapsed(last, now) * rate >= (now - start) * rate
  {
    Product(last - start + Elapsed(last, now), now - start, rate);
  }

  /** Any other take of the key spends from what backs it. */
  lemma TakeBacks(c: Config, b: Bucket, events: seq<Event>, answers: seq<bool>, key: string, i: nat, k: nat)
    requires c.Ok() && k < |events| == |answers| && events[k].Take? && events[k].key == key
    requires Backed(c, b, events, answers, key, i, k)
    requires Refilled(c, b, events[k].at) != c.cap && answers[k] == TakeFrom(c, b, events[k].at).1
    ensures Backed(c, TakeFrom(c, b, events[k].at).0, events, answers, key, i, k + 1)
  {
    var now, start := events[k].at, events[i].at;
    var before, since, all := (b.last - start) * c.rate, Elapsed(b.last, now) * c.rate, (now - start) * c.rate;
    OneAdmitted(events, answers, key, i, k);
    TimeBrings(b.last, start, now, c.rate);
    assert before + since >= all && Refilled(c, b, now) == b.tokens + since;
  }

  /** So every take of the key leaves its entry backed. */
  lemma OwnTakeBacks(c: Config, b: Bucket, events: seq<Event>, answers: seq<bool>, key: string, i: nat, k: nat)
    returns (since: nat)
    requires c.Ok() && k < |events| == |answers| && events[k].Take? && events[k].key == key
    requires Refilled(c, b, events[k].at) == c.cap || Backed(c, b, events, answers, key, i, k)
    requires answers[k] == TakeFrom(c, b, events[k].at).1
    ensures Backed(c, TakeFrom(c, b, events[k].at).0, events, answers, key, since, k + 1)
  {
    if Refilled(c, b, events[k].at) == c.cap {
      FullBacks(c, b, events, answers, key, k);
      since := k;
    } else {
      TakeBacks(c, b, events, answers, key, i, k);
      since := i;
    }
  }

  lemma OtherBacks(c: Config, b: Bucket, events: seq<Event>, answers: seq<bool>, key: string, i: nat, k: nat)
    requires k < |events| == |answers| && !(events[k].Take? && events[k].key == key)
    requires Backed(c, b, events, answers, key, i, k)
    ensures Backed(c, b, events, answers, key, i, k + 1)
  {
    OneAdmitted(events, answers, key, i, k);
  }

  lemma {:induction false} RunBacked(c: Config, maps: seq<Buckets>, events: seq<Event>, answers: seq<bool>,
                                     key: string, k: nat) returns (i: nat)
    requires IsTrace(c, maps, events, answers) && k <= |events| && key in maps[k]
    ensures Backed(c, maps[k][key], events, answers, key, i, k)
  {
    var e, m := events[k - 1], maps[k - 1];
    assert Traces(c, m, e, maps[k], answers[k - 1]);
    if e.Take? && e.key == key {
      StepTakes(c, m, key, e.at, maps[k], answers[k - 1]);
      i := 0;
      if key in m {
        i := RunBacked(c, maps, events, answers, key, k - 1);
      } else {
        NewIsFull(c, e.at);
      }
      i := OwnTakeBacks(c, Tracked(c, m, key, e.at), events, answers, key, i, k - 1);
    } else {
      StepFindsKey(c, m, e, maps[k], answers[k - 1], key);
      StepLeaves(c, m, e, maps[k], answers[k - 1], key);
      i := RunBacked(c, maps, events, answers, key, k - 1);
      OtherBacks(c, maps[k][key], events, answers, key, i, k - 1);
    }
  }

  /** Only a take of a key brings its entry in. */
  lemma StepFindsKey(c: Config, m: Buckets, e: Event, m': Buckets, answer: bool, key: string)
    requires Traces(c, m, e, m', answer) && key in m' && !(e.Take? && e.key == key)
    ensures key in m
  {
    if e.Take? && (m', answer) != TakeMap(c, m, e.key, e.at) {
      var kept :| RoomMade(m, kept) && (m', answer) == TakeMap(c, kept, e.key, e.at);
    }
  }

  /**
   * Since some take of the key it was admitted more often than a full bucket, and the refill of the
   * time since, can pay for together with one more.
   */
  ghost predicate Overspent(c: Config, events: seq<Event>, answers: seq<bool>, key: string, k: nat)
    requires k < |events| == |answers|
  {
    exists i :: 0 <= i <= k && OverspentSince(c, events, answers, key, i, k)
  }

  predicate OverspentSince(c: Config, events: seq<Event>, answers: seq<bool>, key: string, i: nat, k: nat)
    requires i <= k < |events| == |answers|
  {
    && events[i].Take? && events[i].key == key
    && Admitted(events, answers, key, i, k) as real + 1.0 > c.cap + (events[k].at - events[i].at) * c.rate
  }

  lemma RefusedFromFull(c: Config, b: Bucket, events: seq<Event>, answers: seq<bool>, k: nat)
    requires k < |events| == |answers| && events[k].Take?
    requires Refilled(c, b, events[k].at) == c.cap && !TakeFrom(c, b, events[k].at).1
    ensures OverspentSince(c, events, answers, events[k].key, k, k)
  {
    OneAdmitted(events, answers, events[k].key, k, k);
    NoTime(events[k].at, c.rate);
  }

  lemma RefusedFromBacked(c: Config, b: Bucket, events: seq<Event>, answers: seq<bool>, i: nat, k: nat)
    requires c.Ok() && k < |events| == |answers| && events[k].Take?
    requires Backed(c, b, events, answers, events[k].key, i, k)
    requires Refilled(c, b, events[k].at) != c.cap && !TakeFrom(c, b, events[k].at).1
    ensures OverspentSince(c, events, answers, events[k].key, i, k)
  {
    var now, start := events[k].at, events[i].at;
    var before, since, all := (b.last - start) * c.rate, Elapsed(b.last, now) * c.rate, (now - start) * c.rate;
    TimeBrings(b.last, start, now, c.rate);
    assert b.tokens + since < 1.0 && before + since >= all;
    assert b.tokens >= c.cap + before - Admitted(events, answers, events[k].key, i, k) as real;
  }

  lemma RunIsTrace(c: Config, maps: seq<Buckets>, events: seq<Event>, answers: seq<bool>)
    requires IsRun(c, maps, events, answers)
    ensures IsTrace(c, maps, events, answers)
  {
  }

  /**
   * The converse of the admission bound, for every run, whatever is evicted and in whatever order
   * the times come: a key that has not spent its budget since any of its takes is not refused.
   */
  lemma RefusedHasSpent(c: Config, maps: seq<Buckets>, events: seq<Event>, answers: seq<bool>, k: nat)
    requires IsRun(c, maps, events, answers) && k < |events| && events[k].Take? && !answers[k]
    ensures Overspent(c, events, answers, events[k].key, k)
  {
    var key, at := events[k].key, events[k].at;
    RunIsTrace(c, maps, events, answers);
    StepTakes(c, maps[k], key, at, maps[k + 1], answers[k]);
    var b, i := Tracked(c, maps[k], key, at), k;
    if Refilled(c, b, at) == c.cap {
      RefusedFromFull(c, b, events, answers, k);
    } else {
      if key !in maps[k] { NewIsFull(c, at); }
      i := RunBacked(c, maps, events, answers, key, k);
      RefusedFromBacked(c, b, events, answers, i, k);
    }
    assert OverspentSince(c, events, answers, key, i, k);
  }

  /** A key that is never evicted is refused exactly when it has spent its budget. */
  lemma RefusedIff(c: Config, maps: seq<Buckets>, events: seq<Event>, answers: seq<bool>, k: nat)
    requires IsRun(c, maps, events, answers) && Ordered(events)
    requires k < |events| && events[k].Take? && NeverEvicted(maps, events[k].key)
    ensures !answers[k] <==> Overspent(c, events, answers, events[k].key, k)
  {
    var key := events[k].key;
    if !answers[k] {
      RefusedHasSpent(c, maps, events, answers, k);
    } else if i :| 0 <= i <= k && OverspentSince(c, events, answers, key, i, k) {
      AdmissionBound(c, maps, events, answers, key, i, k + 1, events[i].at, events[k].at);
      OneAdmitted(events, answers, key, i, k);
    }
  }

  /** Idle sweeps do not change that either: below the cap it holds for every key. */
  lemma SweptRefusedIff(c: Config, maps: seq<Buckets>, events: seq<Event>, answers: seq<bool>, k: nat)
    requires IsRun(c, maps, events, answers) && Ordered(events) && c.cap <= IDLE_EVICT * c.rate
    requires forall m :: m in maps ==> |m| < MAX_TRACKED_PEERS
    requires k < |events| && events[k].Take?
    ensures !answers[k] <==> Overspent(c, events, answers, events[k].key, k)
  {
    var key := events[k].key;
    if !answers[k] {
      RefusedHasSpent(c, maps, events, answers, k);
    } else if i :| 0 <= i <= k && OverspentSince(c, events, answers, key, i, k) {
      SweptAdmissionBound(c, maps, events, answers, key, i, k + 1, events[i].at, events[k].at);
      OneAdmitted(events, answers, key, i, k);
    }
  }

  // ---- who is evicted ----

  /** The last take of a key before event `k`. */
  predicate LastTake(events: seq<Event>, key: string, i: nat, k: nat) {
    && i < k <= |events| && events[i].Take? && events[i].key == key
    && forall j :: i < j < k ==> !(events[j].Take? && events[j].key == key)
  }

  /** Every entry carries the time of the last take of its key. */
  lemma {:induction false} LastIsTake(c: Config, maps: seq<Buckets>, events: seq<Event>, answers: seq<bool>,
                                      key: string, k: nat) returns (i: nat)
    requires IsTrace(c, maps, events, answers) && k <= |events| && key in maps[k]
    ensures LastTake(events, key, i, k) && maps[k][key].last == events[i].at
  {
    var e := events[k - 1];
    assert Traces(c, maps[k - 1], e, maps[k], answers[k - 1]);
    if e.Take? && e.key == key {
      StepTakes(c, maps[k - 1], key, e.at, maps[k], answers[k - 1]);
      i := k - 1;
    } else {
      StepFindsKey(c, maps[k - 1], e, maps[k], answers[k - 1], key);
      StepLeaves(c, maps[k - 1], e, maps[k], answers[k - 1], key);
      i := LastIsTake(c, maps, events, answers, key, k - 1);
    }
  }

  /** Some take of the key before event `k` came at time `since` or later. */
  ghost predicate TakenSince(events: seq<Event>, key: string, since: real, k: nat) {
    exists i: nat :: LastTake(events, key, i, k) && events[i].at >= since
  }

  lemma EvictedStep(c: Config, m: Buckets, e: Event, m': Buckets, answer: bool, key: string) returns (kept: Buckets)
    requires StepOf(c, m, e, m', answer) && key in m && key !in m' && e.Take?
    ensures RoomMade(m, kept) && key !in kept && e.key !in m && |kept| == MAX_TRACKED_PEERS - 1
  {
    kept :| RoomMade(m, kept) && (m', answer) == TakeMap(c, kept, e.key, e.at);
    if |m| < MAX_TRACKED_PEERS { RoomUnneeded(m, kept); }
  }

  /**
   * Over every run: an entry goes by a sweep after the idle window, or when a new key comes while as
   * many other keys as the cap leaves room for have been taken since, or at the same time. Any other
   * key keeps its entry.
   */
  lemma GoneIsIdleOrCrowdedOut(c: Config, maps: seq<Buckets>, events: seq<Event>, answers: seq<bool>,
                               key: string, k: nat) returns (i: nat, others: set<string>)
    requires IsRun(c, maps, events, answers) && k < |events| && key in maps[k] && key !in maps[k + 1]
    ensures LastTake(events, key, i, k)
    ensures if events[k].Sweep? then events[k].at - events[i].at >= IDLE_EVICT
            else |others| == MAX_TRACKED_PEERS - 1 && key !in others && events[k].key !in others
                 && forall o :: o in others ==> TakenSince(events, o, events[i].at, k)
  {
    RunIsTrace(c, maps, events, answers);
    i := LastIsTake(c, maps, events, answers, key, k);
    others := {};
    if events[k].Take? {
      var kept := EvictedStep(c, maps[k], events[k], maps[k + 1], answers[k], key);
      others := kept.Keys;
      forall o | o in others ensures TakenSince(events, o, events[i].at, k) {
        var j := LastIsTake(c, maps, events, answers, o, k);
        assert LastTake(events, o, j, k);
      }
    }
  }

  /** `n` takes of one key at one moment. */
  function Burst(key: string, at: real, n: nat): seq<Event> {
    if n == 0 then [] else Burst(key, at, n - 1) + [Take(key, at)]
  }

  lemma {:induction false} BurstFacts(key: string, at: real, n: nat)
    ensures |Burst(key, at, n)| == n && forall i :: 0 <= i < n ==> Burst(key, at, n)[i] == Take(key, at)
  {
    if n > 0 {
      BurstFacts(key, at, n - 1);
    }
  }

  /** Any further take at the moment of the last one finds the tokens that are there. */
  lemma NoTimeNoRefill(c: Config, b: Bucket)
    requires b.tokens <= c.cap
    ensures Refilled(c, b, b.last) == b.tokens
  {
    assert (b.last - b.last) * c.rate == 0.0;
  }

  /** One more take of the key, when `left` whole tokens are there. */
  lemma TakeSpends(c: Config, sweeping: bool, before: seq<Event>, key: string, at: real, left: nat)
    requires Refilled(c, Tracked(c, After(c, sweeping, before), key, at), at) == left as real && left > 0
    ensures var m := After(c, sweeping, before + [Take(key, at)]);
            key in m && m[key] == Bucket((left - 1) as real, at)
  {
    assert (before + [Take(key, at)])[..|before|] == before;
  }

  /** A burst spends the tokens one by one, down to none. */
  lemma {:induction false} BurstSpends(
    c: Config, sweeping: bool, events: seq<Event>, key: string, at: real, n: nat, tokens: nat)
    requires tokens as real <= c.cap
    requires Refilled(c, Tracked(c, After(c, sweeping, events), key, at), at) == tokens as real
    requires 0 < n <= tokens
    ensures var m := After(c, sweeping, events + Burst(key, at, n));
            key in m && m[key] == Bucket((tokens - n) as real, at)
  {
    var before := events + Burst(key, at, n - 1);
    assert events + Burst(key, at, n) == before + [Take(key, at)];
    if n == 1 {
      assert before == events;
    } else {
      BurstSpends(c, sweeping, events, key, at, n - 1, tokens);
      NoTimeNoRefill(c, Bucket((tokens - n + 1) as real, at));
    }
    TakeSpends(c, sweeping, before, key, at, tokens - n + 1);
  }

  /** After a burst of its whole capacity a key has nothing left. */
  lemma Drained(c: Config, sweeping: bool, key: string, capacity: nat)
    requires c.cap == capacity as real && capacity > 0
    ensures var m := After(c, sweeping, Burst(key, 0.0, capacity)); key in m && m[key] == Bucket(0.0, 0.0)
  {
    assert [] + Burst(key, 0.0, capacity) == Burst(key, 0.0, capacity);
    NoTimeNoRefill(c, Bucket(c.cap, 0.0));
    BurstSpends(c, sweeping, [], key, 0.0, capacity, capacity);
  }

  /** The run of `SweepsVisible`: spend the bucket, let the window pass, sweep, spend what it refilled. */
  function Probe(capacity: nat, refill: nat): seq<Event> {
    Burst("k", 0.0, capacity) + [Sweep(IDLE_EVICT)] + Burst("k", IDLE_EVICT, refill)
  }

  lemma ProbeOrdered(capacity: nat, refill: nat)
    ensures Ordered(Probe(capacity, refill)) && forall e :: e in Probe(capacity, refill) ==> e.at <= IDLE_EVICT
  {
    BurstFacts("k", 0.0, capacity);
    BurstFacts("k", IDLE_EVICT, refill);
    var p := Probe(capacity, refill);
    assert forall i :: 0 <= i < |p| ==> p[i].at == if i < capacity then 0.0 else IDLE_EVICT;
  }

  /** What the probe leaves for one more take, with and without the sweep. */
  lemma ProbeLeaves(c: Config, sweeping: bool, capacity: nat, refill: nat)
    requires c.cap == capacity as real && 0 < refill < capacity && IDLE_EVICT * c.rate == refill as real
    ensures var m := After(c, sweeping, Probe(capacity, refill));
            "k" in m && m["k"] == Bucket(if sweeping then (capacity - refill) as real else 0.0, IDLE_EVICT)
  {
    var drain := Burst("k", 0.0, capacity);
    var swept := drain + [Sweep(IDLE_EVICT)];
    Drained(c, sweeping, "k", capacity);
    assert swept[..|swept| - 1] == drain;
    var m := After(c, sweeping, swept);
    if sweeping {
      assert "k" !in m;
      NoTimeNoRefill(c, Bucket(c.cap, IDLE_EVICT));
      BurstSpends(c, true, swept, "k", IDLE_EVICT, refill, capacity);
    } else {
      assert m["k"] == Bucket(0.0, 0.0);
      BurstSpends(c, false, swept, "k", IDLE_EVICT, refill, refill);
    }
  }

  /**
   * Otherwise a sweep does change an answer, although an idle entry was meant to look like a full
   * one: after the probe the next take passes with the sweep and is refused without it.
   */
  lemma SweepsVisible(capacity: nat, perMinute: nat)
    requires 0 < 10 * perMinute < capacity
    ensures var c, events := New(capacity, perMinute), Probe(capacity, 10 * perMinute);
            && Ordered(events) && (forall e :: e in events ==> e.at <= IDLE_EVICT)
            && Answer(c, true, events, "k", IDLE_EVICT) && !Answer(c, false, events, "k", IDLE_EVICT)
  {
    var c, refill := New(capacity, perMinute), 10 * perMinute;
    ProbeOrdered(capacity, refill);
    ProbeLeaves(c, true, capacity, refill);
    ProbeLeaves(c, false, capacity, refill);
    NoTimeNoRefill(c, Bucket((capacity - refill) as real, IDLE_EVICT));
    NoTimeNoRefill(c, Bucket(0.0, IDLE_EVICT));
  }

  /** Sweeps never change an answer exactly when the window refills a whole bucket. */
  lemma SweepsInvisibleIff(capacity: nat, perMinute: nat)
    requires perMinute > 0
    ensures capacity <= 10 * perMinute <==>
            forall events: seq<Event>, key: string, at: real ::
              Ordered(events) && (forall e :: e in events ==> e.at <= at) ==>
              Answer(New(capacity, perMinute), true, events, key, at) ==
              Answer(New(capacity, perMinute), false, events, key, at)
  {
    var c := New(capacity, perMinute);
    if capacity <= 10 * perMinute {
      forall events: seq<Event>, key: string, at: real | Ordered(events) && (forall e :: e in events ==> e.at <= at)
        ensures Answer(c, true, events, key, at) == Answer(c, false, events, key, at)
      {
        SweepsInvisible(c, events, key, at);
      }
    } else {
      SweepsVisible(capacity, perMinute);
    }
  }
}
