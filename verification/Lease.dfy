// The single-writer lease (src/lease.rs): any number of processes against one versioned object.
module Lease {
  import opened Wrappers

  type Pid = nat

  const I64_MIN: int := -0x8000_0000_0000_0000
  const I64_MAX: int := 0x7fff_ffff_ffff_ffff
  const U64_MAX: int := 0xffff_ffff_ffff_ffff

  type i64 = x: int | I64_MIN <= x <= I64_MAX
  type u64 = x: int | 0 <= x <= U64_MAX

  /** The stored record. `instance` carries a fresh uuid, so it names one acquire call. */
  datatype Record = Record(instance: nat, claimedAt: i64, renewedAt: i64, ttl: u64) {

    /** The subtraction is checked; a negative age does not convert to u64 and reads as stale. */
    predicate IsLiveAt(now: i64) {
      var age := now - renewedAt;
      if I64_MIN <= age <= I64_MAX then 0 <= age && age < ttl else true
    }

    /** The seconds to wait that the "held" error reports. */
    function WaitAt(age: int): int {
      var wait := if 0 <= age && age <= ttl then ttl - age else 0;
      if wait <= I64_MAX then wait else I64_MAX
    }
  }

  /**
   * The doc comment promises that a record is live while its age, negative or not, is below the TTL.
   * The code keeps the promise exactly outside two cases: a record stamped later than `now` is read
   * as stale, and a record whose age overflows i64 is read as live.
   */
  lemma LiveAsDocumented(rec: Record, now: i64)
    ensures var age := now - rec.renewedAt;
            (rec.IsLiveAt(now) <==> age < rec.ttl) <==> !(I64_MIN <= age < 0) && !(age > I64_MAX && age >= rec.ttl)
  {
  }

  /**
   * The reported wait is never too long, and exact unless it is cut to the top of i64: the record is
   * live until the wait is over, and stale from then on.
   */
  lemma WaitIsExact(rec: Record, now: i64, later: i64)
    requires rec.IsLiveAt(now) && rec.renewedAt <= now <= later && now - rec.renewedAt <= I64_MAX
    ensures var wait := rec.WaitAt(now - rec.renewedAt);
            && wait > 0
            && (later < now + wait ==> rec.IsLiveAt(later))
            && (wait < I64_MAX && later - rec.renewedAt <= I64_MAX ==> (rec.IsLiveAt(later) <==> later < now + wait))
  {
  }

  // ---- the protocol ----

  /** The stored object: its content and the version of the write that put it there. */
  datatype Stored = Stored(rec: Record, version: nat)

  datatype Proc =
    | Idle
    // acquire: the record is built, with its stamp, before the first call
    | Creating(mine: Record)
    | Fetching(mine: Record)
    | Judging(mine: Record, seen: Stored)
    | TakingOver(mine: Record, seen: Stored)
    | Refused(mine: Record)
    // a lease that was handed out; `last` is its last record that reached the store
    | Held(mine: Record, last: Record, lost: bool, doing: Doing)

  datatype Doing = Resting | RenewFetched | Renewing | ReleaseFetched

  /** Who took over which version, kept along a run. */
  datatype Takeover = Takeover(version: nat, winner: nat)

  datatype St = St(
    clock: i64,
    stored: Option<Stored>,
    version: nat,            // versions below are used up
    instances: nat,          // instances below are used up
    procs: map<Pid, Proc>,
    // kept along a run, never read by a call
    takeovers: seq<Takeover>,
    written: set<nat>,       // instances whose record was stored at some time
    landed: set<nat>)        // instances of which a write landed although its call failed

  datatype AcquireCall = Create | Fetch | Judge | TakeOver
  datatype HolderCall = RenewFetch | RenewStamp | RenewWrite | ReleaseFetch | ReleaseDelete

  datatype Act =
    | Tick(to: i64)
    | Start(p: Pid, ttl: u64)
    | Acquire(p: Pid, acquire: AcquireCall)
    | Hold(p: Pid, hold: HolderCall)
    | IoError(p: Pid, landed: bool) // a call returns an error; a write may have landed all the same
    | Die(p: Pid)                   // the process is gone, its record stays

  function At(s: St, p: Pid): Proc {
    if p in s.procs then s.procs[p] else Idle
  }

  /** What one call of a process does: nothing to the object, a write, a take-over, or a delete. */
  datatype Effect =
    | Disabled
    | Moves(to: Proc)
    | Writes(to: Proc, rec: Record)
    | TakesOver(to: Proc, rec: Record)
    | Deletes(to: Proc)

  function Set(s: St, p: Pid, q: Proc): St {
    s.(procs := s.procs[p := q])
  }

  /** A write that landed: a new version of the object. */
  function Put(s: St, rec: Record): St {
    s.(stored := Some(Stored(rec, s.version)), version := s.version + 1, written := s.written + {rec.instance})
  }

  function Apply(s: St, p: Pid, e: Effect): Option<St> {
    match e
    case Disabled => None
    case Moves(q) => Some(Set(s, p, q))
    case Writes(q, rec) => Some(Put(Set(s, p, q), rec))
    case TakesOver(q, rec) =>
      if s.stored.Some? then
        Some(Put(Set(s, p, q), rec)
             .(takeovers := s.takeovers + [Takeover(s.stored.value.version, rec.instance)]))
      else None
    case Deletes(q) => Some(Set(s, p, q).(stored := None))
  }

  /** The compare-and-set of a take-over lands only on the version that was judged. */
  predicate Unchanged(s: St, seen: Stored) {
    s.stored.Some? && s.stored.value.version == seen.version
  }

  predicate OtherHolds(s: St, mine: Record) {
    s.stored.Some? && s.stored.value.rec.instance != mine.instance
  }

  function AcquireEffect(s: St, q: Proc, call: AcquireCall): Effect {
    match (call, q)
    case (Create, Creating(mine)) =>
      if s.stored.None? then Writes(Held(mine, mine, false, Resting), mine) else Moves(Fetching(mine))
    case (Fetch, Fetching(mine)) =>
      if s.stored.None? then Moves(Refused(mine)) else Moves(Judging(mine, s.stored.value))
    // `now` is the stamp that `mine` was built with
    case (Judge, Judging(mine, seen)) =>
      if seen.rec.IsLiveAt(mine.renewedAt) then Moves(Refused(mine)) else Moves(TakingOver(mine, seen))
    case (TakeOver, TakingOver(mine, seen)) =>
      if Unchanged(s, seen) then TakesOver(Held(mine, mine, false, Resting), mine) else Moves(Refused(mine))
    case _ => Disabled
  }

  /** The read comes before the write, and the write is unconditional. */
  function HolderEffect(s: St, q: Proc, call: HolderCall): Effect {
    match (call, q)
    case (RenewFetch, Held(mine, last, false, Resting)) =>
      if OtherHolds(s, mine) then Moves(Held(mine, last, true, Resting))
      else Moves(Held(mine, last, false, RenewFetched))
    case (RenewStamp, Held(mine, last, false, RenewFetched)) =>
      Moves(Held(mine.(renewedAt := s.clock), last, false, Renewing))
    case (RenewWrite, Held(mine, _, false, Renewing)) => Writes(Held(mine, mine, false, Resting), mine)
    case (ReleaseFetch, Held(mine, last, lost, Resting)) =>
      if OtherHolds(s, mine) then Moves(Idle) else Moves(Held(mine, last, lost, ReleaseFetched))
    case (ReleaseDelete, Held(_, _, _, ReleaseFetched)) => Deletes(Idle)
    case _ => Disabled
  }

  /** A call that returns an error; a write may have landed all the same. */
  function ErrorEffect(s: St, q: Proc, landed: bool): Effect {
    match q
    case Idle => Disabled
    // any failed create falls through to the read
    case Creating(mine) =>
      if landed && s.stored.None? then Writes(Fetching(mine), mine) else Moves(Fetching(mine))
    case TakingOver(mine, seen) =>
      if landed && Unchanged(s, seen) then TakesOver(Refused(mine), mine) else Moves(Refused(mine))
    // a renewal that cannot confirm or write marks the lease lost; a release gives up
    case Held(mine, last, _, Renewing) =>
      if landed then Writes(Held(mine, mine, true, Resting), mine) else Moves(Held(mine, last, true, Resting))
    case Held(mine, last, _, RenewFetched) => Moves(Held(mine, last, true, Resting))
    case Held(mine, last, lost, Resting) =>
      // the read of a renewal fails
      Moves(Held(mine, last, true, Resting))
    case Held(_, _, _, ReleaseFetched) => if landed then Deletes(Idle) else Moves(Idle)
    case _ => Moves(Idle)
  }

  /** A call that fails may have written all the same. */
  function Failing(s: St, e: Effect): St {
    if e.Writes? || e.TakesOver? then s.(landed := s.landed + {e.rec.instance}) else s
  }

  function Next(s: St, a: Act): Option<St> {
    match a
    case Tick(to) => if s.clock <= to then Some(s.(clock := to)) else None
    case Start(p, ttl) =>
      if At(s, p).Idle? then
        Some(Set(s, p, Creating(Record(s.instances, s.clock, s.clock, ttl))).(instances := s.instances + 1))
      else None
    case IoError(p, landed) => Apply(Failing(s, ErrorEffect(s, At(s, p), landed)), p, ErrorEffect(s, At(s, p), landed))
    case Die(p) => Apply(s, p, Moves(Idle))
    case Acquire(p, call) => Apply(s, p, AcquireEffect(s, At(s, p), call))
    case Hold(p, call) => Apply(s, p, HolderEffect(s, At(s, p), call))
  }

  const START := St(0, None, 0, 0, map[], [], {}, {})

  function Run(s: St, acts: seq<Act>): Option<St>
    decreases |acts|
  {
    if acts == [] then Some(s)
    else match Run(s, acts[..|acts| - 1])
      case None => None
      case Some(mid) => Next(mid, acts[|acts| - 1])
  }

  // ---- without any timing hypothesis ----

  /** The instance that a process works for; every acquire call has its own. */
  function Mine(q: Proc): Option<nat> {
    match q
    case Idle => None
    case Creating(m) => Some(m.instance)
    case Fetching(m) => Some(m.instance)
    case Judging(m, _) => Some(m.instance)
    case TakingOver(m, _) => Some(m.instance)
    case Refused(m) => Some(m.instance)
    case Held(m, _, _, _) => Some(m.instance)
  }

  function Seen(q: Proc): Option<Stored> {
    match q
    case Judging(_, seen) => Some(seen)
    case TakingOver(_, seen) => Some(seen)
    case _ => None
  }

  /** A version names one content, and instances are not shared. */
  ghost predicate ProcOk(s: St, q: Proc) {
    && (Mine(q).Some? ==> Mine(q).value < s.instances)
    && (Seen(q).Some? ==>
          && Seen(q).value.version < s.version
          && (s.stored.Some? && s.stored.value.version == Seen(q).value.version ==> s.stored.value == Seen(q).value))
    && (q.Held? ==> q.last.instance == q.mine.instance)
    && (q.Held? && q.lost ==> q.doing.Resting? || q.doing.ReleaseFetched?)
  }

  ghost predicate Inv(s: St) {
    && (s.stored.Some? ==> s.stored.value.version < s.version)
    && (forall t :: t in s.takeovers ==>
          t.version < s.version && (s.stored.Some? ==> t.version < s.stored.value.version))
    && (forall p :: p in s.procs ==> ProcOk(s, s.procs[p]))
    && (forall p, q :: p in s.procs && q in s.procs && p != q && Mine(s.procs[p]).Some? ==>
          Mine(s.procs[p]) != Mine(s.procs[q]))
  }

  /** A process moves without changing the object or the lease it works for. */
  lemma SetKeeps(s: St, p: Pid, q: Proc)
    requires Inv(s) && ProcOk(s, q) && (Mine(q) == Mine(At(s, p)) || Mine(q).None?)
    ensures Inv(Set(s, p, q))
  {
  }

  lemma PutKeeps(s: St, rec: Record)
    requires Inv(s)
    ensures Inv(Put(s, rec))
  {
  }

  lemma DeleteKeeps(s: St)
    requires Inv(s)
    ensures Inv(s.(stored := None))
  {
  }

  lemma StartKeeps(s: St, p: Pid, ttl: u64)
    requires Inv(s) && Next(s, Start(p, ttl)).Some?
    ensures Inv(Next(s, Start(p, ttl)).value)
  {
  }

  lemma TakeOverKeeps(s: St, p: Pid, q: Proc, rec: Record)
    requires Inv(s) && ProcOk(s, q) && Mine(q) == Mine(At(s, p)) && s.stored.Some?
    ensures Inv(Apply(s, p, TakesOver(q, rec)).value)
  {
    SetKeeps(s, p, q);
    PutKeeps(Set(s, p, q), rec);
    var t := Takeover(s.stored.value.version, rec.instance);
    assert forall u :: u in s.takeovers + [t] ==> u in s.takeovers || u == t;
  }

  /** The effect is one that process `p` may have. */
  ghost predicate EffectOk(s: St, p: Pid, e: Effect) {
    !e.Disabled? ==> ProcOk(s, e.to) && (Mine(e.to) == Mine(At(s, p)) || (Mine(e.to).None? && !e.TakesOver?))
  }

  lemma ApplyKeeps(s: St, p: Pid, e: Effect)
    requires Inv(s) && EffectOk(s, p, e) && Apply(s, p, e).Some?
    ensures Inv(Apply(s, p, e).value)
  {
    SetKeeps(s, p, e.to);
    match e
    case Moves(q) =>
    case Writes(q, rec) => PutKeeps(Set(s, p, q), rec);
    case TakesOver(q, rec) => TakeOverKeeps(s, p, q, rec);
    case Deletes(q) => DeleteKeeps(Set(s, p, q));
  }

  lemma AcquireOk(s: St, p: Pid, call: AcquireCall)
    requires Inv(s)
    ensures EffectOk(s, p, AcquireEffect(s, At(s, p), call))
  {
    assert p in s.procs ==> ProcOk(s, s.procs[p]);
  }

  lemma HolderOk(s: St, p: Pid, call: HolderCall)
    requires Inv(s)
    ensures EffectOk(s, p, HolderEffect(s, At(s, p), call))
  {
    assert p in s.procs ==> ProcOk(s, s.procs[p]);
  }

  lemma ErrorOk(s: St, p: Pid, landed: bool)
    requires Inv(s)
    ensures EffectOk(s, p, ErrorEffect(s, At(s, p), landed))
  {
    assert p in s.procs ==> ProcOk(s, s.procs[p]);
  }

  lemma NextKeeps(s: St, a: Act)
    requires Inv(s) && Next(s, a).Some?
    ensures Inv(Next(s, a).value)
  {
    match a
    case Tick(to) =>
    case Start(p, ttl) => StartKeeps(s, p, ttl);
    case Acquire(p, call) => AcquireOk(s, p, call); ApplyKeeps(s, p, AcquireEffect(s, At(s, p), call));
    case Hold(p, call) => HolderOk(s, p, call); ApplyKeeps(s, p, HolderEffect(s, At(s, p), call));
    case IoError(p, landed) =>
      ErrorOk(s, p, landed);
      ApplyKeeps(Failing(s, ErrorEffect(s, At(s, p), landed)), p, ErrorEffect(s, At(s, p), landed));
    case Die(p) => ApplyKeeps(s, p, Moves(Idle));
  }

  /** No version of the record is taken over twice. */
  ghost predicate TakenOnce(ts: seq<Takeover>) {
    forall i, j :: 0 <= i < j < |ts| ==> ts[i].version != ts[j].version
  }

  lemma {:induction false} EachVersionTakenOnce(acts: seq<Act>)
    requires Run(START, acts).Some?
    ensures Inv(Run(START, acts).value) && TakenOnce(Run(START, acts).value.takeovers)
    decreases |acts|
  {
    if acts != [] {
      var before := acts[..|acts| - 1];
      EachVersionTakenOnce(before);
      var s := Run(START, before).value;
      NextKeeps(s, acts[|acts| - 1]);
      TakeoversGrow(s, acts[|acts| - 1]);
    }
  }

  lemma TakeoversGrow(s: St, a: Act)
    requires Inv(s) && Next(s, a).Some? && TakenOnce(s.takeovers)
    ensures TakenOnce(Next(s, a).value.takeovers)
  {
    assert forall i :: 0 <= i < |s.takeovers| ==> s.takeovers[i] in s.takeovers;
  }

  // ---- what one call does when nobody else moves ----

  lemma RunOn(s: St, acts: seq<Act>, t: St, a: Act) returns (more: seq<Act>, u: St)
    requires Run(s, acts) == Some(t) && Next(t, a).Some?
    ensures Run(s, more) == Some(u) && Next(t, a) == Some(u)
  {
    more, u := acts + [a], Next(t, a).value;
    assert more[..|more| - 1] == acts;
  }

  /** `acquire` takes a free lease or one that has run out, and is refused by a live one. */
  lemma AcquiresAlone(s: St, p: Pid, ttl: u64) returns (acts: seq<Act>, t: St)
    requires At(s, p).Idle?
    ensures Run(s, acts) == Some(t) && t.clock == s.clock
    ensures var mine := Record(s.instances, s.clock, s.clock, ttl);
            if s.stored.Some? && s.stored.value.rec.IsLiveAt(s.clock) then
              t.stored == s.stored && t.procs == s.procs[p := Refused(mine)]
            else
              && t.stored == Some(Stored(mine, s.version))
              && t.procs == s.procs[p := Held(mine, mine, false, Resting)]
  {
    acts, t := RunOn(s, [], s, Start(p, ttl));
    acts, t := RunOn(s, acts, t, Acquire(p, Create));
    if s.stored.Some? {
      acts, t := RunOn(s, acts, t, Acquire(p, Fetch));
      acts, t := RunOn(s, acts, t, Acquire(p, Judge));
      if !s.stored.value.rec.IsLiveAt(s.clock) {
        acts, t := RunOn(s, acts, t, Acquire(p, TakeOver));
      }
    }
  }

  /** `renew` stores the record with a new stamp, or gives the lease up for another holder's. */
  lemma RenewsAlone(s: St, p: Pid) returns (acts: seq<Act>, t: St)
    requires At(s, p).Held? && !At(s, p).lost && At(s, p).doing.Resting?
    ensures Run(s, acts) == Some(t) && t.clock == s.clock
    ensures var q := At(s, p);
            if OtherHolds(s, q.mine) then t.stored == s.stored && t.procs == s.procs[p := q.(lost := true)]
            else
              var now := q.mine.(renewedAt := s.clock);
              && t.stored == Some(Stored(now, s.version))
              && t.procs == s.procs[p := Held(now, now, false, Resting)]
  {
    acts, t := RunOn(s, [], s, Hold(p, RenewFetch));
    if !OtherHolds(s, At(s, p).mine) {
      acts, t := RunOn(s, acts, t, Hold(p, RenewStamp));
      acts, t := RunOn(s, acts, t, Hold(p, RenewWrite));
    }
  }

  /** `release` deletes the record, lost or not, and leaves another holder's alone. */
  lemma ReleasesAlone(s: St, p: Pid) returns (acts: seq<Act>, t: St)
    requires At(s, p).Held? && At(s, p).doing.Resting?
    ensures Run(s, acts) == Some(t) && t.clock == s.clock && t.procs == s.procs[p := Idle]
    ensures t.stored == if OtherHolds(s, At(s, p).mine) then s.stored else None
  {
    acts, t := RunOn(s, [], s, Hold(p, ReleaseFetch));
    if !OtherHolds(s, At(s, p).mine) {
      acts, t := RunOn(s, acts, t, Hold(p, ReleaseDelete));
    }
  }

  /** A renewal of which a call fails leaves the lease lost, whether or not its write landed. */
  lemma FailedRenewalIsLost(s: St, p: Pid, landed: bool)
    requires At(s, p).Held? && !At(s, p).doing.ReleaseFetched?
    ensures var t := Next(s, IoError(p, landed));
            && t.Some? && At(t.value, p).Held? && At(t.value, p).lost && At(t.value, p).doing.Resting?
            && t.value.stored == if landed && At(s, p).doing.Renewing? then Some(Stored(At(s, p).mine, s.version))
                                 else s.stored
  {
  }

  // ---- an acquirer that is refused ----

  /** A process that does not hold has written nothing, unless a failed call of it landed. */
  ghost predicate Unwritten(s: St) {
    && (s.stored.Some? ==> s.stored.value.rec.instance in s.written)
    && (forall n :: n in s.written ==> n < s.instances)
    && (forall p :: p in s.procs && Mine(s.procs[p]).Some? && !s.procs[p].Held? ==>
          (Mine(s.procs[p]).value in s.written ==> Mine(s.procs[p]).value in s.landed))
  }

  /** The effect writes the record of the process itself, and makes it a holder unless the call failed. */
  ghost predicate OwnEffect(s: St, p: Pid, e: Effect) {
    match e
    case Disabled => true
    case Moves(q) => q.Held? ==> At(s, p).Held?
    case Writes(q, rec) => Mine(q) == Some(rec.instance) == Mine(At(s, p)) && (q.Held? || rec.instance in s.landed)
    case TakesOver(q, rec) => Mine(q) == Some(rec.instance) == Mine(At(s, p)) && (q.Held? || rec.instance in s.landed)
    case Deletes(q) => !q.Held?
  }

  lemma ApplyUnwritten(s: St, p: Pid, e: Effect)
    requires Inv(s) && Unwritten(s) && EffectOk(s, p, e) && OwnEffect(s, p, e) && Apply(s, p, e).Some?
    requires At(s, p).Held? && !e.Disabled? ==> e.to.Held? || Mine(e.to).None?
    ensures Unwritten(Apply(s, p, e).value)
  {
  }

  lemma AcquireUnwritten(s: St, p: Pid, call: AcquireCall)
    requires Inv(s) && Unwritten(s) && Next(s, Acquire(p, call)).Some?
    ensures Unwritten(Next(s, Acquire(p, call)).value)
  {
    AcquireOk(s, p, call);
    ApplyUnwritten(s, p, AcquireEffect(s, At(s, p), call));
  }

  lemma HolderUnwritten(s: St, p: Pid, call: HolderCall)
    requires Inv(s) && Unwritten(s) && Next(s, Hold(p, call)).Some?
    ensures Unwritten(Next(s, Hold(p, call)).value)
  {
    HolderOk(s, p, call);
    ApplyUnwritten(s, p, HolderEffect(s, At(s, p), call));
  }

  lemma ErrorUnwritten(s: St, p: Pid, landed: bool)
    requires Inv(s) && Unwritten(s) && Next(s, IoError(p, landed)).Some?
    ensures Unwritten(Next(s, IoError(p, landed)).value)
  {
    var e := ErrorEffect(s, At(s, p), landed);
    ErrorOk(s, p, landed);
    ApplyUnwritten(Failing(s, e), p, e);
  }

  lemma NextUnwritten(s: St, a: Act)
    requires Inv(s) && Unwritten(s) && Next(s, a).Some?
    ensures Unwritten(Next(s, a).value)
  {
    match a
    case Tick(to) =>
    case Start(p, ttl) =>
    case Acquire(p, call) => AcquireUnwritten(s, p, call);
    case Hold(p, call) => HolderUnwritten(s, p, call);
    case IoError(p, landed) => ErrorUnwritten(s, p, landed);
    case Die(p) => ApplyUnwritten(s, p, Moves(Idle));
  }

  /** The instance was refused, never stored, and nobody works for it any more but to end. */
  ghost predicate Retired(s: St, n: nat) {
    && n < s.instances && n !in s.written
    && forall p :: p in s.procs && Mine(s.procs[p]) == Some(n) ==> s.procs[p].Refused?
  }

  lemma ErrorRetired(s: St, p: Pid, landed: bool, n: nat)
    requires Inv(s) && Retired(s, n) && Next(s, IoError(p, landed)).Some?
    ensures Retired(Next(s, IoError(p, landed)).value, n)
  {
    var e := ErrorEffect(s, At(s, p), landed);
    ErrorOk(s, p, landed);
    RetiredStays(Failing(s, e), p, e, n);
  }

  lemma NextRetired(s: St, a: Act, n: nat)
    requires Inv(s) && Retired(s, n) && Next(s, a).Some?
    ensures Retired(Next(s, a).value, n)
  {
    match a
    case Tick(to) =>
    case Start(p, ttl) =>
    case Acquire(p, call) => AcquireOk(s, p, call); RetiredStays(s, p, AcquireEffect(s, At(s, p), call), n);
    case Hold(p, call) => HolderOk(s, p, call); RetiredStays(s, p, HolderEffect(s, At(s, p), call), n);
    case IoError(p, landed) => ErrorRetired(s, p, landed, n);
    case Die(p) => RetiredStays(s, p, Moves(Idle), n);
  }

  lemma RetiredStays(s: St, p: Pid, e: Effect, n: nat)
    requires Inv(s) && Retired(s, n) && EffectOk(s, p, e) && Apply(s, p, e).Some?
    requires At(s, p).Refused? ==> e.Moves? && Mine(e.to).None?
    requires e.Writes? || e.TakesOver? ==> Mine(At(s, p)) == Some(e.rec.instance)
    ensures Retired(Apply(s, p, e).value, n)
  {
  }

  lemma {:induction false} RunRetired(s: St, more: seq<Act>, n: nat)
    requires Inv(s) && Retired(s, n) && Run(s, more).Some?
    ensures Inv(Run(s, more).value) && Retired(Run(s, more).value, n)
    decreases |more|
  {
    if more != [] {
      var before := more[..|more| - 1];
      RunRetired(s, before, n);
      NextKeeps(Run(s, before).value, more[|more| - 1]);
      NextRetired(Run(s, before).value, more[|more| - 1], n);
    }
  }

  /**
   * An acquirer that was refused, without a failed call of it that landed, writes nothing: neither
   * before nor in any continuation of the run is its instance the one that is stored.
   */
  lemma LoserWritesNothing(acts: seq<Act>, more: seq<Act>, p: Pid)
    requires Run(START, acts).Some? && At(Run(START, acts).value, p).Refused?
    requires At(Run(START, acts).value, p).mine.instance !in Run(START, acts).value.landed
    requires Run(Run(START, acts).value, more).Some?
    ensures var n, t := At(Run(START, acts).value, p).mine.instance, Run(Run(START, acts).value, more).value;
            n !in t.written && (t.stored.Some? ==> t.stored.value.rec.instance != n)
  {
    var s := Run(START, acts).value;
    var n := s.procs[p].mine.instance;
    RunUnwritten(START, acts);
    assert ProcOk(s, s.procs[p]) && Mine(s.procs[p]) == Some(n);
    assert Retired(s, n);
    RunRetired(s, more, n);
    RunUnwritten(s, more);
  }

  lemma {:induction false} RunUnwritten(s: St, more: seq<Act>)
    requires Inv(s) && Unwritten(s) && Run(s, more).Some?
    ensures Inv(Run(s, more).value) && Unwritten(Run(s, more).value)
    decreases |more|
  {
    if more != [] {
      var before := more[..|more| - 1];
      RunUnwritten(s, before);
      NextKeeps(Run(s, before).value, more[|more| - 1]);
      NextUnwritten(Run(s, before).value, more[|more| - 1]);
    }
  }

  // ---- under the timing hypotheses ----

  /** The end of the TTL of the holder's last record that reached the store. */
  function Expiry(q: Proc): int
    requires q.Held?
  {
    q.last.renewedAt + q.last.ttl
  }

  /**
   * The two hypotheses: a renewal write and a release delete land before the TTL of the holder's
   * last record ends, and an acquirer judges only records that are not stamped later than its `now`.
   */
  predicate Timely(s: St, a: Act) {
    match a
    case Acquire(p, Judge) =>
      At(s, p).Judging? ==> At(s, p).seen.rec.renewedAt <= At(s, p).mine.renewedAt
    case Hold(p, call) =>
      At(s, p).Held? && (call.RenewWrite? || call.ReleaseDelete?) ==> s.clock < Expiry(At(s, p))
    case IoError(p, landed) =>
      At(s, p).Held? && landed && (At(s, p).doing.Renewing? || At(s, p).doing.ReleaseFetched?) ==>
        s.clock < Expiry(At(s, p))
    case _ => true
  }

  ghost predicate TimelyRun(s: St, acts: seq<Act>)
    decreases |acts|
  {
    acts == [] ||
    (TimelyRun(s, acts[..|acts| - 1]) &&
     match Run(s, acts[..|acts| - 1])
     case None => true
     case Some(mid) => Timely(mid, acts[|acts| - 1]))
  }

  predicate Unexpired(s: St, p: Pid) {
    p in s.procs && s.procs[p].Held? && s.clock < Expiry(s.procs[p])
  }

  /** Stamps are in the past, and a record that is about to be taken over has run out. */
  predicate StampsOk(s: St, q: Proc) {
    match q
    case Creating(mine) => mine.renewedAt <= s.clock
    case Fetching(mine) => mine.renewedAt <= s.clock
    case Judging(mine, _) => mine.renewedAt <= s.clock
    case TakingOver(_, seen) => seen.rec.renewedAt + seen.rec.ttl <= s.clock
    case _ => true
  }

  /** Whoever holds a lease that has not run out is the one that the stored record names. */
  ghost predicate NamesHolder(s: St) {
    forall p :: Unexpired(s, p) ==> s.stored.Some? && s.stored.value.rec == s.procs[p].last
  }

  ghost predicate Named(s: St) {
    NamesHolder(s) && (forall p :: p in s.procs ==> StampsOk(s, s.procs[p]))
  }

  /** Nobody but `p` holds a lease that has not run out. */
  ghost predicate Free(s: St, p: Pid) {
    forall q :: Unexpired(s, q) ==> q == p
  }

  /** An effect that keeps the stored record naming the holder. */
  ghost predicate EffectTimely(s: St, p: Pid, e: Effect) {
    match e
    case Disabled => true
    case Moves(q) => StampsOk(s, q) && (q.Held? ==> At(s, p).Held? && q.last == At(s, p).last)
    case Writes(q, rec) => StampsOk(s, q) && Free(s, p) && (q.Held? ==> q.last == rec)
    case TakesOver(q, rec) => StampsOk(s, q) && Free(s, p) && (q.Held? ==> q.last == rec)
    case Deletes(q) => StampsOk(s, q) && Free(s, p) && !q.Held?
  }

  lemma ApplyTimely(s: St, p: Pid, e: Effect)
    requires Named(s) && EffectTimely(s, p, e) && Apply(s, p, e).Some?
    ensures Named(Apply(s, p, e).value)
  {
    var s' := Apply(s, p, e).value;
    forall q | Unexpired(s', q) ensures s'.stored.Some? && s'.stored.value.rec == s'.procs[q].last {
      assert q != p ==> Unexpired(s, q);
      assert q == p && e.Moves? ==> Unexpired(s, q);
    }
  }

  /** The holder of an unexpired lease is alone: the stored record names its instance only. */
  lemma HolderIsAlone(s: St, p: Pid)
    requires Inv(s) && NamesHolder(s) && Unexpired(s, p)
    ensures Free(s, p)
  {
    forall q | Unexpired(s, q) ensures q == p {
      assert ProcOk(s, s.procs[p]) && ProcOk(s, s.procs[q]);
      assert Mine(s.procs[p]) == Mine(s.procs[q]);
    }
  }

  lemma TimelyAcquire(s: St, p: Pid, call: AcquireCall)
    requires Inv(s) && Named(s) && Timely(s, Acquire(p, call))
    ensures EffectTimely(s, p, AcquireEffect(s, At(s, p), call))
  {
    assert p in s.procs ==> ProcOk(s, s.procs[p]) && StampsOk(s, s.procs[p]);
  }

  lemma TimelyHolder(s: St, p: Pid, call: HolderCall)
    requires Inv(s) && Named(s) && Timely(s, Hold(p, call))
    ensures EffectTimely(s, p, HolderEffect(s, At(s, p), call))
  {
    if Unexpired(s, p) {
      HolderIsAlone(s, p);
    }
  }

  lemma TimelyError(s: St, p: Pid, landed: bool)
    requires Inv(s) && Named(s) && Timely(s, IoError(p, landed))
    ensures EffectTimely(s, p, ErrorEffect(s, At(s, p), landed))
  {
    assert p in s.procs ==> ProcOk(s, s.procs[p]) && StampsOk(s, s.procs[p]);
    if Unexpired(s, p) {
      HolderIsAlone(s, p);
    }
  }

  lemma TimelyKeeps(s: St, a: Act)
    requires Inv(s) && Named(s) && Next(s, a).Some? && Timely(s, a)
    ensures Named(Next(s, a).value)
  {
    match a
    case Tick(to) =>
      var s' := Next(s, a).value;
      assert forall p :: Unexpired(s', p) ==> Unexpired(s, p);
    case Start(p, ttl) =>
      var s' := Next(s, a).value;
      assert forall q :: Unexpired(s', q) ==> Unexpired(s, q);
    case Acquire(p, call) => TimelyAcquire(s, p, call); ApplyTimely(s, p, AcquireEffect(s, At(s, p), call));
    case Hold(p, call) => TimelyHolder(s, p, call); ApplyTimely(s, p, HolderEffect(s, At(s, p), call));
    case IoError(p, landed) =>
      TimelyError(s, p, landed);
      ApplyTimely(Failing(s, ErrorEffect(s, At(s, p), landed)), p, ErrorEffect(s, At(s, p), landed));
    case Die(p) => ApplyTimely(s, p, Moves(Idle));
  }

  lemma {:induction false} TimelyRunKeeps(acts: seq<Act>)
    requires Run(START, acts).Some? && TimelyRun(START, acts)
    ensures Inv(Run(START, acts).value) && Named(Run(START, acts).value)
    decreases |acts|
  {
    if acts != [] {
      var before := acts[..|acts| - 1];
      TimelyRunKeeps(before);
      NextKeeps(Run(START, before).value, acts[|acts| - 1]);
      TimelyKeeps(Run(START, before).value, acts[|acts| - 1]);
    }
  }

  /** A process that may serve: it holds a lease that is neither lost nor run out. */
  predicate Serves(s: St, p: Pid) {
    Unexpired(s, p) && !s.procs[p].lost
  }

  /** Along every timely run at most one process serves, and the stored record names it. */
  lemma AtMostOneWriter(acts: seq<Act>, p: Pid, q: Pid)
    requires Run(START, acts).Some? && TimelyRun(START, acts)
    requires Serves(Run(START, acts).value, p) && Serves(Run(START, acts).value, q)
    ensures p == q
    ensures var s := Run(START, acts).value;
            s.stored.Some? && s.stored.value.rec == s.procs[p].last
            && s.stored.value.rec.instance == s.procs[p].mine.instance
  {
    TimelyRunKeeps(acts);
    var s := Run(START, acts).value;
    HolderIsAlone(s, p);
    assert ProcOk(s, s.procs[p]);
  }

  // ---- exactly which call ends it ----

  /** The call of process `p` that action `a` makes, if any. */
  function EffectOf(s: St, a: Act): Effect {
    match a
    case Tick(_) => Disabled
    case Start(_, _) => Disabled
    case Acquire(p, call) => AcquireEffect(s, At(s, p), call)
    case Hold(p, call) => HolderEffect(s, At(s, p), call)
    case IoError(p, landed) => ErrorEffect(s, At(s, p), landed)
    case Die(_) => Moves(Idle)
  }

  /** The action changes the object while a process other than its own holds a lease that has not run out. */
  ghost predicate Overrides(s: St, a: Act) {
    var e := EffectOf(s, a);
    (e.Writes? || e.TakesOver? || e.Deletes?) && !Free(s, a.p)
  }

  /** A holder's record is the one that its effect writes, or the one that it had. */
  ghost predicate EffectHolds(s: St, p: Pid, e: Effect) {
    match e
    case Disabled => true
    case Moves(q) => q.Held? ==> At(s, p).Held? && q.last == At(s, p).last
    case Writes(q, rec) => Mine(q) == Some(rec.instance) == Mine(At(s, p)) && (q.Held? ==> q.last == rec)
    case TakesOver(q, rec) => Mine(q) == Some(rec.instance) == Mine(At(s, p)) && (q.Held? ==> q.last == rec)
    case Deletes(q) => !q.Held?
  }

  lemma EffectsHold(s: St, a: Act)
    requires Inv(s) && (a.Acquire? || a.Hold? || a.IoError? || a.Die?)
    ensures EffectHolds(s, a.p, EffectOf(s, a))
  {
    assert a.p in s.procs ==> ProcOk(s, s.procs[a.p]);
  }

  lemma FreeStaysNamed(s: St, p: Pid, e: Effect)
    requires NamesHolder(s) && EffectHolds(s, p, e) && Apply(s, p, e).Some?
    requires e.Moves? || Free(s, p)
    ensures NamesHolder(Apply(s, p, e).value)
  {
    var t := Apply(s, p, e).value;
    forall q | Unexpired(t, q) ensures t.stored.Some? && t.stored.value.rec == t.procs[q].last {
      assert q != p || e.Moves? ==> Unexpired(s, q);
    }
  }

  lemma OverrideUnnames(s: St, p: Pid, e: Effect, q: Pid)
    requires Inv(s) && EffectHolds(s, p, e) && Apply(s, p, e).Some?
    requires e.Writes? || e.TakesOver? || e.Deletes?
    requires Unexpired(s, q) && q != p
    ensures !NamesHolder(Apply(s, p, e).value)
  {
    var t := Apply(s, p, e).value;
    assert ProcOk(s, s.procs[q]) && Mine(s.procs[q]) == Some(s.procs[q].last.instance);
    assert Unexpired(t, q);
    assert p in s.procs && Mine(s.procs[p]).Some? ==> Mine(s.procs[p]) != Mine(s.procs[q]);
  }

  lemma NextIsApply(s: St, a: Act)
    requires Next(s, a).Some? && (a.Acquire? || a.Hold? || a.IoError? || a.Die?)
    ensures var e := EffectOf(s, a);
            Apply(s, a.p, e).Some? && Same(Next(s, a).value, Apply(s, a.p, e).value)
  {
  }

  /** The states differ at most in what is only kept along a run. */
  predicate Same(s: St, t: St) {
    s.clock == t.clock && s.stored == t.stored && s.procs == t.procs
  }

  lemma SameNames(s: St, t: St)
    requires Same(s, t)
    ensures NamesHolder(s) <==> NamesHolder(t)
  {
    assert forall p :: Unexpired(s, p) <==> Unexpired(t, p);
  }

  /** One step: the stored record goes on naming every holder exactly unless the step overrides one. */
  lemma StaysNamedIff(s: St, a: Act)
    requires Inv(s) && NamesHolder(s) && Next(s, a).Some?
    ensures NamesHolder(Next(s, a).value) <==> !Overrides(s, a)
  {
    var t, e := Next(s, a).value, EffectOf(s, a);
    if a.Tick? || a.Start? {
      assert forall p :: Unexpired(t, p) ==> Unexpired(s, p);
    } else {
      EffectsHold(s, a);
      NextIsApply(s, a);
      SameNames(t, Apply(s, a.p, e).value);
      if Overrides(s, a) {
        var q :| Unexpired(s, q) && q != a.p;
        OverrideUnnames(s, a.p, e, q);
      } else {
        FreeStaysNamed(s, a.p, e);
      }
    }
  }

  ghost predicate TwoHold(s: St) {
    exists p, q :: p != q && Unexpired(s, p) && Unexpired(s, q)
  }

  lemma NamedIsAlone(s: St)
    requires Inv(s) && NamesHolder(s)
    ensures !TwoHold(s)
  {
    if p, q :| p != q && Unexpired(s, p) && Unexpired(s, q) {
      HolderIsAlone(s, p);
    }
  }

  ghost predicate NeverOverrides(s: St, acts: seq<Act>)
    decreases |acts|
  {
    acts == [] ||
    (NeverOverrides(s, acts[..|acts| - 1]) &&
     match Run(s, acts[..|acts| - 1])
     case None => true
     case Some(mid) => !Overrides(mid, acts[|acts| - 1]))
  }

  ghost predicate AlwaysNamed(s: St, acts: seq<Act>)
    decreases |acts|
  {
    && (acts != [] ==> AlwaysNamed(s, acts[..|acts| - 1]))
    && (Run(s, acts).Some? ==> NamesHolder(Run(s, acts).value))
  }

  /**
   * With no hypothesis on stamps or times: the stored record names every unexpired holder all along
   * a run exactly when no call of the run changes the object while somebody else holds unexpired. No
   * two processes then hold unexpired at the end.
   */
  lemma {:induction false} AlwaysNamedIff(acts: seq<Act>)
    requires Run(START, acts).Some?
    ensures Inv(Run(START, acts).value)
    ensures AlwaysNamed(START, acts) <==> NeverOverrides(START, acts)
    ensures AlwaysNamed(START, acts) ==> !TwoHold(Run(START, acts).value)
    decreases |acts|
  {
    if acts != [] {
      var before := acts[..|acts| - 1];
      AlwaysNamedIff(before);
      var s := Run(START, before).value;
      NextKeeps(s, acts[|acts| - 1]);
      if AlwaysNamed(START, before) {
        StaysNamedIff(s, acts[|acts| - 1]);
      }
    }
    if AlwaysNamed(START, acts) {
      NamedIsAlone(Run(START, acts).value);
    }
  }

  /** Some process holds under this record, and its TTL has not ended. */
  ghost predicate HeldUnder(s: St, rec: Record) {
    exists q :: Unexpired(s, q) && s.procs[q].last == rec
  }

  /**
   * A take-over that lands gives two unexpired holders exactly when the new record has not run out
   * and neither has a holder of the record that was judged.
   */
  lemma TakeOverSplitsIff(s: St, p: Pid, mine: Record, seen: Stored)
    requires Inv(s) && NamesHolder(s) && At(s, p) == TakingOver(mine, seen) && Unchanged(s, seen)
    ensures var t := Next(s, Acquire(p, TakeOver)).value;
            TwoHold(t) <==> s.clock < mine.renewedAt + mine.ttl && HeldUnder(s, seen.rec)
  {
    var t := Next(s, Acquire(p, TakeOver)).value;
    assert ProcOk(s, s.procs[p]) && s.stored.value == seen;
    OthersHoldOn(s, t, p);
    if TwoHold(t) {
      var q, r :| q != r && Unexpired(t, q) && Unexpired(t, r);
      if q != p && r != p {
        HolderIsAlone(s, q);
        assert false;
      }
      assert Unexpired(t, p) && t.procs[p].last == mine;
      var o := if q == p then r else q;
      assert Unexpired(s, o) && s.procs[o].last == seen.rec;
    }
    if s.clock < mine.renewedAt + mine.ttl && HeldUnder(s, seen.rec) {
      var q :| Unexpired(s, q) && s.procs[q].last == seen.rec;
      assert q != p && Unexpired(t, q) && Unexpired(t, p);
    }
  }

  lemma OthersHoldOn(s: St, t: St, p: Pid)
    requires t.clock == s.clock && t.procs == s.procs[p := At(t, p)]
    ensures forall q :: q != p ==> (Unexpired(t, q) <==> Unexpired(s, q))
  {
  }

  // ---- a holder that finds another one ----

  /** The instance is not the stored one, and its process, if any, holds a lost lease. */
  ghost predicate Abandoned(s: St, n: nat) {
    && n < s.instances && (s.stored.Some? ==> s.stored.value.rec.instance != n)
    && forall p :: p in s.procs && Mine(s.procs[p]) == Some(n) ==> s.procs[p].Held? && s.procs[p].lost
  }

  /** A lost lease writes nothing; all it can still do to the object is the delete of a release. */
  ghost predicate LostEffect(s: St, p: Pid, e: Effect) {
    match e
    case Disabled => true
    case Moves(q) => Mine(q).None? || (q.Held? && q.lost)
    case Deletes(q) => Mine(q).None? && At(s, p).Held? && At(s, p).doing.ReleaseFetched?
    case _ => false
  }

  lemma LostWritesNothing(s: St, a: Act, n: nat)
    requires Inv(s) && Abandoned(s, n)
    requires (a.Acquire? || a.Hold? || a.IoError? || a.Die?) && Mine(At(s, a.p)) == Some(n)
    ensures LostEffect(s, a.p, EffectOf(s, a))
  {
    assert ProcOk(s, s.procs[a.p]);
  }

  lemma ApplyAbandoned(s: St, p: Pid, e: Effect, n: nat)
    requires Inv(s) && Abandoned(s, n) && EffectOk(s, p, e) && OwnRecord(s, p, e) && Apply(s, p, e).Some?
    requires Mine(At(s, p)) == Some(n) ==> LostEffect(s, p, e)
    ensures Abandoned(Apply(s, p, e).value, n)
  {
  }

  /** What a process writes is the record of its own instance. */
  ghost predicate OwnRecord(s: St, p: Pid, e: Effect) {
    e.Writes? || e.TakesOver? ==> Mine(At(s, p)) == Some(e.rec.instance)
  }

  lemma EffectsOk(s: St, a: Act)
    requires Inv(s) && (a.Acquire? || a.Hold? || a.IoError? || a.Die?)
    ensures EffectOk(s, a.p, EffectOf(s, a)) && OwnRecord(s, a.p, EffectOf(s, a))
  {
    match a
    case Acquire(p, call) => AcquireOk(s, p, call);
    case Hold(p, call) => HolderOk(s, p, call);
    case IoError(p, landed) => ErrorOk(s, p, landed);
    case Die(p) =>
  }

  lemma NextAbandoned(s: St, a: Act, n: nat)
    requires Inv(s) && Abandoned(s, n) && Next(s, a).Some?
    ensures Abandoned(Next(s, a).value, n)
  {
    if !a.Tick? && !a.Start? {
      EffectsOk(s, a);
      NextIsApply(s, a);
      if Mine(At(s, a.p)) == Some(n) { LostWritesNothing(s, a, n); }
      ApplyAbandoned(s, a.p, EffectOf(s, a), n);
    }
  }

  lemma {:induction false} RunAbandoned(s: St, more: seq<Act>, n: nat)
    requires Inv(s) && Abandoned(s, n) && Run(s, more).Some?
    ensures Inv(Run(s, more).value) && Abandoned(Run(s, more).value, n)
    decreases |more|
  {
    if more != [] {
      var before := more[..|more| - 1];
      RunAbandoned(s, before, n);
      NextKeeps(Run(s, before).value, more[|more| - 1]);
      NextAbandoned(Run(s, before).value, more[|more| - 1], n);
    }
  }

  /** A call of the process that works for instance `n`. */
  predicate CallFor(s: St, a: Act, n: nat) {
    (a.Acquire? || a.Hold? || a.IoError? || a.Die?) && Mine(At(s, a.p)) == Some(n)
  }

  /**
   * A holder whose renewal reads the record of another instance is lost from then on, with no
   * hypothesis on times: over every further run its instance is never stored again, and no call for
   * it changes the object, except the delete of a release.
   */
  lemma LostStaysLost(acts: seq<Act>, p: Pid, more: seq<Act>, a: Act)
    requires Run(START, acts).Some? && At(Run(START, acts).value, p).Held?
    requires var q := At(Run(START, acts).value, p);
             !q.lost && q.doing.Resting? && OtherHolds(Run(START, acts).value, q.mine)
    requires var t := Next(Run(START, acts).value, Hold(p, RenewFetch));
             t.Some? ==> Run(t.value, more).Some?
    ensures var s := Run(START, acts).value;
            var n, t := At(s, p).mine.instance, Next(s, Hold(p, RenewFetch));
            && t.Some? && t.value.stored == s.stored
            && var u := Run(t.value, more).value;
               && Abandoned(u, n)
               && (CallFor(u, a, n) && Next(u, a).Some? ==>
                     Next(u, a).value.stored == u.stored || At(u, a.p).doing.ReleaseFetched?)
  {
    var s := Run(START, acts).value;
    var q, n := s.procs[p], s.procs[p].mine.instance;
    RunUnwritten(START, acts);
    NextKeeps(s, Hold(p, RenewFetch));
    var t := Next(s, Hold(p, RenewFetch)).value;
    assert ProcOk(s, q) && Mine(q) == Some(n);
    assert Abandoned(t, n);
    RunAbandoned(t, more, n);
    var u := Run(t, more).value;
    if CallFor(u, a, n) && Next(u, a).Some? {
      LostWritesNothing(u, a, n);
      NextIsApply(u, a);
    }
  }

  /** The state after the first `j` actions has the process still between a read and the write it leads to. */
  predicate Holding(acts: seq<Act>, p: Pid, n: nat, doings: set<Doing>, j: nat)
    requires j <= |acts|
  {
    var s := Run(START, acts[..j]);
    s.Some? && At(s.value, p).Held? && At(s.value, p).mine.instance == n && At(s.value, p).doing in doings
  }

  /** Action `i` is a read by the process that saw its own record, or none. */
  predicate SawNoOther(acts: seq<Act>, p: Pid, n: nat, call: HolderCall, i: nat)
    requires i < |acts|
  {
    var s := Run(START, acts[..i]);
    && acts[i] == Hold(p, call) && s.Some? && At(s.value, p).Held? && At(s.value, p).mine.instance == n
    && !OtherHolds(s.value, At(s.value, p).mine)
  }

  /** The last thing that the process did but for the stamp was such a read. */
  ghost predicate Confirmed(acts: seq<Act>, p: Pid, n: nat, call: HolderCall, doings: set<Doing>, i: nat) {
    i < |acts| && SawNoOther(acts, p, n, call, i) && forall j :: i < j <= |acts| ==> Holding(acts, p, n, doings, j)
  }

  const RENEWING := {RenewFetched, Renewing}
  const RELEASING := {ReleaseFetched}

  lemma ConfirmedOn(acts: seq<Act>, a: Act, p: Pid, n: nat, call: HolderCall, doings: set<Doing>, i: nat)
    requires Confirmed(acts, p, n, call, doings, i) && Holding(acts + [a], p, n, doings, |acts| + 1)
    ensures Confirmed(acts + [a], p, n, call, doings, i)
  {
    assert (acts + [a])[..i] == acts[..i];
    forall j | i < j <= |acts| + 1 ensures Holding(acts + [a], p, n, doings, j) {
      if j <= |acts| {
        assert (acts + [a])[..j] == acts[..j] && Holding(acts, p, n, doings, j);
      }
    }
  }

  lemma ConfirmedNow(acts: seq<Act>, p: Pid, n: nat, call: HolderCall, doings: set<Doing>)
    requires Run(START, acts).Some? && At(Run(START, acts).value, p).Held?
    requires At(Run(START, acts).value, p).mine.instance == n
    requires !OtherHolds(Run(START, acts).value, At(Run(START, acts).value, p).mine)
    requires Holding(acts + [Hold(p, call)], p, n, doings, |acts| + 1)
    ensures Confirmed(acts + [Hold(p, call)], p, n, call, doings, |acts|)
  {
    assert (acts + [Hold(p, call)])[..|acts|] == acts;
  }

  /** How a process comes to stand between the read of a renewal and its write. */
  lemma RenewingFrom(s: St, a: Act, p: Pid)
    requires Next(s, a).Some? && At(Next(s, a).value, p).Held? && At(Next(s, a).value, p).doing in RENEWING
    ensures At(s, p).Held? && At(s, p).mine.instance == At(Next(s, a).value, p).mine.instance
    ensures At(s, p).doing in RENEWING || (a == Hold(p, RenewFetch) && !OtherHolds(s, At(s, p).mine))
  {
  }

  lemma ReleasingFrom(s: St, a: Act, p: Pid)
    requires Next(s, a).Some? && At(Next(s, a).value, p).Held? && At(Next(s, a).value, p).doing in RELEASING
    ensures At(s, p).Held? && At(s, p).mine.instance == At(Next(s, a).value, p).mine.instance
    ensures At(s, p).doing in RELEASING || (a == Hold(p, ReleaseFetch) && !OtherHolds(s, At(s, p).mine))
  {
  }

  /**
   * Over every run, a renewal that is about to write, landed or not, has read its own record or none
   * as the last thing that its process did but for the stamp.
   */
  lemma {:induction false} RenewalFollowsRead(acts: seq<Act>, p: Pid) returns (i: nat)
    requires Run(START, acts).Some? && At(Run(START, acts).value, p).Held?
    requires At(Run(START, acts).value, p).doing in RENEWING
    ensures Confirmed(acts, p, At(Run(START, acts).value, p).mine.instance, RenewFetch, RENEWING, i)
    decreases |acts|
  {
    var before, a := acts[..|acts| - 1], acts[|acts| - 1];
    var n := At(Run(START, acts).value, p).mine.instance;
    assert acts == before + [a] && acts[..|acts|] == acts;
    RenewingFrom(Run(START, before).value, a, p);
    if At(Run(START, before).value, p).doing in RENEWING {
      i := RenewalFollowsRead(before, p);
      ConfirmedOn(before, a, p, n, RenewFetch, RENEWING, i);
    } else {
      i := |before|;
      ConfirmedNow(before, p, n, RenewFetch, RENEWING);
    }
  }

  /** And a release that is about to delete has read its own record or none. */
  lemma {:induction false} ReleaseFollowsRead(acts: seq<Act>, p: Pid) returns (i: nat)
    requires Run(START, acts).Some? && At(Run(START, acts).value, p).Held?
    requires At(Run(START, acts).value, p).doing in RELEASING
    ensures Confirmed(acts, p, At(Run(START, acts).value, p).mine.instance, ReleaseFetch, RELEASING, i)
    decreases |acts|
  {
    var before, a := acts[..|acts| - 1], acts[|acts| - 1];
    var n := At(Run(START, acts).value, p).mine.instance;
    assert acts == before + [a] && acts[..|acts|] == acts;
    ReleasingFrom(Run(START, before).value, a, p);
    if At(Run(START, before).value, p).doing in RELEASING {
      i := ReleaseFollowsRead(before, p);
      ConfirmedOn(before, a, p, n, ReleaseFetch, RELEASING, i);
    } else {
      i := |before|;
      ConfirmedNow(before, p, n, ReleaseFetch, RELEASING);
    }
  }

  // ---- each hypothesis is needed ----

  ghost predicate Reachable(s: St) {
    exists acts: seq<Act> :: Run(START, acts) == Some(s)
  }

  lemma Then(s: St, a: Act) returns (t: St)
    requires Reachable(s) && Next(s, a).Some?
    ensures Reachable(t) && Next(s, a) == Some(t)
  {
    var acts: seq<Act> :| Run(START, acts) == Some(s);
    assert (acts + [a])[..|acts + [a]| - 1] == acts;
    t := Next(s, a).value;
    assert Run(START, acts + [a]) == Some(t);
  }

  /** Process 0 has claimed the lease at time 0 with a TTL of 60. */
  lemma Claimed() returns (s: St)
    ensures Reachable(s) && s.clock == 0 && s.instances == 1 && s.version == 1 && s.takeovers == []
    ensures s.stored == Some(Stored(Record(0, 0, 0, 60), 0))
    ensures s.procs == map[0 := Held(Record(0, 0, 0, 60), Record(0, 0, 0, 60), false, Resting)]
  {
    assert Run(START, []) == Some(START);
    s := Then(START, Start(0, 60));
    s := Then(s, Acquire(0, Create));
  }

  /** ... process 1 took its `now` at 0 as well, and process 0 has renewed at 1. */
  lemma Renewed() returns (s: St)
    ensures Reachable(s) && s.clock == 1
    ensures s.stored == Some(Stored(Record(0, 0, 1, 60), 1))
    ensures s.procs == map[0 := Held(Record(0, 0, 1, 60), Record(0, 0, 1, 60), false, Resting),
                           1 := Creating(Record(1, 0, 0, 60))]
  {
    s := Claimed();
    s := Then(s, Start(1, 60));
    s := Then(s, Tick(1));
    s := Then(s, Hold(0, RenewFetch));
    s := Then(s, Hold(0, RenewStamp));
    s := Then(s, Hold(0, RenewWrite));
  }

  /**
   * An acquirer that took its `now` before the holder renewed sees a record stamped later than that
   * `now`, reads it as stale and takes over: two processes serve, all writes having landed in time.
   */
  lemma FutureStampSplitsBrain() returns (s: St)
    ensures Reachable(s) && Serves(s, 0) && Serves(s, 1)
  {
    s := Renewed();
    s := Then(s, Acquire(1, Create));
    s := Then(s, Acquire(1, Fetch));
    s := Then(s, Acquire(1, Judge));
    s := Then(s, Acquire(1, TakeOver));
  }

  /** ... process 0 has read its own record, and process 1 found it run out, with a stamp of 60. */
  lemma FoundStale() returns (s: St)
    ensures Reachable(s) && s.clock == 60 && s.instances == 2 && s.version == 1
    ensures s.stored == Some(Stored(Record(0, 0, 0, 60), 0))
    ensures s.procs == map[0 := Held(Record(0, 0, 0, 60), Record(0, 0, 0, 60), false, RenewFetched),
                           1 := TakingOver(Record(1, 60, 60, 60), Stored(Record(0, 0, 0, 60), 0))]
  {
    s := Claimed();
    s := Then(s, Hold(0, RenewFetch));
    s := Then(s, Tick(60));
    s := Then(s, Start(1, 60));
    s := Then(s, Acquire(1, Create));
    s := Then(s, Acquire(1, Fetch));
    s := Then(s, Acquire(1, Judge));
  }

  /** A renewal that is read in time but written after the TTL: again two processes serve. */
  lemma LateRenewalSplitsBrain() returns (s: St)
    ensures Reachable(s) && Serves(s, 0) && Serves(s, 1)
  {
    s := FoundStale();
    s := Then(s, Acquire(1, TakeOver));
    s := Then(s, Hold(0, RenewStamp));
    s := Then(s, Hold(0, RenewWrite));
  }

  /** ... a renewal of process 0 has failed, and process 1 has taken over. */
  lemma LostToOther() returns (s: St)
    ensures Reachable(s) && s.clock == 60 && s.instances == 2 && s.version == 2
    ensures s.stored == Some(Stored(Record(1, 60, 60, 60), 1))
    ensures s.procs == map[0 := Held(Record(0, 0, 0, 60), Record(0, 0, 0, 60), true, Resting),
                           1 := Held(Record(1, 60, 60, 60), Record(1, 60, 60, 60), false, Resting)]
  {
    s := FoundStale();
    s := Then(s, IoError(0, false));
    s := Then(s, Acquire(1, TakeOver));
  }

  /** ... and process 1 has released. */
  lemma LostAndReleased() returns (s: St)
    ensures Reachable(s) && s.clock == 60 && s.stored.None? && s.instances == 2 && s.version == 2
    ensures s.procs == map[0 := Held(Record(0, 0, 0, 60), Record(0, 0, 0, 60), true, Resting), 1 := Idle]
  {
    s := LostToOther();
    s := Then(s, Hold(1, ReleaseFetch));
    s := Then(s, Hold(1, ReleaseDelete));
  }

  /**
   * The delete of a release is unconditional: a lost holder that reads no record, and whose delete
   * lands after a third process has claimed the lease, deletes the record of that process.
   */
  lemma LateReleaseDeletesOther() returns (s: St)
    ensures Reachable(s) && Serves(s, 2) && s.stored.None?
  {
    s := LostAndReleased();
    s := Then(s, Hold(0, ReleaseFetch));
    s := Then(s, Start(2, 60));
    s := Then(s, Acquire(2, Create));
    s := Then(s, Hold(0, ReleaseDelete));
  }
}
