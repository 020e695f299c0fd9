// All file ids together: the keyed stores, one feed, and a sweep that walks all ids
// (src/fs/store.rs, src/fs/mod.rs, src/fs/gc.rs). For each id, every run of this system is a run of
// the one-id machine of `UploadModel`.
module UploadSystem {
  import opened Wrappers
  import opened Multipart
  import opened UploadModel
  import opened UploadTheorems

  type Id = string

  /** Upload ids are drawn as new uuids; no two file ids share one. */
  type Uid = nat

  datatype Entry = Entry(id: Id, op: Op)

  /** What is stored, by its own key: rows, objects and locks by file id, uploads by upload id. */
  datatype Stores = Stores(
    clock: int,
    locks: map<Id, Pid>,
    sessions: map<Id, Session>,    // fs:uploads:{id}:meta
    records: map<Uid, Parts>,      // fs:mp:{upload_id}
    ram: map<Uid, Parts>,          // the state map of the client
    backend: map<Uid, Backend>,
    objects: map<Id, int>,         // files/{id}, with its stamp
    contents: map<Id, nat>,
    rows: map<Id, Row>,            // fs:files:{id}:meta
    feed: seq<Entry>,
    hists: map<Id, Hist>)

  function Lookup<K, V>(m: map<K, V>, k: K): Option<V> {
    if k in m then Some(m[k]) else None
  }

  function Get<K, V>(m: map<K, V>, k: K, default: V): V {
    if k in m then m[k] else default
  }

  function Assign<K, V>(m: map<K, V>, k: K, v: Option<V>): map<K, V> {
    match v
    case Some(x) => m[k := x]
    case None => m - {k}
  }

  /** The entries of the feed that concern an id. */
  function FeedOf(feed: seq<Entry>, id: Id): seq<Op> {
    if feed == [] then []
    else FeedOf(feed[..|feed| - 1], id)
         + if feed[|feed| - 1].id == id then [feed[|feed| - 1].op] else []
  }

  function Tagged(id: Id, ops: seq<Op>): seq<Entry> {
    seq(|ops|, i requires 0 <= i < |ops| => Entry(id, ops[i]))
  }

  /** What the calls for one id read. */
  function Project(uid: Id -> Uid, g: Stores, id: Id): Db {
    Db(g.clock, Lookup(g.locks, id), Lookup(g.sessions, id), Lookup(g.records, uid(id)), Lookup(g.ram, uid(id)),
       Get(g.backend, uid(id), Absent), Lookup(g.objects, id), Get(g.contents, id, 0), Lookup(g.rows, id),
       FeedOf(g.feed, id), Get(g.hists, id, START.db.hist))
  }

  /** What a call for one id writes: its own keys, and an append to the one feed. */
  function Commit(uid: Id -> Uid, g: Stores, id: Id, d: Db): Stores
    requires |FeedOf(g.feed, id)| <= |d.feed|
  {
    Stores(g.clock, Assign(g.locks, id, d.lock), Assign(g.sessions, id, d.session),
           Assign(g.records, uid(id), d.mp), Assign(g.ram, uid(id), d.ram), g.backend[uid(id) := d.backend],
           Assign(g.objects, id, d.bytes), g.contents[id := d.content], Assign(g.rows, id, d.row),
           g.feed + Tagged(id, d.feed[|FeedOf(g.feed, id)|..]), g.hists[id := d.hist])
  }

  ghost predicate Distinct(uid: Id -> Uid) {
    forall i, j :: uid(i) == uid(j) ==> i == j
  }

  lemma {:induction false} FeedAppend(feed: seq<Entry>, id: Id, ops: seq<Op>, other: Id)
    ensures FeedOf(feed + Tagged(id, ops), other) == if other == id then FeedOf(feed, id) + ops else FeedOf(feed, other)
    decreases |ops|
  {
    if ops == [] {
      assert feed + Tagged(id, ops) == feed;
    } else {
      var before, last := ops[..|ops| - 1], ops[|ops| - 1];
      var all := feed + Tagged(id, ops);
      assert Tagged(id, ops) == Tagged(id, before) + [Entry(id, last)];
      assert all[..|all| - 1] == feed + Tagged(id, before) && all[|all| - 1] == Entry(id, last);
      FeedAppend(feed, id, before, other);
      Appended(FeedOf(feed, id), ops);
    }
  }

  lemma Appended<T>(a: seq<T>, b: seq<T>)
    requires b != []
    ensures (a + b[..|b| - 1]) + [b[|b| - 1]] == a + b
  {
  }

  lemma Resumed<T>(a: seq<T>, b: seq<T>)
    requires a <= b
    ensures a + b[|a|..] == b
  {
  }

  lemma AssignReads<K, V>(m: map<K, V>, k: K, v: Option<V>, other: K)
    ensures Lookup(Assign(m, k, v), other) == if other == k then v else Lookup(m, other)
  {
  }

  /** A write to the keys of one id, read back for any id. */
  lemma WritesRead(uid: Id -> Uid, g: Stores, id: Id, d: Db, other: Id)
    requires |FeedOf(g.feed, id)| <= |d.feed| && (other == id || uid(other) != uid(id))
    ensures var c, r := Project(uid, Commit(uid, g, id, d), other), if other == id then d else Project(uid, g, other);
            && c.lock == r.lock && c.session == r.session && c.mp == r.mp && c.ram == r.ram && c.backend == r.backend
            && c.bytes == r.bytes && c.content == r.content && c.row == r.row && c.hist == r.hist
  {
    AssignReads(g.locks, id, d.lock, other);
    AssignReads(g.sessions, id, d.session, other);
    AssignReads(g.records, uid(id), d.mp, uid(other));
    AssignReads(g.ram, uid(id), d.ram, uid(other));
    AssignReads(g.objects, id, d.bytes, other);
    AssignReads(g.rows, id, d.row, other);
  }

  /** A call for an id leaves behind what it wrote, as far as that id reads. */
  lemma CommitReads(uid: Id -> Uid, g: Stores, id: Id, d: Db)
    requires d.clock == g.clock && FeedOf(g.feed, id) <= d.feed
    ensures Project(uid, Commit(uid, g, id, d), id) == d
  {
    var known := FeedOf(g.feed, id);
    FeedAppend(g.feed, id, d.feed[|known|..], id);
    Resumed(known, d.feed);
    WritesRead(uid, g, id, d, id);
  }

  /** And changes nothing that any other id reads, although both share the feed and the upload maps. */
  lemma CommitSpares(uid: Id -> Uid, g: Stores, id: Id, d: Db, other: Id)
    requires Distinct(uid) && other != id && FeedOf(g.feed, id) <= d.feed
    ensures Project(uid, Commit(uid, g, id, d), other) == Project(uid, g, other)
  {
    FeedAppend(g.feed, id, d.feed[|FeedOf(g.feed, id)|..], other);
    assert uid(other) != uid(id);
    WritesRead(uid, g, id, d, other);
  }

  // ---- processes ----

  datatype Phase = Sessions | Files | Keys

  /** A request works on one id; a sweep walks the ids that it listed, one after the other. */
  datatype Job = Task(id: Id, pc: Pc)
               | SweepStart
               | SweepSessions(now: int)
               | SweepFiles(now: int, listed: set<Id>)
               | Walk(now: int, listed: set<Id>, files: map<Id, Row>, modified: map<Id, int>,
                      phase: Phase, todo: set<Id>, at: Option<(Id, Pc)>)

  datatype Sys = Sys(g: Stores, jobs: map<Pid, Job>)

  function ViewOf(j: Job, id: Id): View
    requires j.Walk?
  {
    View(j.now, id in j.listed, Lookup(j.files, id))
  }

  /** Where an id stands that the walk is not at: still to come in this phase, or ready for the next. */
  function Waiting(j: Job, id: Id): Pc
    requires j.Walk?
  {
    match j.phase
    case Sessions => Sweep(if id in j.todo then SessionPass(ViewOf(j, id)) else FilePass(ViewOf(j, id)))
    case Files => Sweep(if id in j.todo then FilePass(ViewOf(j, id)) else ListKeys(ViewOf(j, id)))
    case Keys => if id in j.todo then Sweep(OrphanPass(ViewOf(j, id), Lookup(j.modified, id))) else Done
  }

  /** A job as one id sees it; a request for another id is not seen. */
  function Seen(j: Job, id: Id): Option<Pc> {
    match j
    case Task(i, pc) => if i == id then Some(pc) else None
    case SweepStart => Some(Sweep(SwPc.Start))
    case SweepSessions(now) => Some(Sweep(ListSessions(now)))
    case SweepFiles(now, listed) => Some(Sweep(SwPc.ListFiles(now, id in listed)))
    case Walk(_, _, _, _, _, _, at) =>
      if at.Some? && at.value.0 == id then Some(at.value.1) else Some(Waiting(j, id))
  }

  function ProcsOf(jobs: map<Pid, Job>, id: Id): map<Pid, Pc> {
    map p | p in jobs && Seen(jobs[p], id).Some? :: Seen(jobs[p], id).value
  }

  function StateOf(uid: Id -> Uid, s: Sys, id: Id): St {
    St(Project(uid, s.g, id), ProcsOf(s.jobs, id))
  }

  // ---- the steps ----

  datatype GAct = GTick(to: int)
                | GInit(p: Pid, id: Id, total: nat, size: nat)
                | GArrive(p: Pid, id: Id, r: Request)
                | GSweep(p: Pid)
                | GGo(p: Pid, w: World)     // one store or S3 call, for the id that the process is at
                | GList(p: Pid)             // one listing call of a sweep, over all ids
                | GPick(p: Pid, id: Id)     // a sweep turns to the next item of its pass
                | GSkip(p: Pid)
                | GEnd(p: Pid)
                | GCrash

  /** The id that a job is at, and its program point there. */
  function AtWork(j: Job): Option<(Id, Pc)> {
    match j
    case Task(i, pc) => Some((i, pc))
    case Walk(_, _, _, _, _, _, at) => at
    case _ => None
  }

  /** The job after its id moved on; a walk leaves the id when the pass is done with it. */
  function MovedTo(j: Job, pc: Pc): Job
    requires AtWork(j).Some?
  {
    if j.Task? then j.(pc := pc)
    else if pc == Waiting(j, j.at.value.0) then j.(at := None)
    else j.(at := Some((j.at.value.0, pc)))
  }

  /** A listing call, and what follows from it without a call for the ids that are not listed. */
  function Listed(g: Stores, j: Job): Option<Job> {
    match j
    case Task(_, _) => None
    case SweepStart => Some(SweepSessions(g.clock))
    case SweepSessions(now) => Some(SweepFiles(now, g.sessions.Keys))
    case SweepFiles(now, listed) => Some(Walk(now, listed, g.rows, map[], Sessions, listed, None))
    case Walk(now, listed, files, _, phase, todo, at) =>
      if todo != {} || at.Some? then None
      else
        match phase
        case Sessions => Some(j.(phase := Files, todo := files.Keys))
        case Files => Some(j.(phase := Keys, modified := g.objects, todo := g.objects.Keys))
        case Keys => None
  }

  /** A sweep turns to an item: the session pass starts with the lock of its id. */
  function Picked(j: Job, id: Id): Option<Job> {
    if j.Walk? && j.at.None? && id in j.todo then
      var pc := if j.phase.Sessions? then Close(Expire(ViewOf(j, id)), ClPc.Wait) else Waiting(j, id);
      Some(j.(todo := j.todo - {id}, at := Some((id, pc))))
    else None
  }

  function GNext(uid: Id -> Uid, s: Sys, a: GAct): Option<Sys> {
    match a
    case GTick(to) => if s.g.clock <= to then Some(s.(g := s.g.(clock := to))) else None
    case GInit(p, id, total, size) =>
      var d := Project(uid, s.g, id);
      if p !in s.jobs && d.hist.init.Fresh? && total >= 1 then
        Some(Sys(Commit(uid, s.g, id, Begin(d, p, total, size)), s.jobs[p := Task(id, Init(InitPc.SaveSession))]))
      else None
    case GArrive(p, id, r) =>
      if p !in s.jobs && !r.SweepOnce? then Some(s.(jobs := s.jobs[p := Task(id, UploadModel.Entry(r))])) else None
    case GSweep(p) => if p !in s.jobs then Some(s.(jobs := s.jobs[p := SweepStart])) else None
    case GGo(p, w) =>
      if p in s.jobs && AtWork(s.jobs[p]).Some? then
        var (id, pc) := AtWork(s.jobs[p]).value;
        var d := Project(uid, s.g, id);
        var r := Step(d, p, pc, w);
        StepAppends(d, p, pc, w);
        if r.Taken() then Some(Sys(Commit(uid, s.g, id, r.Db(d)), s.jobs[p := MovedTo(s.jobs[p], r.pc)])) else None
      else None
    case GList(p) =>
      if p in s.jobs && Listed(s.g, s.jobs[p]).Some? then
        Some(s.(jobs := s.jobs[p := Listed(s.g, s.jobs[p]).value]))
      else None
    case GPick(p, id) =>
      if p in s.jobs && Picked(s.jobs[p], id).Some? then
        Some(s.(jobs := s.jobs[p := Picked(s.jobs[p], id).value]))
      else None
    case GSkip(p) =>
      if p in s.jobs && AtWork(s.jobs[p]).Some? && SkipTo(AtWork(s.jobs[p]).value.1).Some? then
        var (id, pc) := AtWork(s.jobs[p]).value;
        Some(Sys(Commit(uid, s.g, id, Leave(Project(uid, s.g, id), pc)),
                 s.jobs[p := MovedTo(s.jobs[p], SkipTo(pc).value)]))
      else None
    case GEnd(p) =>
      if p in s.jobs then
        match AtWork(s.jobs[p])
        case None => Some(s.(jobs := s.jobs - {p}))
        case Some((id, pc)) => Some(Sys(Commit(uid, s.g, id, Leave(Project(uid, s.g, id), pc)), s.jobs - {p}))
      else None
    case GCrash =>
      Some(Sys(s.g.(locks := map[], ram := map[], hists := map id | id in s.g.hists :: Crashed(s.g.hists[id])), map[]))
  }

  function Crashed(h: Hist): Hist {
    if h.init.Fresh? then CutHist(h) else CutHist(h).(init := Over)
  }

  /** One call of one id leaves the clock alone and only appends to the feed. */
  lemma StepAppends(d: Db, p: Pid, pc: Pc, w: World)
    ensures Step(d, p, pc, w).Db(d).clock == d.clock && d.feed <= Step(d, p, pc, w).Db(d).feed
  {
  }

  const GSTART := Sys(Stores(0, map[], map[], map[], map[], map[], map[], map[], map[], [], map[]), map[])

  function GRun(uid: Id -> Uid, acts: seq<GAct>): Option<Sys>
    decreases |acts|
  {
    if acts == [] then Some(GSTART)
    else match GRun(uid, acts[..|acts| - 1])
      case None => None
      case Some(s) => GNext(uid, s, acts[|acts| - 1])
  }

  // ---- every id sees a run of its own machine ----

  lemma JobSet(jobs: map<Pid, Job>, p: Pid, j: Job, id: Id)
    ensures ProcsOf(jobs[p := j], id) ==
            if Seen(j, id).Some? then ProcsOf(jobs, id)[p := Seen(j, id).value] else ProcsOf(jobs, id) - {p}
  {
  }

  lemma JobGone(jobs: map<Pid, Job>, p: Pid, id: Id)
    ensures ProcsOf(jobs - {p}, id) == ProcsOf(jobs, id) - {p}
  {
  }

  /** Only the id that a walk is at sees it move, and sees it leave. */
  lemma MovedSeen(j: Job, pc: Pc, id: Id)
    requires AtWork(j).Some?
    ensures Seen(MovedTo(j, pc), id) == if AtWork(j).value.0 == id then Some(pc) else Seen(j, id)
  {
  }

  lemma GoProjects(uid: Id -> Uid, s: Sys, p: Pid, w: World, id: Id)
    requires Distinct(uid) && GNext(uid, s, GGo(p, w)).Some? && Reachable(StateOf(uid, s, id))
    ensures Reachable(StateOf(uid, GNext(uid, s, GGo(p, w)).value, id))
  {
    var s' := GNext(uid, s, GGo(p, w)).value;
    var j := s.jobs[p];
    var (i, pc) := AtWork(j).value;
    var d := Project(uid, s.g, i);
    var r := Step(d, p, pc, w);
    StepAppends(d, p, pc, w);
    JobSet(s.jobs, p, MovedTo(j, r.pc), id);
    MovedSeen(j, r.pc, id);
    if i == id {
      CommitReads(uid, s.g, id, r.Db(d));
      StepReaches(StateOf(uid, s, id), Go(p, w));
      assert StateOf(uid, s', id) == Next(StateOf(uid, s, id), Go(p, w)).value;
    } else {
      CommitSpares(uid, s.g, i, r.Db(d), id);
      assert ProcsOf(s'.jobs, id) == ProcsOf(s.jobs, id);
    }
  }

  lemma LeaveAppends(d: Db, pc: Pc)
    ensures Leave(d, pc).clock == d.clock && d.feed == Leave(d, pc).feed
  {
  }

  lemma SkipProjects(uid: Id -> Uid, s: Sys, p: Pid, id: Id)
    requires Distinct(uid) && GNext(uid, s, GSkip(p)).Some? && Reachable(StateOf(uid, s, id))
    ensures Reachable(StateOf(uid, GNext(uid, s, GSkip(p)).value, id))
  {
    var s' := GNext(uid, s, GSkip(p)).value;
    var j := s.jobs[p];
    var (i, pc) := AtWork(j).value;
    var d := Project(uid, s.g, i);
    LeaveAppends(d, pc);
    JobSet(s.jobs, p, MovedTo(j, SkipTo(pc).value), id);
    MovedSeen(j, SkipTo(pc).value, id);
    if i == id {
      CommitReads(uid, s.g, id, Leave(d, pc));
      StepReaches(StateOf(uid, s, id), Skip(p));
      assert StateOf(uid, s', id) == Next(StateOf(uid, s, id), Skip(p)).value;
    } else {
      CommitSpares(uid, s.g, i, Leave(d, pc), id);
      assert ProcsOf(s'.jobs, id) == ProcsOf(s.jobs, id);
    }
  }

  /** An id that a job is not at has nothing half done there. */
  lemma ElsewhereIdle(d: Db, j: Job, id: Id)
    requires Seen(j, id).Some? && (AtWork(j).None? || AtWork(j).value.0 != id)
    ensures Leave(d, Seen(j, id).value) == d
  {
  }

  lemma EndProjects(uid: Id -> Uid, s: Sys, p: Pid, id: Id)
    requires Distinct(uid) && GNext(uid, s, GEnd(p)).Some? && Reachable(StateOf(uid, s, id))
    ensures Reachable(StateOf(uid, GNext(uid, s, GEnd(p)).value, id))
  {
    var s', t := GNext(uid, s, GEnd(p)).value, StateOf(uid, s, id);
    var j := s.jobs[p];
    JobGone(s.jobs, p, id);
    if AtWork(j).Some? {
      var (i, pc) := AtWork(j).value;
      var d := Project(uid, s.g, i);
      LeaveAppends(d, pc);
      if i == id { CommitReads(uid, s.g, i, Leave(d, pc)); } else { CommitSpares(uid, s.g, i, Leave(d, pc), id); }
    }
    if Seen(j, id).Some? {
      if AtWork(j).None? || AtWork(j).value.0 != id { ElsewhereIdle(t.db, j, id); }
      StepReaches(t, End(p));
      assert StateOf(uid, s', id) == Next(t, End(p)).value;
    } else {
      assert ProcsOf(s'.jobs, id) == ProcsOf(s.jobs, id);
    }
  }

  /** A process steps once more by itself, without touching the stores. */
  lemma MoveReaches(t: St, p: Pid, w: World, pc: Pc)
    requires Reachable(t) && p in t.procs && Step(t.db, p, t.procs[p], w) == Move(pc)
    ensures Reachable(t.(procs := t.procs[p := pc]))
  {
    StepReaches(t, Go(p, w));
  }

  const ANY := World(0, "", "", 0, None)

  /** A listing over all ids is, for each id, the listing of its own machine, and what follows from not being listed. */
  lemma ListProjects(uid: Id -> Uid, s: Sys, p: Pid, id: Id)
    requires GNext(uid, s, GList(p)).Some? && Reachable(StateOf(uid, s, id))
    ensures Reachable(StateOf(uid, GNext(uid, s, GList(p)).value, id))
  {
    var t := StateOf(uid, s, id);
    var j, j' := s.jobs[p], Listed(s.g, s.jobs[p]).value;
    JobSet(s.jobs, p, j', id);
    var next := Seen(j', id).value;
    match j
    case SweepStart => MoveReaches(t, p, ANY, next);
    case SweepSessions(now) => MoveReaches(t, p, ANY, next);
    case SweepFiles(now, listed) =>
      var v := ViewOf(j', id);
      MoveReaches(t, p, ANY, Sweep(SessionPass(v)));
      if id !in listed { MoveAgain(t, p, Sweep(SessionPass(v)), next); }
    case Walk(_, _, _, _, _, _, _) => PhaseProjects(uid, s, p, id);
  }

  lemma PhaseProjects(uid: Id -> Uid, s: Sys, p: Pid, id: Id)
    requires GNext(uid, s, GList(p)).Some? && s.jobs[p].Walk? && Reachable(StateOf(uid, s, id))
    ensures var t := StateOf(uid, s, id);
            Reachable(t.(procs := t.procs[p := Seen(Listed(s.g, s.jobs[p]).value, id).value]))
  {
    var t := StateOf(uid, s, id);
    var j, j' := s.jobs[p], Listed(s.g, s.jobs[p]).value;
    var next := Seen(j', id).value;
    if j.phase.Sessions? {
      if id in j.files {
        assert t.procs[p := next] == t.procs;
      } else {
        MoveReaches(t, p, ANY, next);
      }
    } else {
      MoveReaches(t, p, ANY, Sweep(OrphanPass(ViewOf(j', id), t.db.bytes)));
      if id !in s.g.objects { MoveAgain(t, p, Sweep(OrphanPass(ViewOf(j', id), None)), next); }
    }
  }

  lemma MoveAgain(t: St, p: Pid, mid: Pc, next: Pc)
    requires Reachable(t.(procs := t.procs[p := mid])) && Step(t.db, p, mid, ANY) == Move(next)
    ensures Reachable(t.(procs := t.procs[p := next]))
  {
    var u := t.(procs := t.procs[p := mid]);
    MoveReaches(u, p, ANY, next);
    assert u.procs[p := next] == t.procs[p := next];
  }

  lemma PickProjects(uid: Id -> Uid, s: Sys, p: Pid, i: Id, id: Id)
    requires GNext(uid, s, GPick(p, i)).Some? && Reachable(StateOf(uid, s, id)) && WalkOk(s.jobs[p])
    ensures Reachable(StateOf(uid, GNext(uid, s, GPick(p, i)).value, id))
  {
    var t := StateOf(uid, s, id);
    var j, j' := s.jobs[p], Picked(s.jobs[p], i).value;
    JobSet(s.jobs, p, j', id);
    if i == id && j.phase.Sessions? {
      MoveReaches(t, p, ANY, Seen(j', id).value);
    } else {
      assert Seen(j', id) == Seen(j, id);
      assert t.procs[p := Seen(j, id).value] == t.procs;
    }
  }

  /** The session pass walks only what was listed. */
  predicate WalkOk(j: Job) {
    j.Walk? && j.phase.Sessions? ==> j.todo <= j.listed
  }

  ghost predicate WalksOk(s: Sys) {
    forall p :: p in s.jobs ==> WalkOk(s.jobs[p])
  }

  lemma NextWalksOk(uid: Id -> Uid, s: Sys, a: GAct)
    requires WalksOk(s) && GNext(uid, s, a).Some?
    ensures WalksOk(GNext(uid, s, a).value)
  {
  }

  lemma ArriveProjects(uid: Id -> Uid, s: Sys, a: GAct, id: Id)
    requires (a.GArrive? || a.GSweep?) && GNext(uid, s, a).Some? && Reachable(StateOf(uid, s, id))
    ensures Reachable(StateOf(uid, GNext(uid, s, a).value, id))
  {
    var s', t := GNext(uid, s, a).value, StateOf(uid, s, id);
    JobSet(s.jobs, a.p, s'.jobs[a.p], id);
    if a.GSweep? {
      StepReaches(t, Arrive(a.p, SweepOnce));
    } else if a.id == id {
      StepReaches(t, Arrive(a.p, a.r));
    } else {
      assert ProcsOf(s'.jobs, id) == ProcsOf(s.jobs, id);
    }
  }

  lemma InitProjects(uid: Id -> Uid, s: Sys, a: GAct, id: Id)
    requires Distinct(uid) && a.GInit? && GNext(uid, s, a).Some? && Reachable(StateOf(uid, s, id))
    ensures Reachable(StateOf(uid, GNext(uid, s, a).value, id))
  {
    var s', t := GNext(uid, s, a).value, StateOf(uid, s, id);
    var d := Begin(Project(uid, s.g, a.id), a.p, a.total, a.size);
    JobSet(s.jobs, a.p, s'.jobs[a.p], id);
    if a.id == id {
      CommitReads(uid, s.g, id, d);
      StepReaches(t, InitUpload(a.p, a.total, a.size));
    } else {
      CommitSpares(uid, s.g, a.id, d, id);
      assert ProcsOf(s'.jobs, id) == ProcsOf(s.jobs, id);
    }
  }

  lemma RestProjects(uid: Id -> Uid, s: Sys, a: GAct, id: Id)
    requires (a.GTick? || a.GCrash?) && GNext(uid, s, a).Some? && Reachable(StateOf(uid, s, id))
    ensures Reachable(StateOf(uid, GNext(uid, s, a).value, id))
  {
    var s', t := GNext(uid, s, a).value, StateOf(uid, s, id);
    if a.GTick? {
      StepReaches(t, Tick(a.to));
    } else {
      StepReaches(t, Crash);
      assert Get(s'.g.hists, id, START.db.hist) == Crashed(t.db.hist);
      assert StateOf(uid, s', id) == Next(t, Crash).value;
    }
  }

  lemma NextProjects(uid: Id -> Uid, s: Sys, a: GAct, id: Id)
    requires Distinct(uid) && WalksOk(s) && GNext(uid, s, a).Some? && Reachable(StateOf(uid, s, id))
    ensures Reachable(StateOf(uid, GNext(uid, s, a).value, id))
  {
    match a
    case GTick(_) => RestProjects(uid, s, a, id);
    case GInit(_, _, _, _) => InitProjects(uid, s, a, id);
    case GArrive(_, _, _) => ArriveProjects(uid, s, a, id);
    case GSweep(_) => ArriveProjects(uid, s, a, id);
    case GGo(p, w) => GoProjects(uid, s, p, w, id);
    case GList(p) => ListProjects(uid, s, p, id);
    case GPick(p, i) => PickProjects(uid, s, p, i, id);
    case GSkip(p) => SkipProjects(uid, s, p, id);
    case GEnd(p) => EndProjects(uid, s, p, id);
    case GCrash => RestProjects(uid, s, a, id);
  }

  /**
   * Along every run of the whole server, with any number of ids, requests and sweeps over shared
   * stores, every id is in a reachable state of its own machine. So all theorems about that machine
   * hold for each id of the server.
   */
  lemma {:induction false} SystemProjects(uid: Id -> Uid, acts: seq<GAct>, id: Id)
    requires Distinct(uid) && GRun(uid, acts).Some?
    ensures WalksOk(GRun(uid, acts).value) && Reachable(StateOf(uid, GRun(uid, acts).value, id))
    decreases |acts|
  {
    if acts == [] {
      assert Run(START, []) == Some(START);
      assert StateOf(uid, GSTART, id) == START;
    } else {
      var before := acts[..|acts| - 1];
      SystemProjects(uid, before, id);
      NextProjects(uid, GRun(uid, before).value, acts[|acts| - 1], id);
      NextWalksOk(uid, GRun(uid, before).value, acts[|acts| - 1]);
    }
  }

  // ---- a sweep turns to every item that it listed ----

  /** What the passes of a walk are to turn to. */
  function Items(j: Job, ph: Phase): set<Id>
    requires j.Walk?
  {
    match ph
    case Sessions => j.listed
    case Files => j.files.Keys
    case Keys => j.modified.Keys
  }

  function Rank(ph: Phase): nat {
    match ph
    case Sessions => 0
    case Files => 1
    case Keys => 2
  }

  /** The pass is over, or under way and no longer has the item to come. */
  predicate Turned(j: Job, ph: Phase, id: Id) {
    j.Walk? && id in Items(j, ph) && (Rank(ph) < Rank(j.phase) || (ph == j.phase && id !in j.todo))
  }

  /** Action `i` is the one with which the sweep of `p` turns to the item in this pass. */
  predicate PickedAt(uid: Id -> Uid, acts: seq<GAct>, i: nat, p: Pid, ph: Phase, id: Id) {
    && i < |acts| && acts[i] == GPick(p, id) && GRun(uid, acts[..i]).Some?
    && var s := GRun(uid, acts[..i]).value;
       p in s.jobs && s.jobs[p].Walk? && s.jobs[p].phase == ph && id in Items(s.jobs[p], ph) && id in s.jobs[p].todo
  }

  lemma ListedTurned(g: Stores, j: Job, ph: Phase, id: Id)
    requires Listed(g, j).Some? && Turned(Listed(g, j).value, ph, id)
    ensures Turned(j, ph, id)
  {
  }

  predicate Turning(j: Job, i: Id, ph: Phase, id: Id) {
    i == id && j.Walk? && j.phase == ph && id in Items(j, ph) && id in j.todo
  }

  lemma PickedTurned(j: Job, i: Id, ph: Phase, id: Id)
    requires Picked(j, i).Some? && Turned(Picked(j, i).value, ph, id)
    ensures Turned(j, ph, id) || Turning(j, i, ph, id)
  {
  }

  lemma MovedTurned(j: Job, pc: Pc, ph: Phase, id: Id)
    requires AtWork(j).Some? && Turned(MovedTo(j, pc), ph, id)
    ensures Turned(j, ph, id)
  {
  }

  lemma TurnedBefore(uid: Id -> Uid, s: Sys, a: GAct, p: Pid, ph: Phase, id: Id)
    requires GNext(uid, s, a).Some? && p in GNext(uid, s, a).value.jobs
    requires Turned(GNext(uid, s, a).value.jobs[p], ph, id)
    ensures p in s.jobs
    ensures Turned(s.jobs[p], ph, id) || (a.GPick? && a.p == p && Turning(s.jobs[p], a.id, ph, id))
  {
    match a
    case GGo(q, w) =>
      if q == p {
        var (i, pc) := AtWork(s.jobs[p]).value;
        MovedTurned(s.jobs[p], Step(Project(uid, s.g, i), p, pc, w).pc, ph, id);
      }
    case GSkip(q) => if q == p { MovedTurned(s.jobs[p], SkipTo(AtWork(s.jobs[p]).value.1).value, ph, id); }
    case GList(q) => if q == p { ListedTurned(s.g, s.jobs[p], ph, id); }
    case GPick(q, i) => if q == p { PickedTurned(s.jobs[p], i, ph, id); }
    case _ =>
  }

  /**
   * Over every run of the server, a pass of a sweep that is over has turned to every session, every
   * file and every key that it listed; in between, to every one that is no longer to come.
   */
  lemma {:induction false} PassesSkipNothing(uid: Id -> Uid, acts: seq<GAct>, p: Pid, ph: Phase, id: Id)
    returns (i: nat)
    requires GRun(uid, acts).Some? && p in GRun(uid, acts).value.jobs
    requires Turned(GRun(uid, acts).value.jobs[p], ph, id)
    ensures PickedAt(uid, acts, i, p, ph, id)
    decreases |acts|
  {
    var before, a := acts[..|acts| - 1], acts[|acts| - 1];
    var s := GRun(uid, before).value;
    TurnedBefore(uid, s, a, p, ph, id);
    if Turned(s.jobs[p], ph, id) {
      i := PassesSkipNothing(uid, before, p, ph, id);
      assert before[..i] == acts[..i];
    } else {
      i := |before|;
    }
  }
}
