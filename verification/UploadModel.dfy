// The life of one file id under concurrent requests and sweeps, one step per store or S3 call
// (src/fs/mod.rs, src/fs/gc.rs, src/fs/store.rs).
//
// Every store the engine writes is keyed by the file id (or by the upload id that the session of
// that file id alone names), and no step writes the keys of two ids. The machine therefore follows
// one id with any number of processes on it; `UploadSystem` puts all ids together again.
module UploadModel {
  import opened Wrappers
  import opened Multipart

  type Pid = nat

  /** Seconds after which sessions, unreferenced files and orphan bytes may go. */
  const TTL_SECS: int := 24 * 3600

  /** `fs:uploads:{id}:meta`. The upload is multipart exactly when it has other than one part. */
  datatype Session = Session(fileSize: nat, total: nat, createdAt: int, etags: seq<Option<string>>) {
    predicate Multi() { total != 1 }
    predicate Complete() { forall i :: 0 <= i < |etags| ==> etags[i].Some? }
    predicate Expired(now: int) { now - createdAt > TTL_SECS }
  }

  /** `fs:files:{id}:meta`. */
  datatype Row = Row(name: string, size: nat, createdAt: int)

  /** The feed entries that concern this id. */
  datatype Op = FileCreate(rec: Row) | FileDelete

  /** The multipart upload on the backend. */
  datatype Backend = Absent | Open | Assembled | Aborted

  /** Where the one init request of this id stands. */
  datatype InitPhase = Fresh | Creating(pid: Pid) | Between(pid: Pid) | Over

  /** What the lock holder has half done; `Idle` when nothing is half done. */
  datatype Crit = Idle | Merging(index: nat) | Committing | Announced | Expiring

  /** Whether the session row was deleted between the two writes of init, by whom, and at what age. */
  datatype Race = NoRace | ByCancel | ByExpiry(age: int)

  /** History: recorded along a run, never read by a step of the engine. */
  datatype Hist = Hist(
    init: InitPhase,
    total: nat,               // parts and bytes declared at init
    size: nat,
    bornAt: Option<int>,      // clock at which the session row was first written
    mpWritten: bool,          // init wrote the multipart record
    dropped: bool,            // the session row was deleted
    raced: Race,
    committed: bool,          // a file row was written
    crit: Crit,
    cutMerge: bool,           // a merge ended between its two writes
    cutCommit: bool,          // a completion ended between the file row and the session delete
    cutExpiry: bool,          // an expiry ended between the object delete and the session delete
    filePassed: bool,         // the file pass deleted the bytes
    ramTouched: bool,         // a part upload wrote the RAM state since the last completion's restore
    lostHandle: bool,         // a cancel or an expiry deleted the session of an unannounced file row
    failedDrops: nat,         // announced completions that ended before the session delete
    writes: nat)              // writes of the object so far; each has its own number

  /** Everything outside the processes: KV rows, RAM map entry, backend, feed, lock and clock. */
  datatype Db = Db(
    clock: int,
    lock: Option<Pid>,
    session: Option<Session>,
    mp: Option<Parts>,
    ram: Option<Parts>,
    backend: Backend,
    bytes: Option<int>,        // last_modified of `files/{id}`
    content: nat,              // the number of the write that made its content
    row: Option<Row>,
    feed: seq<Op>,
    hist: Hist)

  /** What one sweep listed about this id: its start time, and the session and file scans. */
  datatype View = View(now: int, listed: bool, file: Option<Row>)

  datatype InitPc = SaveSession | SaveRecord
  datatype UpPc = Start(i: nat) | Put | Load(i: nat) | Restore(i: nat, parts: Parts) | Lookup(i: nat)
                | PutPart(i: nat) | Record(i: nat, etag: string)
  datatype MgPc = Wait | Read | LoadRecord(s: Session) | SaveRecord(s: Session, parts: Parts)
                | SaveSession(s: Session, recorded: bool)
  datatype CoPc = Wait | ReadFile | ReadSession(row: Option<Row>) | Again(rec: Row)
                | Load(s: Session) | Restore(s: Session, parts: Parts) | Take(s: Session, parts: Parts)
                | Assemble(s: Session) | DropRecord(s: Session) | SaveFile(s: Session)
                | Announce(rec: Row) | DropSession(rec: Row) | Failed | Returned
  datatype By = Cancel | Expire(v: View)
  datatype ClPc = Wait | Read | Load(s: Session) | Ensure(s: Session) | Restore(s: Session, parts: Parts)
                | Take(s: Session) | Abort(s: Session) | DeleteObject(s: Session) | DropSession(s: Session)
  datatype SwPc = Start | ListSessions(now: int) | ListFiles(now: int, listed: bool) | SessionPass(v: View)
                | FilePass(v: View) | FileBytes(v: View) | FileAnnounce(v: View) | FileRow(v: View)
                | ListKeys(v: View) | OrphanPass(v: View, modified: Option<int>)
  datatype DePc = Start | Announce | DropRow | DeleteObject

  datatype Pc = Init(init: InitPc)
              | Upload(up: UpPc)
              | Merge(i: nat, etag: string, mg: MgPc)
              | Complete(co: CoPc)
              | Close(why: By, cl: ClPc)
              | Sweep(sw: SwPc)
              | Delete(de: DePc)
              | Done

  datatype St = St(db: Db, procs: map<Pid, Pc>)

  /** Answers of the outside world to one step: times, ids, request fields, reference counts. */
  datatype World = World(at: int, etag: string, name: string,
                         refs: nat, orphanSince: Option<int>)

  /** A step is not enabled, only moves its process on, or also changes the stores. */
  datatype Out = Stuck | Move(pc: Pc) | Write(db: Db, pc: Pc) {
    predicate Taken() { !Stuck? }

    function Db(d: Db): Db {
      if Write? then db else d
    }
  }

  /** The program points at which a process holds the session lock of this id. */
  predicate Holds(pc: Pc) {
    match pc
    case Merge(_, _, mg) => !mg.Wait?
    case Complete(co) => !co.Wait?
    case Close(_, cl) => !cl.Wait?
    case _ => false
  }

  /** What is half done while the lock holder stands at `pc`. */
  function CritOf(pc: Pc): Crit {
    match pc
    case Merge(i, _, SaveSession(_, recorded)) => if recorded then Merging(i) else Idle
    case Complete(Announce(_)) => Committing
    case Complete(DropSession(_)) => Announced
    case Close(Expire(_), DropSession(s)) => if s.Multi() then Idle else Expiring
    case _ => Idle
  }

  /** A write under the lock; the history notes what the holder has half done after it. */
  function Locked(d: Db, pc: Pc): Out {
    Write(d.(hist := d.hist.(crit := CritOf(pc))), pc)
  }

  /** Takes the session lock if it is free. */
  function Lock(d: Db, p: Pid, pc: Pc): Out {
    if d.lock.None? then Write(d.(lock := Some(p)), pc) else Stuck
  }

  // ---- init_upload: session row, then multipart record, without the lock ----

  /** The start of init_upload: a multipart upload is created on the backend, with its RAM entry. */
  function Begin(d: Db, p: Pid, total: nat, size: nat): Db {
    d.(backend := if total == 1 then d.backend else Open,
       ram := if total == 1 then d.ram else Some(map[]),
       hist := d.hist.(init := Creating(p), total := total, size := size))
  }

  function StepInit(d: Db, p: Pid, pc: InitPc, w: World): Out {
    match pc
    case SaveSession =>
      if w.at <= d.clock then
        var s := Session(d.hist.size, d.hist.total, w.at, seq(d.hist.total, _ => None));
        var phase := if s.Multi() then Between(p) else Over;
        Write(d.(session := Some(s), hist := d.hist.(bornAt := Some(d.clock), init := phase)),
              if s.Multi() then Init(InitPc.SaveRecord) else Done)
      else Stuck
    case SaveRecord =>
      // `backend_upload_id` answers only while the RAM entry is there
      if d.ram.Some? then
        Write(d.(mp := Some(map[]), hist := d.hist.(mpWritten := true, init := Over)), Done)
      else Stuck
  }

  // ---- upload_part: read, stage the bytes, all without the lock ----

  /** S3 stamps the object with its own clock, which may be behind by up to the TTL. */
  predicate Stamped(d: Db, w: World) {
    d.hist.bornAt.Some? && d.hist.bornAt.value - TTL_SECS <= w.at
  }

  /** A write of the object: a new stamp, and a new content in its place. */
  function PutObject(d: Db, w: World): Db {
    d.(bytes := Some(w.at), content := d.hist.writes + 1, hist := d.hist.(writes := d.hist.writes + 1))
  }

  function StepUpload(d: Db, pc: UpPc, w: World): Out {
    match pc
    case Start(i) =>
      if d.session.Some? && i < d.session.value.total then
        if d.session.value.Multi() then Move(Upload(UpPc.Load(i))) else Move(Upload(Put))
      else Stuck
    case Put =>
      if Stamped(d, w) then Write(PutObject(d, w), Merge(0, "put", MgPc.Wait)) else Stuck
    case Load(i) =>
      if d.mp.Some? then Move(Upload(UpPc.Restore(i, d.mp.value))) else Stuck
    case Restore(i, parts) =>
      Write(d.(ram := Some(parts), hist := d.hist.(ramTouched := true)), Upload(Lookup(i)))
    case Lookup(i) =>
      if d.ram.Some? then Move(Upload(PutPart(i))) else Stuck
    case PutPart(i) =>
      if d.backend.Open? then Move(Upload(Record(i, w.etag))) else Stuck
    case Record(i, e) =>
      Write(d.(ram := if d.ram.Some? then Some(d.ram.value[i := e]) else None,
            hist := d.hist.(ramTouched := true)), Merge(i, e, MgPc.Wait))
  }

  // ---- merge_part: both rows again under the lock, the record first ----

  function StepMerge(d: Db, p: Pid, i: nat, e: string, pc: MgPc): Out {
    match pc
    case Wait => Lock(d, p, Merge(i, e, MgPc.Read))
    case Read =>
      if d.session.Some? && i < |d.session.value.etags| then
        var s := d.session.value;
        if s.Multi() then Move(Merge(i, e, LoadRecord(s))) else Move(Merge(i, e, MgPc.SaveSession(s, false)))
      else Stuck
    case LoadRecord(s) =>
      if d.mp.Some? then Move(Merge(i, e, MgPc.SaveRecord(s, d.mp.value)))
      else Move(Merge(i, e, MgPc.SaveSession(s, false)))
    case SaveRecord(s, parts) =>
      Locked(d.(mp := Some(parts[i := e])), Merge(i, e, MgPc.SaveSession(s, true)))
    case SaveSession(s, _) =>
      if i < |s.etags| then Unlock(d.(session := Some(s.(etags := s.etags[i := Some(e)]))), Done) else Stuck
  }

  /** Drops the guard: the lock is free and nothing is half done. */
  function Unlock(d: Db, pc: Pc): Out {
    Write(d.(lock := None, hist := d.hist.(crit := Idle)), pc)
  }

  // ---- complete_upload: everything under the lock ----

  function Etags(s: Session): seq<string>
    requires s.Complete()
  {
    seq(|s.etags|, i requires 0 <= i < |s.etags| => s.etags[i].value)
  }

  /** The session row and its multipart record, in one transaction. */
  function DeleteSession(d: Db): Db {
    if d.session.None? then d
    else d.(session := None, mp := if d.session.value.Multi() then None else d.mp,
            hist := d.hist.(dropped := true))
  }

  function StepComplete(d: Db, p: Pid, pc: CoPc, w: World): Out {
    match pc
    case Wait => Lock(d, p, Complete(ReadFile))
    case ReadFile => Move(Complete(ReadSession(d.row)))
    case ReadSession(row) =>
      if row.Some? then
        if d.session.None? then Move(Complete(Returned)) else Move(Complete(Again(row.value)))
      else if d.session.None? || !d.session.value.Complete() then Stuck
      else
        var s := d.session.value;
        if s.Multi() then Move(Complete(CoPc.Load(s))) else Move(Complete(SaveFile(s)))
    case Again(rec) => Locked(d.(feed := d.feed + [FileCreate(rec)]), Complete(CoPc.DropSession(rec)))
    case Load(s) =>
      if d.mp.Some? then Move(Complete(CoPc.Restore(s, d.mp.value))) else Stuck
    case Restore(s, parts) =>
      Locked(d.(ram := Some(parts), hist := d.hist.(ramTouched := false)), Complete(CoPc.Take(s, parts)))
    case Take(s, _) =>
      // takes the entry out before it checks it
      if d.ram.None? || !s.Complete() then Stuck
      else Write(d.(ram := None),
                 Complete(if CheckParts(d.ram.value, Etags(s)).Passed? then Assemble(s) else Failed))
    case Failed => Stuck
    case Assemble(s) =>
      if d.backend.Open? && Stamped(d, w) then
        Locked(PutObject(d, w).(backend := Assembled), Complete(DropRecord(s)))
      else Stuck
    case DropRecord(s) => Locked(d.(mp := None), Complete(SaveFile(s)))
    case SaveFile(s) =>
      var rec := Row(w.name, s.fileSize, w.at);
      Locked(d.(row := Some(rec), hist := d.hist.(committed := true)), Complete(CoPc.Announce(rec)))
    case Announce(rec) => Locked(d.(feed := d.feed + [FileCreate(rec)]), Complete(CoPc.DropSession(rec)))
    case DropSession(_) => Locked(DeleteSession(d), Complete(Returned))
    case Returned => Unlock(d, Done)
  }

  // ---- cancel_upload and the session pass of the sweep, which share abort_session_upload ----

  /** Where the sweep goes after the session pass; a cancel is done. */
  function After(why: By): Pc {
    match why
    case Cancel => Done
    case Expire(v) => Sweep(FilePass(v))
  }

  /** A file row that the feed does not know. */
  predicate Unannounced(d: Db) {
    d.row.Some? && FileCreate(d.row.value) !in d.feed
  }

  function StepClose(d: Db, p: Pid, why: By, pc: ClPc): Out {
    match pc
    case Wait => Lock(d, p, Close(why, ClPc.Read))
    case Read =>
      if why.Expire? && (d.session.None? || !d.session.value.Expired(why.v.now)) then Unlock(d, After(why))
      else if d.session.None? then Stuck
      else
        var s := d.session.value;
        if s.Multi() then Move(Close(why, ClPc.Load(s)))
        else if why.Expire? then Move(Close(why, ClPc.DeleteObject(s)))
        else Move(Close(why, ClPc.DropSession(s)))
    case Load(s) =>
      if d.mp.Some? then Move(Close(why, Ensure(s))) else Move(Close(why, ClPc.DropSession(s)))
    case Ensure(s) => if d.mp.Some? then Move(Close(why, ClPc.Restore(s, d.mp.value))) else Stuck
    case Restore(s, parts) => Locked(d.(ram := Some(parts)), Close(why, ClPc.Take(s)))
    case Take(s) =>
      if d.ram.Some? then Locked(d.(ram := None), Close(why, Abort(s)))
      else Move(Close(why, ClPc.DropSession(s)))
    case Abort(s) =>
      // an upload that is not open is already gone, which counts as success
      Locked(d.(backend := if d.backend.Open? then Aborted else d.backend), Close(why, ClPc.DropSession(s)))
    case DeleteObject(s) => Locked(d.(bytes := None), Close(why, ClPc.DropSession(s)))
    case DropSession(s) =>
      var d' := DeleteSession(d);
      var race := if why.Cancel? then ByCancel else ByExpiry(d.clock - s.createdAt);
      Unlock(d'.(hist := d'.hist.(lostHandle := d.hist.lostHandle || Unannounced(d),
                                  raced := if d.hist.init.Between? then race else d.hist.raced)), After(why))
  }

  // ---- the other passes of sweep_once, without the lock ----

  function StepSweep(d: Db, pc: SwPc, w: World): Out {
    match pc
    case Start => Move(Sweep(ListSessions(d.clock)))
    case ListSessions(now) => Move(Sweep(ListFiles(now, d.session.Some?)))
    case ListFiles(now, listed) => Move(Sweep(SessionPass(View(now, listed, d.row))))
    case SessionPass(v) =>
      if v.listed then Move(Close(Expire(v), ClPc.Wait)) else Move(Sweep(FilePass(v)))
    case FilePass(v) =>
      // unreferenced, and old since it lost its last reference or was created
      if v.file.Some? && w.refs == 0
         && v.now - (if w.orphanSince.Some? then w.orphanSince.value else v.file.value.createdAt) > TTL_SECS then
        Move(Sweep(FileBytes(v)))
      else Move(Sweep(ListKeys(v)))
    // a row may be attached to the file since the count was read
    case FileBytes(v) => Write(d.(bytes := None, hist := d.hist.(filePassed := true)), Sweep(FileAnnounce(v)))
    case FileAnnounce(v) => Write(d.(feed := d.feed + [FileDelete]), Sweep(FileRow(v)))
    case FileRow(v) => Write(d.(row := None), Sweep(ListKeys(v)))
    case ListKeys(v) => Move(Sweep(SwPc.OrphanPass(v, d.bytes)))
    case OrphanPass(v, modified) =>
      if OrphanDue(v, modified) then Write(d.(bytes := None), Done) else Move(Done)
  }

  /** Neither scan named the key, and the listed object is older than the TTL. */
  predicate OrphanDue(v: View, modified: Option<int>) {
    !v.listed && v.file.None? && modified.Some? && v.now - modified.value > TTL_SECS
  }

  // ---- delete_file: announce, row, bytes, without the lock ----

  function StepDelete(d: Db, pc: DePc): Out {
    match pc
    case Start => if d.row.Some? then Move(Delete(DePc.Announce)) else Stuck
    case Announce => Write(d.(feed := d.feed + [FileDelete]), Delete(DropRow))
    case DropRow => Write(d.(row := None), Delete(DePc.DeleteObject))
    case DeleteObject => Write(d.(bytes := None), Done)
  }

  function Step(d: Db, p: Pid, pc: Pc, w: World): Out {
    match pc
    case Init(c) => StepInit(d, p, c, w)
    case Upload(c) => StepUpload(d, c, w)
    case Merge(i, e, c) => StepMerge(d, p, i, e, c)
    case Complete(c) => StepComplete(d, p, c, w)
    case Close(why, c) => StepClose(d, p, why, c)
    case Sweep(c) => StepSweep(d, c, w)
    case Delete(c) => StepDelete(d, c)
    case Done => Stuck
  }

  // ---- processes that end early: an error return, a dropped request, a crash ----

  /** What the history notes when the lock is released with something half done. */
  function CutHist(h: Hist): Hist {
    h.(crit := Idle,
       cutMerge := h.cutMerge || h.crit.Merging?,
       cutCommit := h.cutCommit || h.crit.Committing? || h.crit.Announced?,
       cutExpiry := h.cutExpiry || h.crit.Expiring?,
       failedDrops := h.failedDrops + if h.crit.Announced? then 1 else 0)
  }

  function Leave(d: Db, pc: Pc): Db {
    if Holds(pc) then d.(lock := None, hist := CutHist(d.hist))
    else if pc.Init? then d.(hist := d.hist.(init := Over))
    else d
  }

  /** The sweep keeps an item after a failed call and goes on with the next pass. */
  function SkipTo(pc: Pc): Option<Pc> {
    match pc
    case Close(Expire(v), _) => Some(Sweep(FilePass(v)))
    case Sweep(FilePass(v)) => Some(Sweep(ListKeys(v)))
    case Sweep(FileBytes(v)) => Some(Sweep(ListKeys(v)))
    case Sweep(FileAnnounce(v)) => Some(Sweep(ListKeys(v)))
    case _ => None
  }

  datatype Request = UploadPart(i: nat) | CompleteUpload | CancelUpload | DeleteFile | SweepOnce

  function Entry(r: Request): Pc {
    match r
    case UploadPart(i) => Upload(UpPc.Start(i))
    case CompleteUpload => Complete(CoPc.Wait)
    case CancelUpload => Close(Cancel, ClPc.Wait)
    case DeleteFile => Delete(DePc.Start)
    case SweepOnce => Sweep(SwPc.Start)
  }

  datatype Act = Tick(to: int)                 // the clock moves
               | InitUpload(p: Pid, total: nat, size: nat) // the one init request of this id
               | Arrive(p: Pid, r: Request)    // any other request, at any time
               | Go(p: Pid, w: World)          // one store or S3 call of one process
               | Skip(p: Pid)                  // a sweep gives up one item
               | End(p: Pid)                   // a process ends here, whatever it was doing
               | Crash                         // all processes end, RAM is lost

  /** One step of the machine; None when the action is not enabled. */
  function Next(s: St, a: Act): Option<St> {
    match a
    case Tick(to) =>
      if s.db.clock <= to then Some(s.(db := s.db.(clock := to))) else None
    case InitUpload(p, total, size) =>
      if p !in s.procs && s.db.hist.init.Fresh? && total >= 1 then
        Some(St(Begin(s.db, p, total, size), s.procs[p := Init(InitPc.SaveSession)]))
      else None
    case Arrive(p, r) =>
      if p !in s.procs then Some(s.(procs := s.procs[p := Entry(r)])) else None
    case Go(p, w) =>
      if p in s.procs then
        var r := Step(s.db, p, s.procs[p], w);
        if r.Taken() then Some(St(r.Db(s.db), s.procs[p := r.pc])) else None
      else None
    case Skip(p) =>
      if p in s.procs && SkipTo(s.procs[p]).Some? then
        Some(St(Leave(s.db, s.procs[p]), s.procs[p := SkipTo(s.procs[p]).value]))
      else None
    case End(p) =>
      if p in s.procs then Some(St(Leave(s.db, s.procs[p]), s.procs - {p})) else None
    case Crash =>
      var h := CutHist(s.db.hist);
      Some(St(s.db.(lock := None, ram := None, hist := if h.init.Fresh? then h else h.(init := Over)), map[]))
  }

  const START := St(
    Db(0, None, None, None, None, Absent, None, 0, None, [],
       Hist(Fresh, 0, 0, None, false, false, NoRace, false, Idle, false, false, false, false, false, false, 0, 0)),
    map[])

  /** The state after a run of actions, if every one of them was enabled. */
  function Run(s: St, acts: seq<Act>): Option<St>
    decreases |acts|
  {
    if acts == [] then Some(s)
    else match Run(s, acts[..|acts| - 1])
      case None => None
      case Some(mid) => Next(mid, acts[|acts| - 1])
  }

  ghost predicate Reachable(s: St) {
    exists acts: seq<Act> :: Run(START, acts) == Some(s)
  }
}
