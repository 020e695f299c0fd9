// What each request and each pass of a sweep does from any reachable state of the stores, when no
// other process moves meanwhile (src/fs/mod.rs, src/fs/gc.rs).
module UploadAlone {
  import opened Wrappers
  import opened Multipart
  import opened UploadModel
  import opened UploadInvariant
  import opened UploadTheorems
  import opened UploadHistory

  ghost predicate Only(acts: seq<Act>, p: Pid) {
    forall a :: a in acts ==> a.Go? && a.p == p
  }

  /** Steps of process `p` alone lead to the stores `d`, with `p` at `pc`. */
  ghost predicate Leads(s: St, p: Pid, d: Db, pc: Pc) {
    exists acts: seq<Act> :: Run(s, acts) == Some(St(d, s.procs[p := pc])) && Only(acts, p)
  }

  function Arrived(s: St, p: Pid, r: Request): St {
    s.(procs := s.procs[p := Entry(r)])
  }

  /** A request that arrives and then goes on alone ends with the stores `d`. */
  ghost predicate Does(s: St, p: Pid, r: Request, d: Db) {
    p !in s.procs && Next(s, Arrive(p, r)) == Some(Arrived(s, p, r)) && Leads(Arrived(s, p, r), p, d, Done)
  }

  lemma Stays(s: St, p: Pid)
    requires p in s.procs
    ensures Leads(s, p, s.db, s.procs[p])
  {
    assert s.procs[p := s.procs[p]] == s.procs;
    assert Run(s, []) == Some(s) && Only([], p);
  }

  lemma Arrives(s: St, p: Pid, r: Request)
    requires p !in s.procs
    ensures Next(s, Arrive(p, r)) == Some(Arrived(s, p, r))
    ensures Leads(Arrived(s, p, r), p, s.db, Entry(r))
  {
    Stays(Arrived(s, p, r), p);
  }

  lemma Goes(s: St, p: Pid, d: Db, pc: Pc, w: World) returns (d': Db, pc': Pc)
    requires Leads(s, p, d, pc) && Step(d, p, pc, w).Taken()
    ensures Leads(s, p, d', pc')
    ensures d' == Step(d, p, pc, w).Db(d) && pc' == Step(d, p, pc, w).pc
  {
    var acts: seq<Act> :| Run(s, acts) == Some(St(d, s.procs[p := pc])) && Only(acts, p);
    d', pc' := Step(d, p, pc, w).Db(d), Step(d, p, pc, w).pc;
    var all := acts + [Go(p, w)];
    assert all[..|all| - 1] == acts;
    assert s.procs[p := pc][p := pc'] == s.procs[p := pc'];
    assert Run(s, all) == Some(St(d', s.procs[p := pc']));
  }

  lemma LeadsReaches(s: St, p: Pid, d: Db, pc: Pc)
    requires Reachable(s) && Leads(s, p, d, pc)
    ensures Reachable(St(d, s.procs[p := pc]))
  {
    var acts: seq<Act> :| Run(s, acts) == Some(St(d, s.procs[p := pc])) && Only(acts, p);
    ReachableRun(s, acts);
  }

  const NOW := World(0, "", "", 0, None)

  // ---- complete_upload ----

  lemma FindsSession(s: St, p: Pid, d: Db, c: Session)
    requires Leads(s, p, d, Complete(CoPc.Wait)) && d.lock.None? && d.row.None?
    requires d.session == Some(c) && c.Complete()
    ensures Leads(s, p, d.(lock := Some(p)), Complete(if c.Multi() then CoPc.Load(c) else SaveFile(c)))
  {
    var d', pc := Goes(s, p, d, Complete(CoPc.Wait), NOW);
    d', pc := Goes(s, p, d', pc, NOW);                  // get_file
    d', pc := Goes(s, p, d', pc, NOW);                  // get_session
  }

  function TakenOut(d: Db): Db {
    d.(ram := None, hist := d.hist.(crit := Idle, ramTouched := false))
  }

  /** The entry is that of the record, and the check decides. */
  lemma Checks(s: St, p: Pid, d: Db, c: Session)
    requires Leads(s, p, d, Complete(CoPc.Load(c))) && d.mp.Some? && c.Complete()
    ensures Leads(s, p, TakenOut(d), Complete(if Exactly(d.mp.value, Etags(c)) then Assemble(c) else Failed))
  {
    CheckPartsExact(d.mp.value, Etags(c));
    var d', pc := Goes(s, p, d, Complete(CoPc.Load(c)), NOW);
    d', pc := Goes(s, p, d', pc, NOW);                  // restore_multipart
    d', pc := Goes(s, p, d', pc, NOW);                  // take the entry out, and check it
    assert d' == TakenOut(d);
  }

  function NewRow(c: Session, w: World): Row { Row(w.name, c.fileSize, w.at) }

  function AssembledDb(d: Db, w: World): Db {
    PutObject(d, w).(backend := Assembled, mp := None,
                     hist := d.hist.(writes := d.hist.writes + 1, crit := Idle))
  }

  lemma Assembles(s: St, p: Pid, d: Db, c: Session, w: World)
    requires Leads(s, p, d, Complete(Assemble(c))) && d.backend.Open? && Stamped(d, w)
    ensures Leads(s, p, AssembledDb(d, w), Complete(SaveFile(c)))
  {
    var d', pc := Goes(s, p, d, Complete(Assemble(c)), w);
    d', pc := Goes(s, p, d', pc, w);                    // delete_multipart
    assert d' == AssembledDb(d, w);
  }

  function EndedDb(d: Db): Db {
    var gone := d.session.Some?;
    d.(lock := None, session := None, mp := if gone && d.session.value.Multi() then None else d.mp,
       hist := d.hist.(crit := Idle, dropped := d.hist.dropped || gone))
  }

  lemma Ends(s: St, p: Pid, d: Db, rec: Row)
    requires Leads(s, p, d, Complete(CoPc.DropSession(rec)))
    ensures Leads(s, p, EndedDb(d), Done)
  {
    var e := EndedDb(d);
    var d', pc := Goes(s, p, d, Complete(CoPc.DropSession(rec)), NOW);
    assert d' == DeleteSession(d).(hist := d'.hist) && d'.hist == e.hist;
    d', pc := Goes(s, p, d', pc, NOW);                  // return
    assert d'.session == e.session && d'.mp == e.mp && d'.hist == e.hist;
    assert d' == e;
  }

  function ClosedDb(d: Db, rec: Row): Db {
    EndedDb(d.(feed := d.feed + [FileCreate(rec)]))
  }

  lemma Announces(s: St, p: Pid, d: Db, rec: Row, pc0: Pc)
    requires pc0 == Complete(CoPc.Announce(rec)) || pc0 == Complete(Again(rec))
    requires Leads(s, p, d, pc0)
    ensures Leads(s, p, ClosedDb(d, rec), Done)
  {
    var d', pc := Goes(s, p, d, pc0, NOW);
    Ends(s, p, d', rec);
    assert EndedDb(d') == ClosedDb(d, rec);
  }

  function SavedDb(d: Db, rec: Row): Db {
    d.(row := Some(rec), hist := d.hist.(committed := true, crit := Committing))
  }

  lemma Saves(s: St, p: Pid, d: Db, c: Session, w: World)
    requires Leads(s, p, d, Complete(SaveFile(c)))
    ensures Leads(s, p, ClosedDb(SavedDb(d, NewRow(c, w)), NewRow(c, w)), Done)
  {
    var d', pc := Goes(s, p, d, Complete(SaveFile(c)), w);
    assert d' == SavedDb(d, NewRow(c, w));
    Announces(s, p, d', NewRow(c, w), pc);
  }

  /** The stores after a completion that goes through. */
  ghost predicate CommittedFrom(d: Db, e: Db, c: Session, w: World) {
    && e.row == Some(NewRow(c, w)) && e.session.None? && e.lock.None? && e.clock == d.clock
    && e.feed == d.feed + [FileCreate(NewRow(c, w))]
    && (if c.Multi() then
          e.bytes == Some(w.at) && e.mp.None? && e.ram.None? && e.backend.Assembled?
        else
          e.bytes == d.bytes && e.content == d.content && e.mp == d.mp && e.ram == d.ram && e.backend == d.backend)
  }

  /** The record of a complete session whose merges all went through names exactly its parts. */
  lemma RecordIsExact(s: St)
    requires Reachable(s) && s.db.session.Some? && s.db.session.value.Complete() && s.db.session.value.Multi()
    requires s.db.lock.None? && s.db.backend.Open? && !s.db.hist.cutMerge
    ensures s.db.mp.Some? && Exactly(s.db.mp.value, Etags(s.db.session.value))
  {
    var d, c := s.db, s.db.session.value;
    ReachableKeeps(s);
    var acts: seq<Act> :| Run(START, acts) == Some(s);
    RunStands(acts);
    assert c.etags[0].Some?;
    CoveredIsExact(d.mp.value, c);
  }

  /**
   * From every reachable state with all parts merged, no merge cut short, the lock free, no file row
   * and the upload still open, one completion alone commits: the object is assembled, the file row
   * is there and announced, and session, record and entry are gone.
   */
  lemma CompletesAlone(s: St, p: Pid, w: World) returns (d: Db)
    requires Reachable(s) && p !in s.procs && s.db.lock.None? && s.db.row.None?
    requires s.db.session.Some? && s.db.session.value.Complete() && s.db.session.value.Multi()
    requires s.db.backend.Open? && !s.db.hist.cutMerge && Stamped(s.db, w)
    ensures Does(s, p, CompleteUpload, d) && CommittedFrom(s.db, d, s.db.session.value, w)
  {
    var c, a := s.db.session.value, Arrived(s, p, CompleteUpload);
    RecordIsExact(s);
    Arrives(s, p, CompleteUpload);
    FindsSession(a, p, s.db, c);
    Checks(a, p, s.db.(lock := Some(p)), c);
    CommitsMulti(a, p, TakenOut(s.db.(lock := Some(p))), c, w);
    d := ClosedDb(SavedDb(AssembledDb(TakenOut(s.db.(lock := Some(p))), w), NewRow(c, w)), NewRow(c, w));
  }

  lemma CommitsMulti(s: St, p: Pid, d: Db, c: Session, w: World)
    requires Leads(s, p, d, Complete(Assemble(c))) && d.backend.Open? && Stamped(d, w)
    ensures Leads(s, p, ClosedDb(SavedDb(AssembledDb(d, w), NewRow(c, w)), NewRow(c, w)), Done)
  {
    Assembles(s, p, d, c, w);
    Saves(s, p, AssembledDb(d, w), c, w);
  }

  /** A single-part completion alone commits the object that the part upload put. */
  lemma CompletesSingleAlone(s: St, p: Pid, w: World) returns (d: Db)
    requires p !in s.procs && s.db.lock.None? && s.db.row.None?
    requires s.db.session.Some? && s.db.session.value.Complete() && !s.db.session.value.Multi()
    ensures Does(s, p, CompleteUpload, d) && CommittedFrom(s.db, d, s.db.session.value, w)
  {
    var c, a := s.db.session.value, Arrived(s, p, CompleteUpload);
    Arrives(s, p, CompleteUpload);
    FindsSession(a, p, s.db, c);
    Saves(a, p, s.db.(lock := Some(p)), c, w);
    d := ClosedDb(SavedDb(s.db.(lock := Some(p)), NewRow(c, w)), NewRow(c, w));
  }

  /** With a record that is not what the session names, a completion alone fails, and the entry is gone. */
  lemma MismatchFailsAlone(s: St, p: Pid) returns (d: Db)
    requires p !in s.procs && s.db.lock.None? && s.db.row.None?
    requires s.db.session.Some? && s.db.session.value.Complete() && s.db.session.value.Multi()
    requires s.db.mp.Some? && !Exactly(s.db.mp.value, Etags(s.db.session.value))
    ensures Leads(Arrived(s, p, CompleteUpload), p, d, Complete(Failed))
    ensures d.ram.None? && d.row.None? && d.feed == s.db.feed && d.session == s.db.session && d.mp == s.db.mp
    ensures d.bytes == s.db.bytes && d.backend == s.db.backend
  {
    var c, a := s.db.session.value, Arrived(s, p, CompleteUpload);
    Arrives(s, p, CompleteUpload);
    FindsSession(a, p, s.db, c);
    Checks(a, p, s.db.(lock := Some(p)), c);
    d := TakenOut(s.db.(lock := Some(p)));
  }

  /** A retry after the file row was written announces it if the session is there, and else changes nothing. */
  lemma RetriesAlone(s: St, p: Pid) returns (d: Db)
    requires p !in s.procs && s.db.lock.None? && s.db.row.Some?
    ensures Does(s, p, CompleteUpload, d) && d.lock.None? && d.session.None?
    ensures d.row == s.db.row && d.bytes == s.db.bytes && d.content == s.db.content && d.backend == s.db.backend
    ensures d.feed == s.db.feed + if s.db.session.Some? then [FileCreate(s.db.row.value)] else []
  {
    var a := Arrived(s, p, CompleteUpload);
    Arrives(s, p, CompleteUpload);
    var pc: Pc;
    d, pc := Goes(a, p, s.db, Complete(CoPc.Wait), NOW);
    d, pc := Goes(a, p, d, pc, NOW);                    // get_file
    d, pc := Goes(a, p, d, pc, NOW);                    // get_session
    if s.db.session.Some? {
      Announces(a, p, d, s.db.row.value, pc);
      d := ClosedDb(d, s.db.row.value);
    } else {
      d, pc := Goes(a, p, d, pc, NOW);
    }
  }

  // ---- upload_part and merge_part ----

  function Merged(d: Db, c: Session, i: nat, e: string): Db
    requires i < |c.etags|
  {
    d.(lock := None, session := Some(c.(etags := c.etags[i := Some(e)])), hist := d.hist.(crit := Idle))
  }

  lemma MergesRecord(s: St, p: Pid, d: Db, c: Session, parts: Parts, i: nat, e: string)
    requires Leads(s, p, d, Merge(i, e, MgPc.Wait)) && d.lock.None? && d.session == Some(c) && c.Multi()
    requires d.mp == Some(parts) && i < |c.etags|
    ensures Leads(s, p, d.(lock := Some(p)), Merge(i, e, MgPc.SaveRecord(c, parts)))
  {
    var d', pc := Goes(s, p, d, Merge(i, e, MgPc.Wait), NOW);
    d', pc := Goes(s, p, d', pc, NOW);                  // get_session
    d', pc := Goes(s, p, d', pc, NOW);                  // get_multipart
  }

  lemma MergesMulti(s: St, p: Pid, d: Db, c: Session, parts: Parts, i: nat, e: string)
    requires Leads(s, p, d, Merge(i, e, MgPc.Wait)) && d.lock.None? && d.session == Some(c) && c.Multi()
    requires d.mp == Some(parts) && i < |c.etags|
    ensures Leads(s, p, Merged(d.(mp := Some(parts[i := e])), c, i, e), Done)
  {
    MergesRecord(s, p, d, c, parts, i, e);
    var d', pc := Goes(s, p, d.(lock := Some(p)), Merge(i, e, MgPc.SaveRecord(c, parts)), NOW);
    d', pc := Goes(s, p, d', pc, NOW);                  // save_session
    assert d' == Merged(d.(mp := Some(parts[i := e])), c, i, e);
  }

  lemma MergesSingle(s: St, p: Pid, d: Db, c: Session, e: string)
    requires Leads(s, p, d, Merge(0, e, MgPc.Wait)) && d.lock.None? && d.session == Some(c) && !c.Multi()
    requires 0 < |c.etags|
    ensures Leads(s, p, Merged(d, c, 0, e), Done)
  {
    var d', pc := Goes(s, p, d, Merge(0, e, MgPc.Wait), NOW);
    d', pc := Goes(s, p, d', pc, NOW);                  // get_session
    d', pc := Goes(s, p, d', pc, NOW);                  // save_session
    assert d' == Merged(d, c, 0, e);
  }

  function Staged(d: Db, parts: Parts): Db {
    d.(ram := Some(parts), hist := d.hist.(ramTouched := true))
  }

  lemma Restores(s: St, p: Pid, d: Db, c: Session, parts: Parts, i: nat)
    requires Leads(s, p, d, Upload(UpPc.Start(i))) && d.session == Some(c) && c.Multi() && i < c.total
    requires d.mp == Some(parts)
    ensures Leads(s, p, Staged(d, parts), Upload(Lookup(i)))
  {
    var d', pc := Goes(s, p, d, Upload(UpPc.Start(i)), NOW);
    d', pc := Goes(s, p, d', pc, NOW);                  // get_multipart
    d', pc := Goes(s, p, d', pc, NOW);                  // restore_multipart
    assert d' == Staged(d, parts);
  }

  lemma Stages(s: St, p: Pid, d: Db, parts: Parts, i: nat, w: World)
    requires Leads(s, p, d, Upload(Lookup(i))) && d.ram == Some(parts) && d.backend.Open?
    ensures Leads(s, p, Staged(d, parts[i := w.etag]), Merge(i, w.etag, MgPc.Wait))
  {
    var d', pc := Goes(s, p, d, Upload(Lookup(i)), NOW);
    d', pc := Goes(s, p, d', pc, w);                    // upload the bytes
    d', pc := Goes(s, p, d', pc, NOW);                  // record the part
    assert d' == Staged(d, parts[i := w.etag]);
  }

  /** One part upload alone leaves its id in the entry, in the record and in its slot, and changes nothing else. */
  lemma UploadsAlone(s: St, p: Pid, c: Session, parts: Parts, i: nat, w: World) returns (d: Db)
    requires p !in s.procs && s.db.lock.None? && s.db.session == Some(c) && c.Multi()
    requires i < c.total == |c.etags| && s.db.mp == Some(parts) && s.db.backend.Open?
    ensures Does(s, p, UploadPart(i), d)
    ensures d == s.db.(ram := Some(parts[i := w.etag]), mp := Some(parts[i := w.etag]),
                       session := Some(c.(etags := c.etags[i := Some(w.etag)])),
                       hist := s.db.hist.(ramTouched := true, crit := Idle))
  {
    var a := Arrived(s, p, UploadPart(i));
    Arrives(s, p, UploadPart(i));
    Restores(a, p, s.db, c, parts, i);
    Stages(a, p, Staged(s.db, parts), parts, i, w);
    var staged := Staged(Staged(s.db, parts), parts[i := w.etag]);
    MergesMulti(a, p, staged, c, parts, i, w.etag);
    d := Merged(staged.(mp := Some(parts[i := w.etag])), c, i, w.etag);
  }

  /** The one part of a single-part upload: the object is put, and the slot filled. */
  lemma UploadsSingleAlone(s: St, p: Pid, c: Session, w: World) returns (d: Db)
    requires p !in s.procs && s.db.lock.None? && s.db.session == Some(c) && !c.Multi()
    requires |c.etags| == c.total && Stamped(s.db, w)
    ensures Does(s, p, UploadPart(0), d)
    ensures d == Merged(PutObject(s.db, w), c, 0, "put")
  {
    var a := Arrived(s, p, UploadPart(0));
    Arrives(s, p, UploadPart(0));
    var pc: Pc;
    d, pc := Goes(a, p, s.db, Upload(UpPc.Start(0)), NOW);
    d, pc := Goes(a, p, d, pc, w);                      // put_object
    MergesSingle(a, p, d, c, "put");
    d := Merged(d, c, 0, "put");
  }

  // ---- cancel_upload and the session pass ----

  /** The stores after an upload was given up: what was committed stays, and so does the feed. */
  ghost predicate GivenUp(d: Db, e: Db, c: Session) {
    && e.session.None? && e.lock.None? && e.row == d.row && e.feed == d.feed && e.clock == d.clock
    && (if c.Multi() then
          && e.mp.None?
          && (if d.mp.Some? then e.ram.None? && e.backend == if d.backend.Open? then Aborted else d.backend
              else e.ram == d.ram && e.backend == d.backend)
        else e.mp == d.mp && e.ram == d.ram && e.backend == d.backend)
  }

  function AbortedDb(d: Db): Db {
    d.(ram := None, backend := if d.backend.Open? then Aborted else d.backend, hist := d.hist.(crit := Idle))
  }

  lemma Restored(s: St, p: Pid, d: Db, why: By, c: Session)
    requires Leads(s, p, d, Close(why, ClPc.Load(c))) && d.mp.Some?
    ensures Leads(s, p, d.(ram := d.mp, hist := d.hist.(crit := Idle)), Close(why, ClPc.Take(c)))
  {
    var d', pc := Goes(s, p, d, Close(why, ClPc.Load(c)), NOW);
    d', pc := Goes(s, p, d', pc, NOW);                  // get_multipart
    d', pc := Goes(s, p, d', pc, NOW);                  // restore_multipart
    assert d' == d.(ram := d.mp, hist := d.hist.(crit := Idle));
  }

  lemma Aborts(s: St, p: Pid, d: Db, why: By, c: Session)
    requires Leads(s, p, d, Close(why, ClPc.Load(c))) && d.mp.Some? && c.Multi()
    ensures Leads(s, p, AbortedDb(d), Close(why, ClPc.DropSession(c)))
  {
    Restored(s, p, d, why, c);
    var d', pc := Goes(s, p, d.(ram := d.mp, hist := d.hist.(crit := Idle)), Close(why, ClPc.Take(c)), NOW);
    d', pc := Goes(s, p, d', pc, NOW);                  // abort_multipart
    assert d' == AbortedDb(d);
  }

  /** The end of a cancel or an expiry. */
  lemma Drops(s: St, p: Pid, d: Db, why: By, c: Session) returns (e: Db)
    requires Leads(s, p, d, Close(why, ClPc.DropSession(c))) && d.session == Some(c)
    ensures Leads(s, p, e, After(why))
    ensures e.session.None? && e.lock.None? && e.row == d.row && e.feed == d.feed && e.clock == d.clock
    ensures e.mp == (if c.Multi() then None else d.mp) && e.ram == d.ram && e.backend == d.backend
    ensures e.bytes == d.bytes && e.content == d.content
  {
    var pc: Pc;
    e, pc := Goes(s, p, d, Close(why, ClPc.DropSession(c)), NOW);
  }

  lemma ClosesMulti(s: St, p: Pid, d: Db, why: By, c: Session) returns (e: Db)
    requires Leads(s, p, d, Close(why, ClPc.Load(c))) && d.session == Some(c) && c.Multi()
    ensures Leads(s, p, e, After(why)) && GivenUp(d, e, c) && e.bytes == d.bytes && e.content == d.content
  {
    if d.mp.Some? {
      Aborts(s, p, d, why, c);
      e := Drops(s, p, AbortedDb(d), why, c);
    } else {
      var d', pc := Goes(s, p, d, Close(why, ClPc.Load(c)), NOW);
      e := Drops(s, p, d', why, c);
    }
  }

  /**
   * A cancel alone gives the upload up: session and record go, a multipart upload is aborted with
   * its entry, and the object, the file row and the feed stay.
   */
  lemma CancelsAlone(s: St, p: Pid) returns (d: Db)
    requires p !in s.procs && s.db.lock.None? && s.db.session.Some?
    ensures Does(s, p, CancelUpload, d) && GivenUp(s.db, d, s.db.session.value)
    ensures d.bytes == s.db.bytes && d.content == s.db.content
  {
    var c, a := s.db.session.value, Arrived(s, p, CancelUpload);
    Arrives(s, p, CancelUpload);
    var d', pc := Goes(a, p, s.db, Close(Cancel, ClPc.Wait), NOW);
    d', pc := Goes(a, p, d', pc, NOW);                  // get_session
    if c.Multi() {
      d := ClosesMulti(a, p, d', Cancel, c);
    } else {
      d := Drops(a, p, d', Cancel, c);
    }
  }

  ghost predicate AfterSessions(d: Db, e: Db, v: View) {
    var c := d.session;
    if v.listed && c.Some? && v.now - c.value.createdAt > TTL_SECS then
      GivenUp(d, e, c.value) && e.bytes == if c.value.Multi() then d.bytes else None
    else e == d
  }

  ghost predicate AfterFiles(d: Db, e: Db, v: View, w: World) {
    var gone := v.file.Some? && w.refs == 0 && v.now - UnusedSince(w, v.file.value) > TTL_SECS;
    e == (if gone then GoneDb(d) else d).(hist := e.hist)
  }

  ghost predicate AfterOrphans(d: Db, e: Db, v: View) {
    var due := !v.listed && v.file.None? && d.bytes.Some? && v.now - d.bytes.value > TTL_SECS;
    e == d.(bytes := if due then None else d.bytes)
  }

  /**
   * The session pass alone gives an upload up exactly when it was listed, is still there and has run
   * out at the start of the sweep; of a single part it deletes the object too. Any other it leaves.
   */
  lemma SessionPassAlone(s: St, p: Pid, v: View) returns (d: Db)
    requires p in s.procs && s.procs[p] == Sweep(SessionPass(v)) && s.db.lock.None? && s.db.hist.crit.Idle?
    ensures Leads(s, p, d, Sweep(SwPc.FilePass(v)))
    ensures AfterSessions(s.db, d, v)
  {
    Stays(s, p);
    var pc: Pc;
    d, pc := Goes(s, p, s.db, Sweep(SessionPass(v)), NOW);
    if v.listed {
      if s.db.session.Some? && s.db.session.value.Expired(v.now) {
        FindsExpired(s, p, s.db, v);
        d := Expires(s, p, s.db.(lock := Some(p)), v, s.db.session.value);
      } else {
        FindsNoneExpired(s, p, s.db, v);
      }
    }
  }

  lemma FindsExpired(s: St, p: Pid, d: Db, v: View)
    requires Leads(s, p, d, Close(Expire(v), ClPc.Wait)) && d.lock.None?
    requires d.session.Some? && d.session.value.Expired(v.now)
    ensures var c := d.session.value;
            Leads(s, p, d.(lock := Some(p)), Close(Expire(v), if c.Multi() then ClPc.Load(c) else ClPc.DeleteObject(c)))
  {
    var d', pc := Goes(s, p, d, Close(Expire(v), ClPc.Wait), NOW);
    d', pc := Goes(s, p, d', pc, NOW);                  // get_session
  }

  lemma FindsNoneExpired(s: St, p: Pid, d: Db, v: View)
    requires Leads(s, p, d, Close(Expire(v), ClPc.Wait)) && d.lock.None? && d.hist.crit.Idle?
    requires d.session.None? || !d.session.value.Expired(v.now)
    ensures Leads(s, p, d, Sweep(SwPc.FilePass(v)))
  {
    var d', pc := Goes(s, p, d, Close(Expire(v), ClPc.Wait), NOW);
    d', pc := Goes(s, p, d', pc, NOW);                  // get_session
    assert d' == d;
  }

  lemma Expires(s: St, p: Pid, d: Db, v: View, c: Session) returns (e: Db)
    requires d.session == Some(c)
    requires Leads(s, p, d, Close(Expire(v), if c.Multi() then ClPc.Load(c) else ClPc.DeleteObject(c)))
    ensures Leads(s, p, e, Sweep(SwPc.FilePass(v))) && GivenUp(d, e, c)
    ensures e.bytes == if c.Multi() then d.bytes else None
  {
    if c.Multi() {
      e := ClosesMulti(s, p, d, Expire(v), c);
    } else {
      var d', pc := Goes(s, p, d, Close(Expire(v), ClPc.DeleteObject(c)), NOW);
      e := Drops(s, p, d', Expire(v), c);
    }
  }

  // ---- the file pass and the orphan pass ----

  function GoneDb(d: Db): Db {
    d.(bytes := None, row := None, feed := d.feed + [FileDelete])
  }

  /** The file pass alone takes a listed file without rows: bytes, announce, row. Any other it leaves. */
  lemma FilePassAlone(s: St, p: Pid, v: View, w: World) returns (d: Db)
    requires p in s.procs && s.procs[p] == Sweep(SwPc.FilePass(v))
    ensures Leads(s, p, d, Sweep(SwPc.ListKeys(v)))
    ensures AfterFiles(s.db, d, v, w)
  {
    Stays(s, p);
    var pc: Pc;
    d, pc := Goes(s, p, s.db, Sweep(SwPc.FilePass(v)), w);
    if pc == Sweep(FileBytes(v)) {
      d, pc := Goes(s, p, d, pc, NOW);                  // delete_object
      d, pc := Goes(s, p, d, pc, NOW);                  // announce
      d, pc := Goes(s, p, d, pc, NOW);                  // delete_file
    }
  }

  /** The orphan pass alone deletes the object exactly when it is due. */
  lemma OrphanPassAlone(s: St, p: Pid, v: View) returns (d: Db)
    requires p in s.procs && s.procs[p] == Sweep(SwPc.ListKeys(v))
    ensures Leads(s, p, d, Done)
    ensures AfterOrphans(s.db, d, v)
  {
    Stays(s, p);
    var pc: Pc;
    d, pc := Goes(s, p, s.db, Sweep(SwPc.ListKeys(v)), NOW);
    d, pc := Goes(s, p, d, pc, NOW);
  }

  // ---- a whole sweep ----

  lemma LeadsTransitive(s: St, p: Pid, d: Db, pc: Pc, e: Db, pc': Pc)
    requires Leads(s, p, d, pc) && Leads(St(d, s.procs[p := pc]), p, e, pc')
    ensures Leads(s, p, e, pc')
  {
    var t := St(d, s.procs[p := pc]);
    var a: seq<Act> :| Run(s, a) == Some(t) && Only(a, p);
    var b: seq<Act> :| Run(t, b) == Some(St(e, t.procs[p := pc'])) && Only(b, p);
    RunConcat(s, a, b);
    assert t.procs[p := pc'] == s.procs[p := pc'];
  }

  /** The scans: the clock at the first step, whether there is a session, and the file row. */
  lemma ScansAlone(s: St, p: Pid) returns (v: View)
    requires p !in s.procs
    ensures Leads(Arrived(s, p, SweepOnce), p, s.db, Sweep(SessionPass(v)))
    ensures v == View(s.db.clock, s.db.session.Some?, s.db.row)
  {
    var a := Arrived(s, p, SweepOnce);
    Arrives(s, p, SweepOnce);
    v := View(s.db.clock, s.db.session.Some?, s.db.row);
    var d, pc := Goes(a, p, s.db, Sweep(SwPc.Start), NOW);
    d, pc := Goes(a, p, d, pc, NOW);                    // list_sessions
    d, pc := Goes(a, p, d, pc, NOW);                    // list_files
  }

  /** The three passes, one after the other. */
  lemma PassesAlone(s: St, p: Pid, v: View, w: World) returns (d1: Db, d2: Db, d3: Db)
    requires p in s.procs && s.procs[p] == Sweep(SessionPass(v)) && s.db.lock.None? && s.db.hist.crit.Idle?
    ensures Leads(s, p, d3, Done)
    ensures AfterSessions(s.db, d1, v) && AfterFiles(d1, d2, v, w) && AfterOrphans(d2, d3, v)
  {
    d1 := SessionPassAlone(s, p, v);
    var t1 := St(d1, s.procs[p := Sweep(SwPc.FilePass(v))]);
    d2 := FilePassAlone(t1, p, v, w);
    LeadsTransitive(s, p, d1, Sweep(SwPc.FilePass(v)), d2, Sweep(SwPc.ListKeys(v)));
    var t2 := St(d2, s.procs[p := Sweep(SwPc.ListKeys(v))]);
    d3 := OrphanPassAlone(t2, p, v);
    LeadsTransitive(s, p, d2, Sweep(SwPc.ListKeys(v)), d3, Done);
  }

  /** A session that the sweep gives up, a file that it takes, an object that nothing refers to. */
  predicate RanOut(d: Db) { d.session.Some? && d.clock - d.session.value.createdAt > TTL_SECS }

  predicate Unused(d: Db, w: World) { d.row.Some? && w.refs == 0 && d.clock - UnusedSince(w, d.row.value) > TTL_SECS }

  predicate Orphan(d: Db) { d.session.None? && d.row.None? && d.bytes.Some? && d.clock - d.bytes.value > TTL_SECS }

  /**
   * A whole sweep alone: it gives up a session that has run out, takes a file that is unused, and
   * deletes an object that nothing refers to, each more than the TTL after; nothing else.
   */
  lemma SweepsAlone(s: St, p: Pid, w: World) returns (d: Db)
    requires p !in s.procs && s.db.lock.None? && s.db.hist.crit.Idle?
    ensures Does(s, p, SweepOnce, d) && d.lock.None?
    ensures var b := s.db;
            && d.session == (if RanOut(b) then None else b.session)
            && d.row == (if Unused(b, w) then None else b.row)
            && d.feed == b.feed + (if Unused(b, w) then [FileDelete] else [])
            && d.bytes == (if (RanOut(b) && !b.session.value.Multi()) || Unused(b, w) || Orphan(b) then None
                           else b.bytes)
  {
    Arrives(s, p, SweepOnce);
    var a := Arrived(s, p, SweepOnce);
    var v := ScansAlone(s, p);
    var t := St(s.db, a.procs[p := Sweep(SessionPass(v))]);
    var d1, d2;
    d1, d2, d := PassesAlone(t, p, v, w);
    LeadsTransitive(a, p, s.db, Sweep(SessionPass(v)), d, Done);
  }

  // ---- delete_file ----

  /** A delete alone announces, and leaves neither row nor object. */
  lemma DeletesAlone(s: St, p: Pid) returns (d: Db)
    requires p !in s.procs && s.db.row.Some?
    ensures Does(s, p, DeleteFile, d) && d == GoneDb(s.db)
  {
    var a := Arrived(s, p, DeleteFile);
    Arrives(s, p, DeleteFile);
    var pc: Pc;
    d, pc := Goes(a, p, s.db, Delete(DePc.Start), NOW);
    d, pc := Goes(a, p, d, pc, NOW);                    // announce
    d, pc := Goes(a, p, d, pc, NOW);                    // delete_file
    d, pc := Goes(a, p, d, pc, NOW);                    // delete_object
  }
}
