// Concrete runs of the upload machine in which the hypotheses of the theorems fail, one step after
// the other: each hypothesis in `UploadTheorems` is needed.
module UploadRuns {
  import opened Wrappers
  import opened UploadModel
  import opened UploadTheorems

  const W := World(0, "e", "name", 0, None)
  const LATE := TTL_SECS + 1

  /** One step of process `p` while the processes of `rest` stand still. */
  lemma Step1(rest: map<Pid, Pc>, p: Pid, d: Db, pc: Pc) returns (d': Db, pc': Pc)
    requires p !in rest && Reachable(St(d, rest[p := pc])) && Step(d, p, pc, W).Taken()
    ensures Reachable(St(d', rest[p := pc']))
    ensures d' == Step(d, p, pc, W).Db(d) && pc' == Step(d, p, pc, W).pc
  {
    var s := St(d, rest[p := pc]);
    StepReaches(s, Go(p, W));
    d', pc' := Step(d, p, pc, W).Db(d), Step(d, p, pc, W).pc;
    assert s.procs[p := pc'] == rest[p := pc'];
  }

  lemma Enter(rest: map<Pid, Pc>, p: Pid, d: Db, r: Request)
    requires p !in rest && Reachable(St(d, rest))
    ensures Reachable(St(d, rest[p := Entry(r)]))
  {
    StepReaches(St(d, rest), Arrive(p, r));
  }

  lemma Exit(rest: map<Pid, Pc>, p: Pid, d: Db, pc: Pc)
    requires p !in rest && Reachable(St(d, rest[p := pc]))
    ensures Reachable(St(Leave(d, pc), rest))
  {
    var s := St(d, rest[p := pc]);
    StepReaches(s, End(p));
    assert s.procs - {p} == rest;
  }

  lemma WaitBeside(rest: map<Pid, Pc>, d: Db, to: int)
    requires Reachable(St(d, rest)) && d.clock <= to
    ensures Reachable(St(d.(clock := to), rest))
  {
    StepReaches(St(d, rest), Tick(to));
  }

  lemma Wait(d: Db, to: int)
    requires Reachable(St(d, map[])) && d.clock <= to
    ensures Reachable(St(d.(clock := to), map[]))
  {
    WaitBeside(map[], d, to);
  }

  lemma Started(total: nat) returns (d: Db)
    requires total >= 1
    ensures d == Begin(START.db, 0, total, total)
    ensures Reachable(St(d, map[0 := Init(InitPc.SaveSession)]))
  {
    assert Run(START, []) == Some(START);
    StepReaches(START, InitUpload(0, total, total));
    d := Begin(START.db, 0, total, total);
  }

  const OPENED := Session(1, 1, 0, [None])
  const MERGED := Session(1, 1, 0, [Some("put")])
  const HIST :=
    Hist(Over, 1, 1, Some(0), false, false, NoRace, false, Idle, false, false, false, false, false, false, 0, 1)

  /** A single-part upload whose one part is stored and merged. */
  const UPLOADED := Db(0, None, Some(MERGED), None, None, Absent, Some(0), 1, None, [], HIST)

  const FRESH := UPLOADED.(session := Some(OPENED), bytes := None, content := 0, hist := HIST.(writes := 0))

  lemma FreshIsReachable()
    ensures Reachable(St(FRESH, map[]))
  {
    var d := Started(1);
    var pc: Pc;
    d, pc := Step1(map[], 0, d, Init(InitPc.SaveSession));
    assert d.session.value.etags == OPENED.etags;
    Exit(map[], 0, d, pc);
    assert Leave(d, pc) == FRESH;
  }

  lemma StoredIsReachable()
    ensures Reachable(St(UPLOADED.(session := Some(OPENED)), map[0 := Merge(0, "put", MgPc.Wait)]))
  {
    FreshIsReachable();
    var d, pc := FRESH, Entry(UploadPart(0));
    Enter(map[], 0, d, UploadPart(0));
    d, pc := Step1(map[], 0, d, pc);                    // read the session
    d, pc := Step1(map[], 0, d, pc);                    // put_object
    assert d == UPLOADED.(session := Some(OPENED));
  }

  lemma UploadedIsReachable()
    ensures Reachable(St(UPLOADED, map[]))
  {
    StoredIsReachable();
    var d, pc := UPLOADED.(session := Some(OPENED)), Merge(0, "put", MgPc.Wait);
    d, pc := Step1(map[], 0, d, pc);                    // take the lock
    d, pc := Step1(map[], 0, d, pc);                    // read the session again
    assert pc == Merge(0, "put", MgPc.SaveSession(OPENED, false));
    d, pc := Step1(map[], 0, d, pc);                    // save_session
    assert OPENED.etags[0 := Some("put")] == MERGED.etags;
    Exit(map[], 0, d, pc);
    assert Leave(d, pc) == UPLOADED;
  }

  const REC := Row("name", 1, 0)

  /** A completion of an uploaded single part that holds the lock and has read both rows. */
  lemma CommitReads(rest: map<Pid, Pc>, d0: Db)
    requires 0 !in rest && Reachable(St(d0, rest)) && d0.lock.None? && d0.row.None? && d0.session == Some(MERGED)
    ensures Reachable(St(d0.(lock := Some(0)), rest[0 := Complete(SaveFile(MERGED))]))
  {
    Enter(rest, 0, d0, CompleteUpload);
    var d, pc := Step1(rest, 0, d0, Entry(CompleteUpload)); // take the lock
    d, pc := Step1(rest, 0, d, pc);                     // get_file
    d, pc := Step1(rest, 0, d, pc);                     // get_session
  }

  /** ... and up to its announce, beside processes that stand still. */
  lemma CommitBeside(rest: map<Pid, Pc>, d0: Db) returns (d: Db)
    requires 0 !in rest && Reachable(St(d0, rest)) && d0.lock.None? && d0.row.None? && d0.session == Some(MERGED)
    ensures d == d0.(lock := Some(0), row := Some(REC),
                     hist := d0.hist.(committed := true, crit := Committing))
    ensures Reachable(St(d, rest[0 := Complete(CoPc.Announce(REC))]))
  {
    CommitReads(rest, d0);
    var pc: Pc;
    d, pc := Step1(rest, 0, d0.(lock := Some(0)), Complete(SaveFile(MERGED))); // save_file
  }

  lemma Commit(d0: Db) returns (d: Db)
    requires Reachable(St(d0, map[])) && d0.lock.None? && d0.row.None? && d0.session == Some(MERGED)
    ensures d == d0.(lock := Some(0), row := Some(REC),
                     hist := d0.hist.(committed := true, crit := Committing))
    ensures Reachable(St(d, map[0 := Complete(CoPc.Announce(REC))]))
  {
    d := CommitBeside(map[], d0);
  }

  /** ... and whose completion failed to announce: the file row and the session are both there. */
  const UNANNOUNCED := UPLOADED.(row := Some(REC), hist := HIST.(committed := true, cutCommit := true))

  lemma UnannouncedIsReachable()
    ensures Reachable(St(UNANNOUNCED, map[]))
  {
    UploadedIsReachable();
    var d := Commit(UPLOADED);
    Exit(map[], 0, d, Complete(CoPc.Announce(REC)));
  }

  /** The scans of a sweep that starts at `now`. */
  lemma Scan(d: Db)
    requires Reachable(St(d, map[]))
    ensures Reachable(St(d, map[0 := Sweep(SessionPass(View(d.clock, d.session.Some?, d.row)))]))
  {
    Enter(map[], 0, d, SweepOnce);
    var d', pc := Step1(map[], 0, d, Entry(SweepOnce));
    d', pc := Step1(map[], 0, d', pc);
    d', pc := Step1(map[], 0, d', pc);
  }

  /** A sweep more than a TTL later, up to the point where it holds the lock of the session. */
  lemma ExpiryLocks(d0: Db) returns (d: Db)
    requires Reachable(St(d0, map[])) && d0.lock.None? && d0.session == Some(MERGED) && d0.clock == 0
    ensures Reachable(St(d, map[0 := Close(Expire(View(LATE, true, d0.row)), ClPc.Read)]))
    ensures d == d0.(clock := LATE, lock := Some(0))
  {
    Wait(d0, LATE);
    d := d0.(clock := LATE);
    Scan(d);
    var pc: Pc;
    d, pc := Step1(map[], 0, d, Sweep(SessionPass(View(LATE, true, d0.row))));
    d, pc := Step1(map[], 0, d, pc);                    // take the lock
  }

  /** ... and has deleted the object of the session. */
  lemma ExpiryDeletesObject(d0: Db) returns (d: Db, pc: Pc)
    requires Reachable(St(d0, map[])) && d0.lock.None? && d0.session == Some(MERGED) && d0.clock == 0
    ensures Reachable(St(d, map[0 := pc])) && pc == Close(Expire(View(LATE, true, d0.row)), ClPc.DropSession(MERGED))
    ensures d == d0.(clock := LATE, lock := Some(0), bytes := None, hist := d0.hist.(crit := Expiring))
  {
    d := ExpiryLocks(d0);
    d, pc := Step1(map[], 0, d, Close(Expire(View(LATE, true, d0.row)), ClPc.Read)); // get_session: expired
    assert pc == Close(Expire(View(LATE, true, d0.row)), ClPc.DeleteObject(MERGED));
    d, pc := Step1(map[], 0, d, pc);                    // delete_object
  }

  /**
   * The session pass does not look for a committed file row: after a failed announce, the session
   * that was kept for the retry expires and takes the bytes of the committed file with it.
   */
  lemma ExpiryTakesCommittedBytes() returns (s: St)
    ensures Reachable(s) && s.db.row.Some? && s.db.bytes.None?
    ensures s.db.hist.cutCommit && !s.db.hist.cutExpiry && !s.db.hist.filePassed
  {
    UnannouncedIsReachable();
    var d, pc := ExpiryDeletesObject(UNANNOUNCED);
    s := St(d, map[0 := pc]);
  }

  /**
   * An expiry that ends between the object delete and the row delete leaves a session that a later
   * completion commits: it returns success and announces a file that has no bytes.
   */
  lemma CutExpiryCommitsNothing() returns (s: St)
    ensures Reachable(s) && s.procs == map[0 := Complete(Returned)]
    ensures s.db.row.Some? && s.db.bytes.None? && s.db.session.None? && FileCreate(s.db.row.value) in s.db.feed
    ensures s.db.hist.cutExpiry && !s.db.hist.cutCommit && !s.db.hist.filePassed
  {
    UploadedIsReachable();
    var d, pc := ExpiryDeletesObject(UPLOADED);
    Exit(map[], 0, d, pc);
    d := Commit(Leave(d, pc));
    d, pc := Step1(map[], 0, d, Complete(CoPc.Announce(REC)));
    d, pc := Step1(map[], 0, d, pc);                    // delete_session
    s := St(d, map[0 := pc]);
  }

  /** A cancel after a failed announce removes the retry handle: the file stays and is never announced. */
  lemma CancelLosesAnnounce() returns (s: St)
    ensures Reachable(s) && s.db.row.Some? && s.db.session.None? && s.db.feed == [] && s.db.hist.lostHandle
  {
    UnannouncedIsReachable();
    Enter(map[], 0, UNANNOUNCED, CancelUpload);
    var d, pc := Step1(map[], 0, UNANNOUNCED, Entry(CancelUpload));
    d, pc := Step1(map[], 0, d, pc);
    assert pc == Close(Cancel, ClPc.DropSession(MERGED));
    d, pc := Step1(map[], 0, d, pc);
    s := St(d, map[0 := pc]);
  }

  /** A completion that went through. */
  lemma CompletedIsReachable() returns (d: Db)
    ensures Reachable(St(d, map[])) && d.row == Some(REC) && d.session.None? && d.clock == 0
    ensures !d.hist.filePassed && !d.hist.cutCommit && !d.hist.cutExpiry
  {
    UploadedIsReachable();
    d := Commit(UPLOADED);
    var pc: Pc;
    d, pc := Step1(map[], 0, d, Complete(CoPc.Announce(REC)));
    d, pc := Step1(map[], 0, d, pc);                    // delete_session
    d, pc := Step1(map[], 0, d, pc);                    // return
    Exit(map[], 0, d, pc);
  }

  /** The file pass deletes the bytes before the row: in between, the row has no bytes. */
  lemma FilePassLeavesRow() returns (s: St)
    ensures Reachable(s) && s.db.row.Some? && s.db.bytes.None?
    ensures s.db.hist.filePassed && !s.db.hist.cutCommit && !s.db.hist.cutExpiry
  {
    var d := CompletedIsReachable();
    var pc: Pc;
    Wait(d, LATE);
    d := d.(clock := LATE);
    Scan(d);
    d, pc := Step1(map[], 0, d, Sweep(SessionPass(View(LATE, false, Some(REC)))));
    assert pc == Sweep(SwPc.FilePass(View(LATE, false, Some(REC))));
    d, pc := Step1(map[], 0, d, pc);                    // get_ref_info
    d, pc := Step1(map[], 0, d, pc);                    // delete_object
    s := St(d, map[0 := pc]);
  }

  /** A delete of the row that a failed announce left, up to its end. */
  lemma DeleteUnannounced() returns (d: Db)
    ensures Reachable(St(d, map[])) && d.session == Some(MERGED) && d.row.None? && d.bytes.None?
    ensures d.lock.None? && d.feed == [FileDelete] && d.clock == 0 && !d.hist.filePassed && !d.hist.cutExpiry
  {
    UnannouncedIsReachable();
    var pc: Pc;
    d := UNANNOUNCED;
    Enter(map[], 0, d, DeleteFile);
    d, pc := Step1(map[], 0, d, Entry(DeleteFile));     // get_file
    d, pc := Step1(map[], 0, d, pc);                    // announce
    d, pc := Step1(map[], 0, d, pc);                    // delete_file
    d, pc := Step1(map[], 0, d, pc);                    // delete_object
    Exit(map[], 0, d, pc);
  }

  /**
   * After a failed announce, a delete and then the retry: the retry finds the session that was kept,
   * returns success and announces a file without bytes. No clock moved, and nothing expired.
   */
  lemma DeleteThenRetryCommitsNothing() returns (s: St)
    ensures Reachable(s) && s.procs == map[0 := Complete(Returned)] && s.db.clock == 0
    ensures s.db.row.Some? && s.db.bytes.None? && s.db.session.None?
    ensures s.db.feed == [FileDelete, FileCreate(s.db.row.value)]
    ensures !s.db.hist.filePassed && !s.db.hist.cutExpiry
  {
    var d := DeleteUnannounced();
    d := Commit(d);
    var pc: Pc;
    d, pc := Step1(map[], 0, d, Complete(CoPc.Announce(REC)));
    d, pc := Step1(map[], 0, d, pc);                    // delete_session
    s := St(d, map[0 := pc]);
  }

  const ANNOUNCING := map[0 := Complete(CoPc.Announce(REC))]
  const COMMITTED := UPLOADED.(lock := Some(0), row := Some(REC),
                               hist := HIST.(committed := true, crit := Committing))

  /** A delete that ran between the file row and the announce of a completion; it takes no lock. */
  lemma DeletedMeanwhile()
    ensures Reachable(St(COMMITTED.(row := None, bytes := None, feed := [FileDelete]), ANNOUNCING))
  {
    UploadedIsReachable();
    var d := Commit(UPLOADED);
    assert d == COMMITTED;
    Enter(ANNOUNCING, 1, COMMITTED, DeleteFile);
    DeleteRuns();
  }

  lemma DeleteRuns()
    requires Reachable(St(COMMITTED, ANNOUNCING[1 := Entry(DeleteFile)]))
    ensures Reachable(St(COMMITTED.(row := None, bytes := None, feed := [FileDelete]), ANNOUNCING))
  {
    var d, pc := COMMITTED, Entry(DeleteFile);
    d, pc := Step1(ANNOUNCING, 1, d, pc);               // get_file
    d, pc := Step1(ANNOUNCING, 1, d, pc);               // announce
    d, pc := Step1(ANNOUNCING, 1, d, pc);               // delete_file
    d, pc := Step1(ANNOUNCING, 1, d, pc);               // delete_object
    Exit(ANNOUNCING, 1, d, pc);
    assert Leave(d, pc) == COMMITTED.(row := None, bytes := None, feed := [FileDelete]);
  }

  /** The feed then ends with FileCreate although the row is gone, and nothing was cut short. */
  lemma DeleteOvertakesAnnounce() returns (s: St)
    ensures Reachable(s) && s.db.row.None? && s.db.session.None? && s.db.feed == [FileDelete, FileCreate(REC)]
    ensures !s.db.hist.cutCommit && !s.db.hist.cutExpiry && !s.db.hist.filePassed
  {
    DeletedMeanwhile();
    var d, pc := COMMITTED.(row := None, bytes := None, feed := [FileDelete]), Complete(CoPc.Announce(REC));
    assert ANNOUNCING == map[][0 := Complete(CoPc.Announce(REC))];
    d, pc := Step1(map[], 0, d, pc);                    // announce
    d, pc := Step1(map[], 0, d, pc);                    // delete_session
    s := St(d, map[0 := pc]);
  }

  const PUTTING := map[1 := Upload(UpPc.Put)]

  /** A second upload of the part read the session and has not put its body yet. */
  lemma PutIsPending()
    ensures Reachable(St(UPLOADED, PUTTING))
  {
    UploadedIsReachable();
    Enter(map[], 1, UPLOADED, UploadPart(0));
    var d, pc := Step1(map[], 1, UPLOADED, Entry(UploadPart(0)));
    assert map[][1 := pc] == PUTTING;
  }

  /** A part upload that read the session before the commit replaces the content of the committed file. */
  lemma LatePutReplacesContent() returns (s: St, t: St)
    ensures Reachable(s) && s.db.row.Some? && s.db.bytes.Some? && Next(s, Go(1, W)) == Some(t)
    ensures t.db.row == s.db.row && t.db.content != s.db.content
    ensures !t.db.hist.cutCommit && !t.db.hist.cutExpiry && !t.db.hist.filePassed
  {
    PutIsPending();
    var d := CommitBeside(PUTTING, UPLOADED);
    assert PUTTING[0 := Complete(CoPc.Announce(REC))] == ANNOUNCING[1 := Upload(UpPc.Put)];
    s := St(d, ANNOUNCING[1 := Upload(UpPc.Put)]);
    t := Next(s, Go(1, W)).value;
  }

  const STALLED := map[0 := Init(InitPc.SaveRecord)]

  /** A two-part init that wrote the session row and not yet the record. */
  const BETWEEN := Begin(START.db, 0, 2, 2).(
    session := Some(Session(2, 2, 0, [None, None])),
    hist := Begin(START.db, 0, 2, 2).hist.(init := Between(0), bornAt := Some(0)))

  lemma InitBetween()
    ensures Reachable(St(BETWEEN, STALLED))
  {
    var d := Started(2);
    var pc: Pc;
    d, pc := Step1(map[], 0, d, Init(InitPc.SaveSession));
    assert d.session.value.etags == [None, None];
    assert map[][0 := pc] == STALLED;
  }

  /** A record that no session names, once a stalled init goes on. */
  lemma InitGoesOn(d: Db) returns (s: St)
    requires Reachable(St(d, STALLED)) && d.session.None? && d.ram.Some?
    ensures Reachable(s) && s.db.mp.Some? && s.db.session.None? && s.db.hist.raced == d.hist.raced
  {
    assert STALLED == map[][0 := Init(InitPc.SaveRecord)];
    var d', pc := Step1(map[], 0, d, Init(InitPc.SaveRecord));
    s := St(d', map[0 := pc]);
  }

  /** A cancel that reads no record aborts nothing, and deletes the session row. */
  lemma CancelBetween() returns (d: Db)
    ensures Reachable(St(d, STALLED)) && d.session.None? && d.ram.Some? && d.hist.raced.ByCancel?
  {
    InitBetween();
    var pc := Entry(CancelUpload);
    d := BETWEEN;
    Enter(STALLED, 1, d, CancelUpload);
    d, pc := Step1(STALLED, 1, d, pc);                  // take the lock
    d, pc := Step1(STALLED, 1, d, pc);                  // get_session
    assert pc == Close(Cancel, ClPc.Load(BETWEEN.session.value));
    d := DropBetween(d, Cancel);
  }

  /** The end of a cancel or an expiry that found no record: the session row goes. */
  lemma DropBetween(d0: Db, why: By) returns (d: Db)
    requires d0 == BETWEEN.(clock := d0.clock, lock := Some(1))
    requires Reachable(St(d0, STALLED[1 := Close(why, ClPc.Load(BETWEEN.session.value))]))
    ensures Reachable(St(d, STALLED)) && d.session.None? && d.ram.Some?
    ensures if why.Cancel? then d.hist.raced.ByCancel? else d.hist.raced.ByExpiry?
  {
    var pc: Pc;
    d, pc := Step1(STALLED, 1, d0, Close(why, ClPc.Load(BETWEEN.session.value))); // get_multipart
    assert pc == Close(why, ClPc.DropSession(BETWEEN.session.value));
    d, pc := Step1(STALLED, 1, d, pc);                  // delete_session
    Exit(STALLED, 1, d, pc);
    d := Leave(d, pc);
  }

  /** A cancel that lands between the two writes of init leaves a record that no session names. */
  lemma CancelRacesInit() returns (s: St)
    ensures Reachable(s) && s.db.mp.Some? && s.db.session.None? && s.db.hist.raced.ByCancel?
  {
    var d := CancelBetween();
    s := InitGoesOn(d);
  }

  /** The scans of a sweep that starts while an init is stalled for longer than the TTL. */
  lemma ScanBetween()
    ensures Reachable(St(BETWEEN.(clock := LATE), STALLED[1 := Sweep(SessionPass(View(LATE, true, None)))]))
  {
    InitBetween();
    WaitBeside(STALLED, BETWEEN, LATE);
    var d, pc := BETWEEN.(clock := LATE), Entry(SweepOnce);
    Enter(STALLED, 1, d, SweepOnce);
    d, pc := Step1(STALLED, 1, d, pc);                  // starts
    d, pc := Step1(STALLED, 1, d, pc);                  // list_sessions
    d, pc := Step1(STALLED, 1, d, pc);                  // list_files
  }

  /** So does an expiry, when init stalls there for longer than the TTL. */
  lemma ExpiryRacesInit() returns (s: St)
    ensures Reachable(s) && s.db.mp.Some? && s.db.session.None? && s.db.hist.raced.ByExpiry?
  {
    ScanBetween();
    var d, pc := BETWEEN.(clock := LATE), Sweep(SessionPass(View(LATE, true, None)));
    d, pc := Step1(STALLED, 1, d, pc);                  // the session is listed
    d, pc := Step1(STALLED, 1, d, pc);                  // take the lock
    d, pc := Step1(STALLED, 1, d, pc);                  // get_session: expired
    assert pc == Close(Expire(View(LATE, true, None)), ClPc.Load(BETWEEN.session.value));
    d := DropBetween(d, Expire(View(LATE, true, None)));
    s := InitGoesOn(d);
  }
}
