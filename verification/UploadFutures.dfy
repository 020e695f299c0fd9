// What can still happen to a committed file: for each promise that can fail, the states from which
// no further run breaks it, exactly (src/fs/mod.rs, src/fs/gc.rs).
module UploadFutures {
  import opened Wrappers
  import opened UploadModel
  import opened UploadInvariant
  import opened UploadTheorems

  /** A run in which the file pass deletes nothing. */
  ghost predicate NoFilePass(s: St, acts: seq<Act>)
    decreases |acts|
  {
    acts == [] ||
    var before := acts[..|acts| - 1];
    NoFilePass(s, before) &&
    match Run(s, before)
    case None => true
    case Some(mid) => !FilePassDeletes(mid, acts[|acts| - 1])
  }

  // ---- building a run from any state ----

  ghost predicate Leads(s: St, t: St) {
    exists acts: seq<Act> :: Run(s, acts) == Some(t) && NoFilePass(s, acts)
  }

  lemma LeadsNowhere(s: St)
    ensures Leads(s, s)
  {
    assert Run(s, []) == Some(s);
    assert NoFilePass(s, []);
  }

  lemma LeadsOn(s: St, t: St, a: Act)
    requires Leads(s, t) && Next(t, a).Some? && !FilePassDeletes(t, a)
    ensures Leads(s, Next(t, a).value)
  {
    var acts: seq<Act> :| Run(s, acts) == Some(t) && NoFilePass(s, acts);
    var all := acts + [a];
    assert all[..|all| - 1] == acts && all[|all| - 1] == a;
    assert NoFilePass(s, all) && Run(s, all) == Next(t, a);
  }

  /** One step of process `p` while the processes of `rest` stand still. */
  lemma LeadsGo(s: St, rest: map<Pid, Pc>, p: Pid, d: Db, pc: Pc, w: World) returns (d': Db, pc': Pc)
    requires p !in rest && Leads(s, St(d, rest[p := pc])) && Step(d, p, pc, w).Taken()
    requires Step(d, p, pc, w).pc.Sweep? ==> !Step(d, p, pc, w).pc.sw.FileAnnounce?
    ensures Leads(s, St(d', rest[p := pc']))
    ensures d' == Step(d, p, pc, w).Db(d) && pc' == Step(d, p, pc, w).pc
  {
    var t := St(d, rest[p := pc]);
    d', pc' := Step(d, p, pc, w).Db(d), Step(d, p, pc, w).pc;
    assert t.procs[p := pc'] == rest[p := pc'];
    LeadsOn(s, t, Go(p, w));
  }

  lemma LeadsArrive(s: St, rest: map<Pid, Pc>, p: Pid, d: Db, r: Request)
    requires p !in rest && Leads(s, St(d, rest))
    ensures Leads(s, St(d, rest[p := Entry(r)]))
  {
    LeadsOn(s, St(d, rest), Arrive(p, r));
  }

  /** The stores after a crash of the server. */
  function AfterCrash(d: Db): Db {
    var h := CutHist(d.hist);
    d.(lock := None, ram := None, hist := if h.init.Fresh? then h else h.(init := Over))
  }

  lemma LeadsCrash(s: St)
    ensures Leads(s, St(AfterCrash(s.db), map[]))
  {
    LeadsNowhere(s);
    LeadsOn(s, s, Crash);
  }

  const NOW := World(0, "", "", 0, None)

  // ---- the last entry of the feed ----

  ghost predicate LastEntryStaysRight(s: St) {
    forall acts: seq<Act> :: Run(s, acts).Some? ==>
      var d := Run(s, acts).value.db; d.row.None? ==> EndsInDelete(d.feed)
  }

  /** A retry that read the row and the session, in a server that does nothing else. */
  lemma RetryReachesAgain(s: St)
    requires s.db.row.Some? && s.db.session.Some?
    ensures Leads(s, St(AfterCrash(s.db).(lock := Some(0)), map[0 := Complete(Again(s.db.row.value))]))
  {
    var d, pc := AfterCrash(s.db), Entry(CompleteUpload);
    LeadsCrash(s);
    LeadsArrive(s, map[], 0, d, CompleteUpload);
    d, pc := LeadsGo(s, map[], 0, d, pc, NOW);   // take the lock
    d, pc := LeadsGo(s, map[], 0, d, pc, NOW);   // get_file
    d, pc := LeadsGo(s, map[], 0, d, pc, NOW);   // get_session
    assert d == AfterCrash(s.db).(lock := Some(0));
    assert map[][0 := pc] == map[0 := Complete(Again(s.db.row.value))];
  }

  /** A delete beside a process that stands still, up to its row drop. */
  lemma DeleteDrops(s: St, d0: Db, other: Pc)
    requires Leads(s, St(d0, map[0 := other])) && d0.row.Some?
    ensures Leads(s, St(d0.(row := None, feed := d0.feed + [FileDelete]),
                        map[0 := other][1 := Delete(DePc.DeleteObject)]))
  {
    var rest := map[0 := other];
    var d, pc := d0, Entry(DeleteFile);
    LeadsArrive(s, rest, 1, d, DeleteFile);
    d, pc := LeadsGo(s, rest, 1, d, pc, NOW);    // get_file
    d, pc := LeadsGo(s, rest, 1, d, pc, NOW);    // announce
    d, pc := LeadsGo(s, rest, 1, d, pc, NOW);    // delete_file
  }

  lemma SessionBreaksLastEntry(s: St)
    requires s.db.row.Some? && s.db.session.Some?
    ensures !LastEntryStaysRight(s)
  {
    var rec := s.db.row.value;
    var d0 := AfterCrash(s.db).(lock := Some(0));
    RetryReachesAgain(s);
    DeleteDrops(s, d0, Complete(Again(rec)));
    var rest := map[1 := Delete(DePc.DeleteObject)];
    assert map[0 := Complete(Again(rec))][1 := Delete(DePc.DeleteObject)] == rest[0 := Complete(Again(rec))];
    var d, pc := LeadsGo(s, rest, 0, d0.(row := None, feed := d0.feed + [FileDelete]), Complete(Again(rec)), NOW);
    var acts: seq<Act> :| Run(s, acts) == Some(St(d, rest[0 := pc])) && NoFilePass(s, acts);
    assert d.row.None? && d.feed[|d.feed| - 1] == FileCreate(rec);
  }

  lemma DroppingBreaksLastEntry(s: St, p: Pid)
    requires p in s.procs && Dropping(s.procs[p]) && !EndsInDelete(s.db.feed)
    ensures !LastEntryStaysRight(s)
  {
    var t := Next(s, Go(p, NOW)).value;
    assert t.db.row.None? && t.db.feed == s.db.feed;
    assert Run(s, []) == Some(s) && [Go(p, NOW)][..0] == [];
    assert Run(s, [Go(p, NOW)]) == Some(t);
  }

  /**
   * No further run leaves a feed that ends with FileCreate for a file that is gone, exactly when the
   * session row is gone, and either the last entry is a delete already or no announced delete still
   * has to drop the row.
   */
  lemma LastEntryIff(s: St)
    requires Reachable(s) && s.db.row.Some?
    ensures LastEntryStaysRight(s) <==> s.db.session.None? && (EndsInDelete(s.db.feed) || NoneDropping(s.procs))
  {
    if s.db.session.Some? {
      SessionBreaksLastEntry(s);
    } else if EndsInDelete(s.db.feed) || NoneDropping(s.procs) {
      forall acts: seq<Act> | Run(s, acts).Some?
        ensures var d := Run(s, acts).value.db; d.row.None? ==> EndsInDelete(d.feed)
      {
        LastEntryAgrees(s, acts);
      }
    } else {
      var p :| p in s.procs && Dropping(s.procs[p]);
      DroppingBreaksLastEntry(s, p);
    }
  }

  // ---- which step may touch what ----

  predicate WritesObject(pc: Pc) {
    pc == Upload(Put) || (pc.Complete? && pc.co.Assemble?)
  }

  predicate DeletesObject(d: Db, pc: Pc) {
    || pc == Delete(DePc.DeleteObject)
    || (pc.Close? && pc.cl.DeleteObject?)
    || (pc.Sweep? && (pc.sw.FileBytes? || (pc.sw.OrphanPass? && OrphanDue(pc.sw.v, pc.sw.modified))))
  }

  predicate WritesRow(pc: Pc) { pc.Complete? && pc.co.SaveFile? }

  predicate ClosesSession(pc: Pc) { pc.Close? && pc.cl.DropSession? }

  /** What a step changes that the promises below speak of, by the point it starts from. */
  ghost predicate Touches(d: Db, pc: Pc, r: Out) {
    r.Taken() ==>
      var e := r.Db(d);
      && e.hist.total == d.hist.total && (e.hist.init.Fresh? ==> d.hist.init.Fresh?)
      && (e.hist.lostHandle == d.hist.lostHandle || ClosesSession(pc))
      && (e.content == d.content || WritesObject(pc))
      && (e.row.Some? && d.row.None? ==> WritesRow(pc))
      && (d.bytes.Some? && e.bytes.None? ==> DeletesObject(d, pc))
      && (r.pc == Upload(Put) ==> d.session.Some? && d.session.value.total == 1)
      && (r.pc == Delete(DePc.DeleteObject) ==> e.row.None?)
  }

  lemma InitTouches(d: Db, p: Pid, pc: InitPc, w: World)
    ensures Touches(d, Init(pc), StepInit(d, p, pc, w))
  {
  }

  lemma UploadTouches(d: Db, pc: UpPc, w: World)
    ensures Touches(d, Upload(pc), StepUpload(d, pc, w))
  {
  }

  lemma MergeTouches(d: Db, p: Pid, i: nat, e: string, pc: MgPc)
    ensures Touches(d, Merge(i, e, pc), StepMerge(d, p, i, e, pc))
  {
  }

  lemma CompleteTouches(d: Db, p: Pid, pc: CoPc, w: World)
    ensures Touches(d, Complete(pc), StepComplete(d, p, pc, w))
  {
  }

  lemma CloseTouches(d: Db, p: Pid, why: By, pc: ClPc)
    ensures Touches(d, Close(why, pc), StepClose(d, p, why, pc))
  {
  }

  lemma SweepTouches(d: Db, pc: SwPc, w: World)
    ensures Touches(d, Sweep(pc), StepSweep(d, pc, w))
  {
  }

  lemma DeleteTouches(d: Db, pc: DePc)
    ensures Touches(d, Delete(pc), StepDelete(d, pc))
  {
  }

  lemma StepTouches(d: Db, p: Pid, pc: Pc, w: World)
    ensures Touches(d, pc, Step(d, p, pc, w))
  {
    match pc
    case Init(c) => InitTouches(d, p, c, w);
    case Upload(c) => UploadTouches(d, c, w);
    case Merge(i, e, c) => MergeTouches(d, p, i, e, c);
    case Complete(c) => CompleteTouches(d, p, c, w);
    case Close(why, c) => CloseTouches(d, p, why, c);
    case Sweep(c) => SweepTouches(d, c, w);
    case Delete(c) => DeleteTouches(d, c);
    case Done =>
  }

  /** Whatever is not a step of a process leaves the rows, the object and these notes alone. */
  ghost predicate Rests(d: Db, e: Db) {
    && e.session == d.session && e.row == d.row && e.bytes == d.bytes && e.content == d.content
    && e.hist.committed == d.hist.committed && e.hist.lostHandle == d.hist.lostHandle
    && (!d.hist.init.Fresh? ==> e.hist.total == d.hist.total && !e.hist.init.Fresh?)
  }

  /** A process does not start, nor go on after a skip, at a point that writes or deletes the object. */
  predicate Harmless(pc: Pc) {
    pc != Upload(Put) && pc != Delete(DePc.DeleteObject)
  }

  lemma LeaveRests(d: Db, pc: Pc)
    ensures Rests(d, Leave(d, pc))
  {
  }

  lemma BeginRests(d: Db, p: Pid, total: nat, size: nat)
    requires d.hist.init.Fresh?
    ensures Rests(d, Begin(d, p, total, size))
  {
  }

  lemma OthersRest(s: St, a: Act)
    requires Next(s, a).Some? && !a.Go?
    ensures Rests(s.db, Next(s, a).value.db)
  {
    match a
    case Skip(p) => LeaveRests(s.db, s.procs[p]);
    case End(p) => LeaveRests(s.db, s.procs[p]);
    case InitUpload(p, total, size) => BeginRests(s.db, p, total, size);
    case _ =>
  }

  lemma OthersHarmless(s: St, a: Act)
    requires Next(s, a).Some? && !a.Go?
    ensures var t := Next(s, a).value;
            forall p :: p in t.procs ==> Harmless(t.procs[p]) || (p in s.procs && t.procs[p] == s.procs[p])
  {
  }

  // ---- the content ----

  ghost predicate NonePutting(procs: map<Pid, Pc>) {
    forall p :: p in procs ==> procs[p] != Upload(Put)
  }

  ghost predicate ContentStays(s: St) {
    forall acts: seq<Act> :: Run(s, acts).Some? ==> Run(s, acts).value.db.content == s.db.content
  }

  /** Nobody can write the object any more. */
  ghost predicate Written(s: St) {
    && s.db.hist.committed && !s.db.hist.init.Fresh?
    && (s.db.hist.total == 1 ==> s.db.session.None? && NonePutting(s.procs))
  }

  /** A process that is to write the object of a committed file is a part upload of a single part. */
  lemma CommittedWriter(d: Db, p: Pid, pc: Pc)
    requires DbInv(d) && PcOk(d, p, pc) && d.hist.committed && WritesObject(pc)
    ensures pc == Upload(Put) && d.hist.total == 1
  {
  }

  lemma OthersWriteNothing(s: St, a: Act)
    requires Written(s) && Next(s, a).Some? && !a.Go?
    ensures Written(Next(s, a).value) && Next(s, a).value.db.content == s.db.content
  {
    OthersRest(s, a);
    OthersHarmless(s, a);
  }

  lemma GoWritesNothing(s: St, p: Pid, w: World)
    requires Inv(s) && Written(s) && Next(s, Go(p, w)).Some?
    ensures Written(Next(s, Go(p, w)).value) && Next(s, Go(p, w)).value.db.content == s.db.content
  {
    var pc := s.procs[p];
    StepTouches(s.db, p, pc, w);
    GoGrows(s, p, w);
    if WritesObject(pc) { CommittedWriter(s.db, p, pc); }
  }

  lemma {:induction false} RunWritesNothing(s: St, acts: seq<Act>)
    requires Inv(s) && Written(s) && Run(s, acts).Some?
    ensures Written(Run(s, acts).value) && Run(s, acts).value.db.content == s.db.content
    decreases |acts|
  {
    if acts != [] {
      var before, a := acts[..|acts| - 1], acts[|acts| - 1];
      RunWritesNothing(s, before);
      RunKeeps(s, before);
      if a.Go? {
        GoWritesNothing(Run(s, before).value, a.p, a.w);
      } else {
        OthersWriteNothing(Run(s, before).value, a);
      }
    }
  }

  /** A part upload of a single-part session, in a server that does nothing else. */
  lemma SessionTakesPut(s: St)
    requires Inv(s) && s.db.session.Some? && s.db.hist.total == 1
    ensures !ContentStays(s)
  {
    var d, pc := AfterCrash(s.db), Entry(UploadPart(0));
    LeadsCrash(s);
    LeadsArrive(s, map[], 0, d, UploadPart(0));
    d, pc := LeadsGo(s, map[], 0, d, pc, NOW);   // read the session
    d, pc := LeadsGo(s, map[], 0, d, pc, NOW.(at := s.db.hist.bornAt.value)); // put_object
    var acts: seq<Act> :| Run(s, acts) == Some(St(d, map[][0 := pc])) && NoFilePass(s, acts);
    assert d.content == s.db.hist.writes + 1;
  }

  lemma PendingPutWrites(s: St, p: Pid)
    requires Inv(s) && p in s.procs && s.procs[p] == Upload(Put)
    ensures !ContentStays(s)
  {
    assert PcOk(s.db, p, s.procs[p]);
    var a := Go(p, NOW.(at := s.db.hist.bornAt.value));
    var t := Next(s, a).value;
    assert t.db.content == s.db.hist.writes + 1;
    assert Run(s, []) == Some(s) && [a][..0] == [];
    assert Run(s, [a]) == Some(t);
  }

  /**
   * The content of a committed file can never be replaced exactly when the upload is multipart, or
   * its session row is gone and no part upload that read it has still to put its body.
   */
  lemma ContentStaysIff(s: St)
    requires Reachable(s) && s.db.hist.committed
    ensures ContentStays(s) <==> s.db.hist.total != 1 || (s.db.session.None? && NonePutting(s.procs))
  {
    ReachableKeeps(s);
    if s.db.hist.total == 1 && s.db.session.Some? {
      SessionTakesPut(s);
    } else if p :| s.db.hist.total == 1 && p in s.procs && s.procs[p] == Upload(Put) {
      PendingPutWrites(s, p);
    } else {
      forall acts: seq<Act> | Run(s, acts).Some? ensures Run(s, acts).value.db.content == s.db.content {
        RunWritesNothing(s, acts);
      }
    }
  }

  // ---- the bytes ----

  ghost predicate BytesStay(s: St) {
    forall acts: seq<Act> :: Run(s, acts).Some? && NoFilePass(s, acts) ==>
      var d := Run(s, acts).value.db; d.row.Some? ==> d.bytes.Some?
  }

  ghost predicate NoneDeletingBytes(procs: map<Pid, Pc>) {
    forall p :: p in procs ==> procs[p] != Delete(DePc.DeleteObject)
  }

  /** As long as the row is there, nothing but the file pass can delete its bytes. */
  ghost predicate Kept(s: St) {
    && s.db.hist.committed && !s.db.hist.init.Fresh?
    && (s.db.hist.total == 1 ==> s.db.session.None?)
    && (s.db.row.Some? ==> s.db.bytes.Some? && (s.db.hist.total == 1 ==> NoneDeletingBytes(s.procs)))
  }

  /** Who may still delete the object of a committed file whose row is there. */
  lemma CommittedDeleter(d: Db, p: Pid, pc: Pc)
    requires DbInv(d) && PcOk(d, p, pc) && d.row.Some? && DeletesObject(d, pc)
    requires d.hist.total == 1 ==> d.session.None?
    ensures (pc.Sweep? && pc.sw.FileBytes?) || (pc == Delete(DePc.DeleteObject) && d.hist.total == 1)
  {
  }

  /** A file row is written again only for a single-part upload whose session is there. */
  lemma CommittedAgain(d: Db, p: Pid, pc: Pc)
    requires DbInv(d) && PcOk(d, p, pc) && d.hist.committed && WritesRow(pc)
    ensures d.hist.total == 1 && d.session.Some?
  {
  }

  lemma GoKeepsBytes(s: St, p: Pid, w: World)
    requires Inv(s) && Kept(s) && Next(s, Go(p, w)).Some? && !FilePassDeletes(s, Go(p, w))
    ensures Kept(Next(s, Go(p, w)).value)
  {
    var pc := s.procs[p];
    StepTouches(s.db, p, pc, w);
    GoGrows(s, p, w);
    if WritesRow(pc) { CommittedAgain(s.db, p, pc); }
    if s.db.row.Some? && DeletesObject(s.db, pc) { CommittedDeleter(s.db, p, pc); }
  }

  lemma OthersKeepBytes(s: St, a: Act)
    requires Kept(s) && Next(s, a).Some? && !a.Go?
    ensures Kept(Next(s, a).value)
  {
    OthersRest(s, a);
    OthersHarmless(s, a);
  }

  lemma {:induction false} RunKeepsBytes(s: St, acts: seq<Act>)
    requires Inv(s) && Kept(s) && Run(s, acts).Some? && NoFilePass(s, acts)
    ensures Kept(Run(s, acts).value)
    decreases |acts|
  {
    if acts != [] {
      var before, a := acts[..|acts| - 1], acts[|acts| - 1];
      RunKeepsBytes(s, before);
      RunKeeps(s, before);
      if a.Go? { GoKeepsBytes(Run(s, before).value, a.p, a.w); } else { OthersKeepBytes(Run(s, before).value, a); }
    }
  }

  /** The stores when the session has run out, in a server that does nothing else. */
  function AfterTtl(d: Db): Db
    requires d.session.Some?
  {
    var due := d.session.value.createdAt + TTL_SECS + 1;
    AfterCrash(d).(clock := if d.clock <= due then due else d.clock)
  }

  lemma LeadsPastTtl(s: St)
    requires s.db.session.Some?
    ensures Leads(s, St(AfterTtl(s.db), map[]))
  {
    LeadsCrash(s);
    LeadsOn(s, St(AfterCrash(s.db), map[]), Tick(AfterTtl(s.db).clock));
  }

  lemma SweepListsSession(s: St)
    requires s.db.session.Some?
    ensures var d := AfterTtl(s.db);
            Leads(s, St(d, map[0 := Sweep(SessionPass(View(d.clock, true, d.row)))]))
  {
    var d, pc := AfterTtl(s.db), Entry(SweepOnce);
    LeadsPastTtl(s);
    LeadsArrive(s, map[], 0, d, SweepOnce);
    d, pc := LeadsGo(s, map[], 0, d, pc, NOW);   // starts
    d, pc := LeadsGo(s, map[], 0, d, pc, NOW);   // list_sessions
    d, pc := LeadsGo(s, map[], 0, d, pc, NOW);   // list_files
    assert map[][0 := pc] == map[0 := Sweep(SessionPass(View(d.clock, true, d.row)))];
  }

  lemma SweepLocksSession(s: St)
    requires s.db.session.Some?
    ensures var d := AfterTtl(s.db);
            Leads(s, St(d.(lock := Some(0)), map[0 := Close(Expire(View(d.clock, true, d.row)), ClPc.Read)]))
  {
    SweepListsSession(s);
    var d := AfterTtl(s.db);
    var pc := Sweep(SessionPass(View(d.clock, true, d.row)));
    assert map[0 := pc] == map[][0 := pc];
    d, pc := LeadsGo(s, map[], 0, d, pc, NOW);   // the session is listed
    d, pc := LeadsGo(s, map[], 0, d, pc, NOW);   // take the lock
    assert map[][0 := pc] == map[0 := pc];
  }

  lemma ExpiryTakesBytes(s: St)
    requires Inv(s) && s.db.row.Some? && s.db.session.Some? && s.db.hist.total == 1
    ensures !BytesStay(s)
  {
    SweepLocksSession(s);
    var d := AfterTtl(s.db).(lock := Some(0));
    var v := View(d.clock, true, d.row);
    var pc := Close(Expire(v), ClPc.Read);
    assert map[0 := pc] == map[][0 := pc];
    d, pc := LeadsGo(s, map[], 0, d, pc, NOW);   // get_session: expired, single part
    assert pc == Close(Expire(v), ClPc.DeleteObject(s.db.session.value));
    d, pc := LeadsGo(s, map[], 0, d, pc, NOW);   // delete_object
    var acts: seq<Act> :| Run(s, acts) == Some(St(d, map[][0 := pc])) && NoFilePass(s, acts);
    assert d.row.Some? && d.bytes.None?;
  }

  lemma PendingDeleteTakesBytes(s: St, p: Pid)
    requires s.db.row.Some? && p in s.procs && s.procs[p] == Delete(DePc.DeleteObject)
    ensures !BytesStay(s)
  {
    var a := Go(p, NOW);
    var t := Next(s, a).value;
    assert t.db.row.Some? && t.db.bytes.None?;
    assert Run(s, []) == Some(s) && [a][..0] == [];
    assert Run(s, [a]) == Some(t) && NoFilePass(s, []) && NoFilePass(s, [a]);
  }

  lemma AbsentBytesFail(s: St)
    requires s.db.row.Some? && s.db.bytes.None?
    ensures !BytesStay(s)
  {
    assert Run(s, []) == Some(s) && NoFilePass(s, []);
  }

  /**
   * A committed file keeps its bytes over every further run in which the file pass deletes nothing,
   * exactly when it has them, and, if it is a single-part file, its session row is gone and no delete
   * that dropped an earlier row has still to delete the object.
   */
  lemma BytesStayIff(s: St)
    requires Reachable(s) && s.db.row.Some?
    ensures BytesStay(s) <==>
            && s.db.bytes.Some?
            && (s.db.hist.total == 1 ==> s.db.session.None? && NoneDeletingBytes(s.procs))
  {
    ReachableKeeps(s);
    if s.db.bytes.None? {
      AbsentBytesFail(s);
    } else if s.db.hist.total == 1 && s.db.session.Some? {
      ExpiryTakesBytes(s);
    } else if p :| s.db.hist.total == 1 && p in s.procs && s.procs[p] == Delete(DePc.DeleteObject) {
      PendingDeleteTakesBytes(s, p);
    } else {
      forall acts: seq<Act> | Run(s, acts).Some? && NoFilePass(s, acts)
        ensures var d := Run(s, acts).value.db; d.row.Some? ==> d.bytes.Some?
      {
        RunKeepsBytes(s, acts);
      }
    }
  }

  // ---- the announce ----

  /** The step with which a cancel or an expiry deletes the session row. */
  predicate CloseDrops(s: St, a: Act) {
    a.Go? && a.p in s.procs && ClosesSession(s.procs[a.p])
  }

  /** A run in which no cancel and no expiry deletes the session row. */
  ghost predicate NoCloseDrops(s: St, acts: seq<Act>)
    decreases |acts|
  {
    acts == [] ||
    var before := acts[..|acts| - 1];
    NoCloseDrops(s, before) &&
    match Run(s, before)
    case None => true
    case Some(mid) => !CloseDrops(mid, acts[|acts| - 1])
  }

  lemma GoKeepsHandle(s: St, p: Pid, w: World)
    requires Next(s, Go(p, w)).Some? && !ClosesSession(s.procs[p])
    ensures Next(s, Go(p, w)).value.db.hist.lostHandle == s.db.hist.lostHandle
  {
    StepTouches(s.db, p, s.procs[p], w);
  }

  lemma OthersKeepHandle(s: St, a: Act)
    requires Next(s, a).Some? && !a.Go?
    ensures Next(s, a).value.db.hist.lostHandle == s.db.hist.lostHandle
  {
    OthersRest(s, a);
  }

  lemma {:induction false} HandleStays(acts: seq<Act>)
    requires Run(START, acts).Some? && NoCloseDrops(START, acts)
    ensures !Run(START, acts).value.db.hist.lostHandle
    decreases |acts|
  {
    if acts != [] {
      var before := acts[..|acts| - 1];
      HandleStays(before);
      var s, a := Run(START, before).value, acts[|acts| - 1];
      if a.Go? { GoKeepsHandle(s, a.p, a.w); } else { OthersKeepHandle(s, a); }
    }
  }

  /**
   * Along every run in which no cancel and no expiry deletes the session row, a committed file whose
   * session is gone is in the feed; in particular once any completion has returned success.
   */
  lemma UncancelledIsAnnounced(acts: seq<Act>)
    requires Run(START, acts).Some? && NoCloseDrops(START, acts)
    ensures var d := Run(START, acts).value.db;
            d.row.Some? && d.session.None? ==> FileCreate(d.row.value) in d.feed
  {
    HandleStays(acts);
    var s := Run(START, acts).value;
    if s.db.row.Some? && s.db.session.None? {
      AnnouncedIff(s);
    }
  }
}
