// What a step of the upload machine rests on must have happened earlier in the same run
// (src/fs/mod.rs, src/fs/gc.rs).
module UploadHistory {
  import opened Wrappers
  import opened Multipart
  import opened UploadModel
  import opened UploadInvariant
  import opened UploadTheorems

  /** The state in which action `i` of a run is taken. */
  function Before(acts: seq<Act>, i: nat): Option<St>
    requires i <= |acts|
  {
    Run(START, acts[..i])
  }

  lemma RunEnds(acts: seq<Act>) returns (before: seq<Act>, s: St, a: Act)
    requires acts != [] && Run(START, acts).Some?
    ensures acts == before + [a] && |before| < |acts| && Run(START, before) == Some(s)
    ensures Next(s, a) == Run(START, acts)
    ensures Before(acts, |before|) == Some(s) && acts[|before|] == a
    ensures forall i :: 0 <= i <= |before| ==> acts[..i] == before[..i]
    ensures Inv(s)
  {
    before, a := acts[..|acts| - 1], acts[|acts| - 1];
    s := Run(START, before).value;
    RunKeeps(START, before);
  }

  /** Points at which a process starts, or goes on after a skip. */
  predicate Fresh(pc: Pc) {
    match pc
    case Init(c) => c.SaveSession?
    case Upload(c) => c.Start?
    case Merge(_, _, _) => false
    case Complete(c) => c.Wait?
    case Close(_, c) => c.Wait?
    case Sweep(c) => c.Start? || c.FilePass? || c.ListKeys?
    case Delete(c) => c.Start?
    case Done => false
  }

  /** Whatever is not a step of a process moves nobody on. */
  lemma OthersStand(s: St, a: Act, p: Pid)
    requires Next(s, a).Some? && !a.Go? && p in Next(s, a).value.procs && !Fresh(Next(s, a).value.procs[p])
    ensures p in s.procs && Next(s, a).value.procs[p] == s.procs[p]
  {
  }

  /** Where a process stands that did not start or skip just now. */
  lemma CameFrom(s: St, a: Act, p: Pid)
    requires Next(s, a).Some? && p in Next(s, a).value.procs && !Fresh(Next(s, a).value.procs[p])
    ensures p in s.procs
    ensures var pc := Next(s, a).value.procs[p];
            if a.Go? && a.p == p then
              var r := Step(s.db, p, s.procs[p], a.w); r.Taken() && r.pc == pc && r.Db(s.db) == Next(s, a).value.db
            else s.procs[p] == pc
  {
    if !a.Go? { OthersStand(s, a, p); }
  }

  // ---- a merged part stays merged ----

  /** While the session row is there, it counts the same parts, and a slot that is filled stays filled. */
  ghost predicate SlotsStay(d: Db, e: Db) {
    d.session.Some? && e.session.Some? ==>
      && |e.session.value.etags| == |d.session.value.etags|
      && forall i :: 0 <= i < |d.session.value.etags| && d.session.value.etags[i].Some? ==>
           e.session.value.etags[i].Some?
  }

  /** The step with which a merge writes the session row. */
  predicate Merges(s: St, a: Act, i: nat) {
    && a.Go? && a.p in s.procs && s.procs[a.p].Merge? && s.procs[a.p].i == i && s.procs[a.p].mg.SaveSession?
    && Next(s, a).Some?
  }

  /** A merge that returns has its id in its slot, and leaves every other slot as it found it. */
  lemma MergeFillsSlot(s: St, a: Act, i: nat)
    requires Inv(s) && Merges(s, a, i)
    ensures var t, e := Next(s, a).value, s.procs[a.p].etag;
            && s.db.session.Some? && i < |s.db.session.value.etags|
            && t.db == s.db.(lock := None, hist := s.db.hist.(crit := Idle),
                             session := Some(s.db.session.value.(etags := s.db.session.value.etags[i := Some(e)])))
            && t.procs[a.p] == Done
            && (s.db.mp.Some? ==> i in s.db.mp.value && s.db.mp.value[i] == e)
  {
    assert PcOk(s.db, a.p, s.procs[a.p]);
  }

  predicate WritesSession(pc: Pc) {
    (pc.Merge? && pc.mg.SaveSession?) || (pc.Init? && pc.init.SaveSession?)
  }

  lemma StepLeavesSession(d: Db, p: Pid, pc: Pc, w: World)
    requires !WritesSession(pc) && Step(d, p, pc, w).Taken()
    ensures var e := Step(d, p, pc, w).Db(d); e.session == d.session || e.session.None?
  {
  }

  lemma OthersLeaveSession(s: St, a: Act)
    requires Next(s, a).Some? && !a.Go?
    ensures Next(s, a).value.db.session == s.db.session
  {
    OthersLeaveRows(s, a);
  }

  lemma SlotsStayNext(s: St, a: Act)
    requires Inv(s) && Next(s, a).Some?
    ensures SlotsStay(s.db, Next(s, a).value.db)
  {
    if !a.Go? {
      OthersLeaveSession(s, a);
    } else if s.procs[a.p].Merge? && s.procs[a.p].mg.SaveSession? {
      MergeFillsSlot(s, a, s.procs[a.p].i);
    } else if s.procs[a.p].Init? {
      assert PcOk(s.db, a.p, s.procs[a.p]);
    } else {
      StepLeavesSession(s.db, a.p, s.procs[a.p], a.w);
    }
  }

  lemma SlotsStayTransitive(d: Db, e: Db, f: Db)
    requires SlotsStay(d, e) && SlotsStay(e, f) && (d.session.Some? && e.session.None? ==> f.session.None?)
    ensures SlotsStay(d, f)
  {
  }

  /** Over every run: while the session row is there, a part that was merged stays merged. */
  lemma {:induction false} MergedStays(s: St, acts: seq<Act>)
    requires Inv(s) && Run(s, acts).Some?
    ensures SlotsStay(s.db, Run(s, acts).value.db)
    decreases |acts|
  {
    if acts != [] {
      var before := acts[..|acts| - 1];
      var mid := Run(s, before).value;
      MergedStays(s, before);
      RunKeeps(s, before);
      RunGrows(s, before);
      SlotsStayNext(mid, acts[|acts| - 1]);
      NextGrows(mid, acts[|acts| - 1]);
      SlotsStayTransitive(s.db, mid.db, Run(s, acts).value.db);
    }
  }

  /** Action `j` of the run merges part `i`. */
  predicate MergedAt(acts: seq<Act>, j: nat, i: nat) {
    j < |acts| && Before(acts, j).Some? && Merges(Before(acts, j).value, acts[j], i)
  }

  ghost predicate WasMerged(acts: seq<Act>, i: nat) {
    exists j: nat :: MergedAt(acts, j, i)
  }

  lemma MergedSlot(acts: seq<Act>, j: nat, i: nat)
    requires Run(START, acts).Some? && MergedAt(acts, j, i)
    ensures var x := Run(START, acts).value.db.session;
            x.Some? && i < |x.value.etags| ==> x.value.etags[i].Some?
  {
    RunSplits(acts, j + 1);
    var before, s, a := RunEnds(acts[..j + 1]);
    assert before == acts[..j];
    MergeFillsSlot(s, a, i);
    RunKeeps(START, acts[..j + 1]);
    MergedStays(Before(acts, j + 1).value, acts[j + 1..]);
  }

  /** A run, cut after its first `k` actions. */
  lemma {:induction false} RunSplits(acts: seq<Act>, k: nat)
    requires Run(START, acts).Some? && k <= |acts|
    ensures Before(acts, k).Some? && Run(Before(acts, k).value, acts[k..]) == Run(START, acts)
    decreases |acts|
  {
    if k == |acts| {
      assert acts[..k] == acts && acts[k..] == [];
    } else {
      var before := acts[..|acts| - 1];
      RunSplits(before, k);
      assert before[..k] == acts[..k] && acts[..k] + acts[k..] == acts;
      RunConcat(START, acts[..k], acts[k..]);
    }
  }

  /**
   * Over every run, whatever else goes on in it: once each part was merged at some time and the
   * session row is still there, the session is complete.
   */
  lemma MergedAllIsComplete(acts: seq<Act>)
    requires Run(START, acts).Some? && Run(START, acts).value.db.session.Some?
    requires forall i: nat :: i < Run(START, acts).value.db.session.value.total ==> WasMerged(acts, i)
    ensures Run(START, acts).value.db.session.value.Complete()
  {
    RunKeeps(START, acts);
    var c := Run(START, acts).value.db.session.value;
    forall i: nat | i < |c.etags| ensures c.etags[i].Some? {
      assert WasMerged(acts, i);
      var j: nat :| MergedAt(acts, j, i);
      MergedSlot(acts, j, i);
    }
  }

  // ---- what was assembled ----

  /** A completion takes an entry out that holds exactly the parts its session names. */
  ghost predicate TakesExactly(s: St, a: Act, c: Session) {
    && a.Go? && a.p in s.procs && s.procs[a.p].Complete? && s.procs[a.p].co.Take?
    && s.procs[a.p].co.s == c && s.db.session == Some(c) && s.db.ram.Some? && c.Complete()
    && Exactly(s.db.ram.value, Etags(c))
  }

  ghost predicate TookExactly(acts: seq<Act>, i: nat, c: Session) {
    i < |acts| && Before(acts, i).Some? && TakesExactly(Before(acts, i).value, acts[i], c)
  }

  /** The check decides where a completion goes: it assembles exactly when the entry is what the session names. */
  lemma TakeDecides(s: St, a: Act)
    requires Inv(s) && a.Go? && a.p in s.procs && s.procs[a.p].Complete? && s.procs[a.p].co.Take?
    requires s.db.ram.Some?
    ensures var c := s.procs[a.p].co.s;
            && Next(s, a).Some? && Next(s, a).value.db.ram.None?
            && Next(s, a).value.procs[a.p] == Complete(if TakesExactly(s, a, c) then Assemble(c) else Failed)
  {
    var c := s.procs[a.p].co.s;
    assert PcOk(s.db, a.p, s.procs[a.p]);
    CheckPartsExact(s.db.ram.value, Etags(c));
  }

  lemma ReachesAssemble(d: Db, p: Pid, pc: Pc, w: World, c: Session)
    requires Step(d, p, pc, w).Taken() && Step(d, p, pc, w).pc == Complete(Assemble(c))
    ensures pc.Complete? && pc.co.Take? && pc.co.s == c && d.ram.Some?
  {
  }

  /** A process that is to assemble has taken out exactly what its session names. */
  lemma {:induction false} AssemblesExactly(acts: seq<Act>, p: Pid, c: Session) returns (i: nat)
    requires Run(START, acts).Some? && p in Run(START, acts).value.procs
    requires Run(START, acts).value.procs[p] == Complete(Assemble(c))
    ensures TookExactly(acts, i, c)
    decreases |acts|
  {
    var before, s, a := RunEnds(acts);
    CameFrom(s, a, p);
    if a.Go? && a.p == p {
      ReachesAssemble(s.db, p, s.procs[p], a.w, c);
      TakeDecides(s, a);
      i := |before|;
    } else {
      i := AssemblesExactly(before, p, c);
    }
  }

  lemma StepAssembles(d: Db, p: Pid, pc: Pc, w: World)
    requires Step(d, p, pc, w).Taken() && Step(d, p, pc, w).Db(d).backend.Assembled? && !d.backend.Assembled?
    ensures pc.Complete? && pc.co.Assemble?
  {
  }

  lemma OthersAssembleNothing(s: St, a: Act)
    requires Next(s, a).Some? && !a.Go? && Next(s, a).value.db.backend.Assembled?
    ensures s.db.backend.Assembled?
  {
  }

  /**
   * Over every run: an object that was assembled was assembled by a completion whose entry held,
   * when it was taken out, exactly the parts and ids of its session, no more and no fewer.
   */
  lemma {:induction false} AssembledWasExact(acts: seq<Act>) returns (i: nat, c: Session)
    requires Run(START, acts).Some? && Run(START, acts).value.db.backend.Assembled?
    ensures TookExactly(acts, i, c)
    decreases |acts|
  {
    var before, s, a := RunEnds(acts);
    if s.db.backend.Assembled? {
      i, c := AssembledWasExact(before);
    } else if a.Go? {
      StepAssembles(s.db, a.p, s.procs[a.p], a.w);
      c := s.procs[a.p].co.s;
      i := AssemblesExactly(before, a.p, c);
    } else {
      OthersAssembleNothing(s, a);
    }
  }

  // ---- a committed multipart file was assembled ----

  /** The record of a session goes only after the assembly, and so does the commit of a multipart file. */
  ghost predicate Stands(s: St) {
    var d := s.db;
    && (d.session.Some? && d.hist.mpWritten && d.mp.None? ==> d.backend.Assembled?)
    && (d.hist.committed && d.hist.total != 1 ==> d.backend.Assembled?)
    && (forall p :: p in s.procs && s.procs[p].Complete? && s.procs[p].co.DropRecord? ==> d.backend.Assembled?)
  }

  /** Nothing is declared anew. */
  predicate SameDeclared(h: Hist, h': Hist) {
    h'.size == h.size && h'.total == h.total && (h'.init.Fresh? <==> h.init.Fresh?)
  }

  /** What a step does to the record, the backend and the commit, by the point it starts from. */
  ghost predicate RecordTouched(d: Db, pc: Pc, r: Out) {
    r.Taken() ==>
      var e := r.Db(d);
      && (d.backend.Assembled? ==> e.backend.Assembled?)
      && (e.mp.None? && d.mp.Some? ==> e.session.None? || (pc.Complete? && pc.co.DropRecord?))
      && (e.hist.mpWritten && !d.hist.mpWritten ==> e.mp.Some?)
      && (e.session.Some? && d.session.None? ==> pc == Init(InitPc.SaveSession))
      && (e.hist.committed && !d.hist.committed ==> pc.Complete? && pc.co.SaveFile?)
      && SameDeclared(d.hist, e.hist)
      && (r.pc.Complete? && r.pc.co.DropRecord? ==> e.backend.Assembled?)
  }

  lemma InitSessionTouched(d: Db, p: Pid, w: World)
    requires !d.hist.init.Fresh?
    ensures RecordTouched(d, Init(InitPc.SaveSession), StepInit(d, p, InitPc.SaveSession, w))
  {
    var r := StepInit(d, p, InitPc.SaveSession, w);
    if r.Taken() {
      assert r.Db(d).mp == d.mp && r.Db(d).backend == d.backend && r.Db(d).hist.committed == d.hist.committed;
      assert r.Db(d).hist.mpWritten == d.hist.mpWritten && SameDeclared(d.hist, r.Db(d).hist);
    }
  }

  lemma InitRecordTouched(d: Db, p: Pid, w: World)
    requires !d.hist.init.Fresh?
    ensures RecordTouched(d, Init(InitPc.SaveRecord), StepInit(d, p, InitPc.SaveRecord, w))
  {
    var r := StepInit(d, p, InitPc.SaveRecord, w);
    if r.Taken() {
      assert r.pc == Done && r.Db(d).mp.Some? && r.Db(d).backend == d.backend && r.Db(d).session == d.session;
      assert r.Db(d).hist.committed == d.hist.committed && SameDeclared(d.hist, r.Db(d).hist);
    }
  }

  lemma UploadTouched(d: Db, pc: UpPc, w: World)
    ensures RecordTouched(d, Upload(pc), StepUpload(d, pc, w))
  {
  }

  lemma MergeTouched(d: Db, p: Pid, i: nat, e: string, pc: MgPc)
    requires pc.SaveSession? ==> d.session.Some?
    ensures RecordTouched(d, Merge(i, e, pc), StepMerge(d, p, i, e, pc))
  {
  }

  lemma CompleteTouched(d: Db, p: Pid, pc: CoPc, w: World)
    ensures RecordTouched(d, Complete(pc), StepComplete(d, p, pc, w))
  {
  }

  lemma CloseTouched(d: Db, p: Pid, why: By, pc: ClPc)
    ensures RecordTouched(d, Close(why, pc), StepClose(d, p, why, pc))
  {
  }

  lemma RestTouched(d: Db, p: Pid, pc: Pc, w: World)
    requires pc.Sweep? || pc.Delete? || pc.Done?
    ensures RecordTouched(d, pc, Step(d, p, pc, w))
  {
  }

  lemma StepTouchesRecord(d: Db, p: Pid, pc: Pc, w: World)
    requires PcOk(d, p, pc)
    ensures RecordTouched(d, pc, Step(d, p, pc, w))
  {
    match pc
    case Init(c) =>
      if c.SaveSession? { InitSessionTouched(d, p, w); } else { InitRecordTouched(d, p, w); }
    case Upload(c) => UploadTouched(d, c, w);
    case Merge(i, e, c) => MergeTouched(d, p, i, e, c);
    case Complete(c) => CompleteTouched(d, p, c, w);
    case Close(why, c) => CloseTouched(d, p, why, c);
    case _ => RestTouched(d, p, pc, w);
  }

  lemma GoStands(s: St, p: Pid, w: World)
    requires Inv(s) && Stands(s) && Next(s, Go(p, w)).Some?
    ensures Stands(Next(s, Go(p, w)).value)
  {
    assert PcOk(s.db, p, s.procs[p]);
    StepTouchesRecord(s.db, p, s.procs[p], w);
  }

  predicate SameRecord(d: Db, e: Db) {
    && e.session == d.session && e.mp == d.mp
    && e.hist.mpWritten == d.hist.mpWritten && e.hist.committed == d.hist.committed
    && (d.hist.bornAt.Some? ==> e.backend == d.backend && e.hist.total == d.hist.total)
  }

  lemma LeaveSameRecord(d: Db, pc: Pc)
    ensures SameRecord(d, Leave(d, pc))
  {
  }

  /** Whatever is not a step of a process leaves the record, the backend and the commit alone. */
  lemma OthersLeaveRecord(s: St, a: Act)
    requires Inv(s) && Next(s, a).Some? && !a.Go?
    ensures SameRecord(s.db, Next(s, a).value.db)
  {
    match a
    case Skip(p) => LeaveSameRecord(s.db, s.procs[p]);
    case End(p) => LeaveSameRecord(s.db, s.procs[p]);
    case _ =>
  }

  lemma NextStands(s: St, a: Act)
    requires Inv(s) && Stands(s) && Next(s, a).Some?
    ensures Stands(Next(s, a).value)
  {
    var t := Next(s, a).value;
    if a.Go? {
      GoStands(s, a.p, a.w);
    } else {
      OthersLeaveRecord(s, a);
      forall p | p in t.procs && t.procs[p].Complete? && t.procs[p].co.DropRecord? ensures t.db.backend.Assembled? {
        OthersStand(s, a, p);
        assert PcOk(s.db, p, s.procs[p]);
      }
    }
  }

  lemma {:induction false} RunStands(acts: seq<Act>)
    requires Run(START, acts).Some?
    ensures Stands(Run(START, acts).value)
    decreases |acts|
  {
    if acts != [] {
      var before, s, a := RunEnds(acts);
      RunStands(before);
      NextStands(s, a);
    }
  }

  /** Over every run, a committed multipart file was assembled from exactly the parts of its session. */
  lemma CommittedWasExact(acts: seq<Act>) returns (i: nat, c: Session)
    requires Run(START, acts).Some?
    requires var h := Run(START, acts).value.db.hist; h.committed && h.total != 1
    ensures TookExactly(acts, i, c)
  {
    RunStands(acts);
    i, c := AssembledWasExact(acts);
  }

  // ---- what init declared ----

  lemma LeaveDeclares(d: Db, p: Pid, pc: Pc)
    requires PcOk(d, p, pc)
    ensures SameDeclared(d.hist, Leave(d, pc).hist)
  {
    assert pc.Init? ==> pc.init.SaveSession? || pc.init.SaveRecord?;
  }

  lemma DeclaredNext(s: St, a: Act)
    requires Inv(s) && Next(s, a).Some?
    ensures var h, h' := s.db.hist, Next(s, a).value.db.hist;
            if a.InitUpload? then h'.size == a.size && h'.total == a.total && !h'.init.Fresh? && h.init.Fresh?
            else SameDeclared(h, h')
  {
    match a
    case Go(p, w) => StepTouchesRecord(s.db, p, s.procs[p], w);
    case Skip(p) => LeaveDeclares(s.db, p, s.procs[p]);
    case End(p) => LeaveDeclares(s.db, p, s.procs[p]);
    case _ =>
  }

  /** There is one init request, and its size and part count are those of the run. */
  lemma {:induction false} Declared(acts: seq<Act>, i: nat)
    requires Run(START, acts).Some? && i < |acts| && acts[i].InitUpload?
    ensures var h := Run(START, acts).value.db.hist;
            h.size == acts[i].size && h.total == acts[i].total && !h.init.Fresh?
    decreases |acts|
  {
    var before, s, a := RunEnds(acts);
    if i < |before| {
      Declared(before, i);
    }
    DeclaredNext(s, a);
  }

  lemma {:induction false} WasDeclared(acts: seq<Act>) returns (i: nat)
    requires Run(START, acts).Some? && !Run(START, acts).value.db.hist.init.Fresh?
    ensures i < |acts| && acts[i].InitUpload?
    decreases |acts|
  {
    var before, s, a := RunEnds(acts);
    DeclaredNext(s, a);
    if a.InitUpload? {
      i := |before|;
    } else {
      i := WasDeclared(before);
    }
  }

  /**
   * Over every run, a session row has the part count and the size of the one init request of the
   * run, and so has a file row its size.
   */
  lemma RowsAsDeclared(acts: seq<Act>) returns (i: nat)
    requires Run(START, acts).Some?
    requires var d := Run(START, acts).value.db; d.session.Some? || d.row.Some?
    ensures i < |acts| && acts[i].InitUpload? && (forall j :: 0 <= j < |acts| && acts[j].InitUpload? ==> j == i)
    ensures var d := Run(START, acts).value.db;
            && (d.session.Some? ==>
                 && d.session.value.total == |d.session.value.etags| == acts[i].total
                 && d.session.value.fileSize == acts[i].size)
            && (d.row.Some? ==> d.row.value.size == acts[i].size)
  {
    RunKeeps(START, acts);
    i := WasDeclared(acts);
    Declared(acts, i);
    forall j | 0 <= j < |acts| && acts[j].InitUpload? ensures j == i {
      OneInit(acts, i, j);
    }
  }

  lemma {:induction false} OneInit(acts: seq<Act>, i: nat, j: nat)
    requires Run(START, acts).Some? && i < |acts| && j < |acts| && acts[i].InitUpload? && acts[j].InitUpload?
    ensures i == j
    decreases |acts|
  {
    var before, s, a := RunEnds(acts);
    DeclaredNext(s, a);
    if i < |before| && j < |before| {
      OneInit(before, i, j);
    } else if i < |before| {
      Declared(before, i);
    } else if j < |before| {
      Declared(before, j);
    }
  }

  // ---- what the file pass takes ----

  /** The moment at which the sweep of `p` started, on the clock of the server. */
  function StartedAt(pc: Pc): Option<int> {
    match pc
    case Sweep(Start) => None
    case Sweep(ListSessions(now)) => Some(now)
    case Sweep(ListFiles(now, _)) => Some(now)
    case Sweep(c) => Some(c.v.now)
    case Close(Expire(v), _) => Some(v.now)
    case _ => None
  }

  predicate SweepStarts(acts: seq<Act>, i: nat, p: Pid, now: int) {
    && i < |acts| && Before(acts, i).Some? && acts[i].Go? && acts[i].p == p
    && var s := Before(acts, i).value; p in s.procs && s.procs[p] == Sweep(SwPc.Start) && s.db.clock == now
  }

  lemma SweepGoesOn(s: St, a: Act, p: Pid)
    requires Next(s, a).Some? && p in Next(s, a).value.procs && StartedAt(Next(s, a).value.procs[p]).Some?
    ensures var now := StartedAt(Next(s, a).value.procs[p]);
            && p in s.procs
            && (StartedAt(s.procs[p]) == now ||
                (a.Go? && a.p == p && s.procs[p] == Sweep(SwPc.Start) && now == Some(s.db.clock)))
  {
  }

  /** The time that a sweep works with is the clock at the moment of its first step. */
  lemma {:induction false} SweepStarted(acts: seq<Act>, p: Pid) returns (i: nat)
    requires Run(START, acts).Some? && p in Run(START, acts).value.procs
    requires StartedAt(Run(START, acts).value.procs[p]).Some?
    ensures SweepStarts(acts, i, p, StartedAt(Run(START, acts).value.procs[p]).value)
    decreases |acts|
  {
    var before, s, a := RunEnds(acts);
    SweepGoesOn(s, a, p);
    if StartedAt(s.procs[p]) == StartedAt(Run(START, acts).value.procs[p]) {
      i := SweepStarted(before, p);
    } else {
      i := |before|;
    }
  }

  /** Since when a file is without a row: since its last one went, or since it was created. */
  function UnusedSince(w: World, rec: Row): int {
    if w.orphanSince.Some? then w.orphanSince.value else rec.createdAt
  }

  /** Action `i` is the read of the reference count by the sweep of `p`. */
  predicate ReadsCount(acts: seq<Act>, i: nat, p: Pid, v: View, w: World) {
    && i < |acts| && Before(acts, i).Some? && acts[i] == Go(p, w)
    && p in Before(acts, i).value.procs && Before(acts, i).value.procs[p] == Sweep(SwPc.FilePass(v))
  }

  lemma ReachesFileBytes(d: Db, p: Pid, pc: Pc, w: World, v: View)
    requires Step(d, p, pc, w).Taken() && Step(d, p, pc, w).pc == Sweep(FileBytes(v))
    ensures pc == Sweep(SwPc.FilePass(v)) && v.file.Some? && w.refs == 0
    ensures v.now - UnusedSince(w, v.file.value) > TTL_SECS
  {
  }

  /**
   * Over every run, a sweep that is to delete the bytes of a file has listed the file and read a
   * count of zero, and at its start the file was without a row for longer than the TTL.
   */
  lemma {:induction false} FilePassHasRead(acts: seq<Act>, p: Pid, v: View) returns (i: nat, w: World)
    requires Run(START, acts).Some? && p in Run(START, acts).value.procs
    requires Run(START, acts).value.procs[p] == Sweep(FileBytes(v))
    ensures ReadsCount(acts, i, p, v, w) && w.refs == 0
    ensures v.file.Some? && v.now - UnusedSince(w, v.file.value) > TTL_SECS
    decreases |acts|
  {
    var before, s, a := RunEnds(acts);
    CameFrom(s, a, p);
    if a.Go? && a.p == p {
      ReachesFileBytes(s.db, p, s.procs[p], a.w, v);
      i, w := |before|, a.w;
    } else {
      i, w := FilePassHasRead(before, p, v);
    }
  }

  /** The file pass goes on to the bytes exactly of such a file; any other file it leaves alone. */
  lemma FilePassTakesIff(s: St, p: Pid, v: View, w: World)
    requires p in s.procs && s.procs[p] == Sweep(SwPc.FilePass(v))
    ensures var t := Next(s, Go(p, w));
            && t.Some? && t.value.db == s.db
            && t.value.procs[p] == Sweep(if v.file.Some? && w.refs == 0
                                            && v.now - UnusedSince(w, v.file.value) > TTL_SECS
                                         then FileBytes(v) else ListKeys(v))
  {
  }

  /**
   * Whenever the file pass deletes bytes: its sweep read a count of zero before, and more than the
   * TTL lies between the orphan stamp that it read (or the creation) and the start of the sweep.
   */
  lemma FilePassDeletesUnused(acts: seq<Act>, a: Act) returns (i: nat, w: World, start: nat)
    requires Run(START, acts).Some? && FilePassDeletes(Run(START, acts).value, a)
    ensures var s := Run(START, acts).value;
            && s.procs[a.p].Sweep? && s.procs[a.p].sw.FileBytes?
            && var v := s.procs[a.p].sw.v;
               && ReadsCount(acts, i, a.p, v, w) && w.refs == 0
               && SweepStarts(acts, start, a.p, v.now)
               && v.file.Some? && v.now - UnusedSince(w, v.file.value) > TTL_SECS
  {
    var s := Run(START, acts).value;
    AnnouncesAfterBytes(s.db, a.p, s.procs[a.p], a.w);
    var v := s.procs[a.p].sw.v;
    i, w := FilePassHasRead(acts, a.p, v);
    start := SweepStarted(acts, a.p);
  }

  lemma AnnouncesAfterBytes(d: Db, p: Pid, pc: Pc, w: World)
    requires Step(d, p, pc, w).Taken() && Step(d, p, pc, w).pc.Sweep? && Step(d, p, pc, w).pc.sw.FileAnnounce?
    ensures pc == Sweep(FileBytes(Step(d, p, pc, w).pc.sw.v))
  {
  }
}
