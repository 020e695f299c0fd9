// What holds over every run of the upload machine: any number of processes on the id, in any
// order, each ending anywhere, with crashes of the server in between.
module UploadTheorems {
  import opened Wrappers
  import opened Multipart
  import opened UploadModel
  import opened UploadInvariant

  lemma RunConcat(s: St, a: seq<Act>, b: seq<Act>)
    requires Run(s, a).Some?
    ensures Run(s, a + b) == Run(Run(s, a).value, b)
    decreases |b|
  {
    if b == [] {
      assert a + b == a;
    } else {
      var init := b[..|b| - 1];
      assert (a + b)[..|a + b| - 1] == a + init;
      RunConcat(s, a, init);
    }
  }

  lemma ReachableRun(s: St, acts: seq<Act>)
    requires Reachable(s) && Run(s, acts).Some?
    ensures Reachable(Run(s, acts).value)
  {
    var before: seq<Act> :| Run(START, before) == Some(s);
    RunConcat(START, before, acts);
  }

  // ---- the session lock ----

  /** At most one process is between taking and dropping the session lock. */
  lemma OneHolder(s: St, p: Pid, q: Pid)
    requires Reachable(s) && p in s.procs && q in s.procs && Holds(s.procs[p]) && Holds(s.procs[q])
    ensures p == q
  {
    ReachableKeeps(s);
  }

  // ---- file rows and their bytes ----

  /**
   * A file row without its bytes has one of three causes: the file pass deleted them, or the file
   * is a single-part upload of which a completion ended between the file row and the session
   * delete, or an expiry between the object delete and the session delete. A multipart upload never loses
   * its bytes to uploads, completions, cancels or expiries, however they are cut.
   */
  lemma FileRowsHaveBytes(s: St)
    requires Reachable(s) && s.db.row.Some? && s.db.bytes.None?
    ensures s.db.hist.filePassed || (s.db.hist.total == 1 && (s.db.hist.cutCommit || s.db.hist.cutExpiry))
  {
    ReachableKeeps(s);
  }

  /** Ends a process inside the part of its critical section that must not stay half done. */
  predicate CutsShort(s: St, a: Act) {
    && (s.db.hist.crit.Committing? || s.db.hist.crit.Announced? || s.db.hist.crit.Expiring?)
    && (a.Crash? || ((a.End? || a.Skip?) && a.p in s.procs && Holds(s.procs[a.p])))
  }

  /** The step with which the file pass deletes the bytes. */
  predicate FilePassDeletes(s: St, a: Act) {
    && a.Go? && Next(s, a).Some?
    && var pc := Next(s, a).value.procs[a.p]; pc.Sweep? && pc.sw.FileAnnounce?
  }

  /** A run in which no commit or expiry is cut short and the file pass deletes nothing; merges may be. */
  ghost predicate Orderly(s: St, acts: seq<Act>)
    decreases |acts|
  {
    acts == [] ||
    var before := acts[..|acts| - 1];
    var last := acts[|acts| - 1];
    Orderly(s, before) &&
    match Run(s, before)
    case None => true
    case Some(mid) => !CutsShort(mid, last) && !FilePassDeletes(mid, last)
  }

  lemma OrderlyGo(s: St, p: Pid, w: World)
    requires Inv(s) && Next(s, Go(p, w)).Some? && !FilePassDeletes(s, Go(p, w))
    ensures Flags(s.db.hist, Next(s, Go(p, w)).value.db.hist, Done)
  {
    StepKeeps(s.db, p, s.procs[p], w);
  }

  lemma OrderlyLeave(d: Db, pc: Pc)
    requires d.hist.crit.Idle? || d.hist.crit.Merging? || !Holds(pc)
    ensures Flags(d.hist, Leave(d, pc).hist, Done)
  {
  }

  lemma OrderlyStep(s: St, a: Act)
    requires Inv(s) && Next(s, a).Some? && !CutsShort(s, a) && !FilePassDeletes(s, a)
    ensures Flags(s.db.hist, Next(s, a).value.db.hist, Done)
  {
    match a
    case Tick(to) =>
    case InitUpload(p, total, size) =>
    case Arrive(p, r) =>
    case Go(p, w) => OrderlyGo(s, p, w);
    case Skip(p) => OrderlyLeave(s.db, s.procs[p]);
    case End(p) => OrderlyLeave(s.db, s.procs[p]);
    case Crash =>
  }

  /**
   * Over every orderly run (any interleaving of uploads, merges, completions, cancels, expiries,
   * orphan passes and deletes, with all appends accepted) every file row has its bytes.
   */
  lemma {:induction false} OrderlyRunsKeepBytes(acts: seq<Act>)
    requires Run(START, acts).Some? && Orderly(START, acts)
    ensures var d := Run(START, acts).value.db;
            !d.hist.cutCommit && !d.hist.cutExpiry && !d.hist.filePassed && (d.row.Some? ==> d.bytes.Some?)
    decreases |acts|
  {
    if acts != [] {
      var before := acts[..|acts| - 1];
      OrderlyRunsKeepBytes(before);
      RunKeeps(START, before);
      OrderlyStep(Run(START, before).value, acts[|acts| - 1]);
    }
    RunKeeps(START, acts);
  }

  /** A committed file row has the size that init declared. */
  lemma CommittedSize(s: St)
    requires Reachable(s) && s.db.row.Some?
    ensures s.db.row.value.size == s.db.hist.size
  {
    ReachableKeeps(s);
  }

  // ---- the orphan-byte pass ----

  /** When the orphan pass deletes a key, no session row and no file row references it at that moment. */
  lemma OrphanPassSparesReferenced(s: St, p: Pid, v: View, modified: Option<int>)
    requires Reachable(s) && p in s.procs && s.procs[p] == Sweep(SwPc.OrphanPass(v, modified))
    requires OrphanDue(v, modified)
    ensures s.db.session.None? && s.db.row.None?
  {
    ReachableKeeps(s);
    assert PcOk(s.db, p, s.procs[p]);
  }

  // ---- session rows and multipart records ----

  /** A session row that is there, and is gone after some run, is gone after every longer run. */
  lemma DeletedSessionNeverReturns(s: St, gone: seq<Act>, more: seq<Act>)
    requires Reachable(s) && s.db.session.Some?
    requires Run(s, gone).Some? && Run(s, gone).value.db.session.None?
    requires Run(Run(s, gone).value, more).Some?
    ensures Run(Run(s, gone).value, more).value.db.session.None?
  {
    ReachableKeeps(s);
    RunGrows(s, gone);
    RunKeeps(s, gone);
    RunGrows(Run(s, gone).value, more);
  }

  /**
   * A multipart record is without its session row exactly when the session was deleted between the
   * two writes of init and init then wrote the record. By an expiry this takes an init that stalled
   * there for longer than the TTL.
   */
  lemma RecordHasSession(s: St)
    requires Reachable(s)
    ensures var h := s.db.hist;
            && (s.db.mp.Some? && s.db.session.None? <==> !h.raced.NoRace? && h.mpWritten)
            && (h.raced.ByExpiry? ==> h.raced.age > TTL_SECS)
  {
    ReachableKeeps(s);
  }

  /**
   * While both rows are there, every part that the session shows as uploaded is in the record, with
   * the same id unless a merge of that part is, or was left, half done; and every index is in range.
   */
  lemma RecordCoversSession(s: St)
    requires Reachable(s) && s.db.session.Some? && s.db.mp.Some?
    ensures KeysBelow(s.db.mp.value, s.db.session.value.total)
    ensures Covers(s.db.mp.value, s.db.session.value.etags, s.db.hist.cutMerge, s.db.hist.crit)
  {
    ReachableKeeps(s);
  }

  /**
   * A completion that restored the RAM entry, with no part upload writing the entry since, passes
   * the count check and finds every part; it passes the whole check if no merge was left half done.
   */
  lemma CompletionCannotFail(s: St, p: Pid, session: Session, parts: Parts)
    requires Reachable(s) && p in s.procs && s.procs[p] == Complete(CoPc.Take(session, parts))
    requires !s.db.hist.ramTouched
    ensures s.db.ram.Some? && session.Complete()
    ensures var c := CheckParts(s.db.ram.value, Etags(session));
            && !c.CountMismatch? && !c.MissingPart?
            && (!s.db.hist.cutMerge ==> c.Passed?)
  {
    ReachableKeeps(s);
    assert PcOk(s.db, p, s.procs[p]);
    var etags := Etags(session);
    assert Covers(parts, session.etags, s.db.hist.cutMerge, Idle);
    forall k | k in parts ensures k in Indices(|etags|) {
    }
    forall k | k in Indices(|etags|) ensures k in parts {
      assert session.etags[k].Some?;
    }
    assert parts.Keys == Indices(|etags|);
    assert |parts| == |parts.Keys|;
    NoneMissing(parts, etags, 0);
    if !s.db.hist.cutMerge {
      CoveredIsExact(parts, session);
      CheckPartsExact(parts, etags);
    }
  }

  /** A record that covers a complete session holds exactly its parts. */
  lemma CoveredIsExact(parts: Parts, c: Session)
    requires c.Complete() && KeysBelow(parts, |c.etags|) && Covers(parts, c.etags, false, Idle)
    ensures Exactly(parts, Etags(c))
  {
    forall i: nat | i < |c.etags| ensures i in parts && parts[i] == Etags(c)[i] {
      assert c.etags[i].Some?;
    }
    forall k | k in parts ensures k in Indices(|c.etags|) {
    }
  }

  lemma {:induction false} NoneMissing(parts: Parts, etags: seq<string>, i: nat)
    requires i <= |etags| && parts.Keys == Indices(|etags|)
    ensures !CheckFrom(parts, etags, i).MissingPart? && !CheckFrom(parts, etags, i).CountMismatch?
    decreases |etags| - i
  {
    if i < |etags| {
      NoneMissing(parts, etags, i + 1);
    }
  }

  // ---- the feed ----

  /** A committed file whose row is gone has its FileDelete in the feed, through both delete paths. */
  lemma GoneFilesAreAnnounced(s: St, acts: seq<Act>)
    requires Reachable(s) && s.db.row.Some?
    requires Run(s, acts).Some? && Run(s, acts).value.db.row.None?
    ensures FileDelete in Run(s, acts).value.db.feed
  {
    ReachableKeeps(s);
    RunKeeps(s, acts);
    RunGrows(s, acts);
  }

  /**
   * Once the session is gone, the committed record is in the feed exactly unless a cancel or an
   * expiry deleted the session while the record was not announced.
   */
  lemma AnnouncedIff(s: St)
    requires Reachable(s) && s.db.row.Some? && s.db.session.None?
    ensures FileCreate(s.db.row.value) in s.db.feed <==> !s.db.hist.lostHandle
  {
    ReachableKeeps(s);
  }

  /**
   * A completion that returns success has committed and leaves no session; the committed record is
   * announced unless its retry handle was lost before, and if the file is gone that is announced.
   */
  lemma RetryConverges(s: St, p: Pid)
    requires Reachable(s) && p in s.procs && s.procs[p] == Complete(Returned)
    ensures s.db.session.None? && s.db.hist.committed
    ensures s.db.row.Some? ==> (FileCreate(s.db.row.value) in s.db.feed <==> !s.db.hist.lostHandle)
    ensures s.db.row.None? ==> FileDelete in s.db.feed
  {
    ReachableKeeps(s);
    assert PcOk(s.db, p, s.procs[p]);
  }

  /** FileCreate is in the feed at most once more than announced completions failed to drop the session. */
  lemma CreatesAreBounded(s: St)
    requires Reachable(s)
    ensures Creates(s.db.feed) <= 1 + s.db.hist.failedDrops
  {
    ReachableKeeps(s);
  }

  /** Once a completion has returned success, no later step of anyone appends another FileCreate. */
  lemma LaterCompletesAppendNothing(s: St, p: Pid, acts: seq<Act>)
    requires Reachable(s) && p in s.procs && s.procs[p] == Complete(Returned)
    requires Run(s, acts).Some?
    ensures Creates(Run(s, acts).value.db.feed) == Creates(s.db.feed)
  {
    ReachableKeeps(s);
    assert PcOk(s.db, p, s.procs[p]);
    RunGrows(s, acts);
  }

  /** A process that announced a delete and still has to drop the row. */
  predicate Dropping(pc: Pc) {
    (pc.Delete? && pc.de.DropRow?) || (pc.Sweep? && pc.sw.FileRow?)
  }

  predicate EndsInDelete(feed: seq<Op>) {
    feed != [] && feed[|feed| - 1] == FileDelete
  }

  /** No delete is in flight, or the last entry is a delete. */
  ghost predicate DeleteLast(s: St, row: Option<Row>) {
    && s.db.session.None? && s.db.hist.bornAt.Some?
    && (EndsInDelete(s.db.feed) || (s.db.row == row && NoneDropping(s.procs)))
  }

  ghost predicate NoneDropping(procs: map<Pid, Pc>) {
    forall p :: p in procs ==> !Dropping(procs[p])
  }

  lemma StaysDelete(d: Db, d': Db)
    requires FeedGrows(d, d') && d.session.None? && d.hist.bornAt.Some? && EndsInDelete(d.feed)
    ensures EndsInDelete(d'.feed)
  {
  }

  /** Without a session the row goes only by a step that follows its own announce. */
  lemma StepDrops(d: Db, p: Pid, pc: Pc, w: World)
    requires PcOk(d, p, pc) && d.session.None? && Step(d, p, pc, w).Taken() && !Dropping(pc)
    ensures var r := Step(d, p, pc, w);
            r.Db(d).row == d.row && (Dropping(r.pc) ==> EndsInDelete(r.Db(d).feed))
  {
  }

  lemma GoKeepsDeleteLast(s: St, p: Pid, w: World, row: Option<Row>)
    requires Inv(s) && DeleteLast(s, row) && Next(s, Go(p, w)).Some?
    ensures DeleteLast(Next(s, Go(p, w)).value, row)
  {
    GoGrows(s, p, w);
    if EndsInDelete(s.db.feed) {
      StaysDelete(s.db, Next(s, Go(p, w)).value.db);
    } else {
      StepDrops(s.db, p, s.procs[p], w);
    }
  }

  /** Whatever is not a step of a process leaves the session row, the file row and the feed alone. */
  lemma OthersLeaveRows(s: St, a: Act)
    requires Next(s, a).Some? && !a.Go?
    ensures var t := Next(s, a).value;
            && t.db.session == s.db.session && t.db.row == s.db.row && t.db.feed == s.db.feed
            && t.db.hist.bornAt == s.db.hist.bornAt
            && (NoneDropping(s.procs) ==> NoneDropping(t.procs))
  {
  }

  lemma NextKeepsDeleteLast(s: St, a: Act, row: Option<Row>)
    requires Inv(s) && DeleteLast(s, row) && Next(s, a).Some?
    ensures DeleteLast(Next(s, a).value, row)
  {
    if a.Go? {
      GoKeepsDeleteLast(s, a.p, a.w, row);
    } else {
      OthersLeaveRows(s, a);
    }
  }

  /**
   * From a state without a session, with no delete in flight or with a delete as the last entry, the
   * last entry for the id agrees with the row: when the row is gone, no FileCreate follows its
   * FileDelete. `UploadFutures.LastEntryIff` shows that no other state promises this.
   */
  lemma {:induction false} LastEntryAgrees(s: St, acts: seq<Act>)
    requires Reachable(s) && s.db.session.None? && s.db.row.Some?
    requires EndsInDelete(s.db.feed) || NoneDropping(s.procs)
    requires Run(s, acts).Some?
    ensures DeleteLast(Run(s, acts).value, s.db.row)
    ensures var d := Run(s, acts).value.db;
            d.row.None? ==> EndsInDelete(d.feed)
    decreases |acts|
  {
    ReachableKeeps(s);
    if acts != [] {
      var before := acts[..|acts| - 1];
      LastEntryAgrees(s, before);
      RunKeeps(s, before);
      NextKeepsDeleteLast(Run(s, before).value, acts[|acts| - 1], s.db.row);
    }
  }

  lemma StepReaches(s: St, a: Act)
    requires Reachable(s) && Next(s, a).Some?
    ensures Reachable(Next(s, a).value)
  {
    assert Run(s, []) == Some(s);
    assert [a][..0] == [];
    assert Run(s, [a]) == Next(s, a);
    ReachableRun(s, [a]);
  }
}
