// The invariant of the upload machine, kept by every step of every process.
//
// The proof is rely-guarantee: `Env` says what one process may do to the stores as seen by all the
// others, `Stable` shows that what a process knows survives it, and one lemma per operation shows
// that its steps keep the stores consistent, establish what the process knows next, and obey `Env`.
module UploadInvariant {
  import opened Wrappers
  import opened Multipart
  import opened UploadModel

  /** How many FileCreate entries the feed holds. */
  function Creates(feed: seq<Op>): nat {
    if feed == [] then 0
    else Creates(feed[..|feed| - 1]) + if feed[|feed| - 1].FileCreate? then 1 else 0
  }

  lemma CreatesAppend(feed: seq<Op>, op: Op)
    ensures Creates(feed + [op]) == Creates(feed) + if op.FileCreate? then 1 else 0
    ensures forall o :: o in feed + [op] <==> o in feed || o == op
  {
    assert (feed + [op])[..|feed|] == feed;
  }

  // ---- the stores ----

  ghost predicate Basics(d: Db) {
    var h := d.hist;
    && (h.init.Fresh? ==> h.bornAt.None?)
    && (h.init.Creating? ==> h.bornAt.None? && h.total >= 1)
    && (h.init.Between? ==> h.bornAt.Some? && !h.mpWritten && h.total != 1)
    && (h.bornAt.Some? ==>
          && h.total >= 1 && h.bornAt.value <= d.clock
          && (d.session.Some? <==> !h.dropped))
    && (h.bornAt.None? ==>
          && d.session.None? && d.mp.None? && d.bytes.None? && d.row.None? && d.feed == []
          && !h.committed && !h.mpWritten && !h.dropped && !h.lostHandle)
    && (d.session.Some? ==>
          && d.session.value.total == h.total && |d.session.value.etags| == h.total
          && d.session.value.fileSize == h.size)
    && (d.bytes.Some? ==> h.bornAt.value - TTL_SECS <= d.bytes.value)
    && (d.row.Some? ==> h.committed && d.row.value.size == h.size)
    && (h.crit != Idle ==> d.lock.Some? && d.session.Some?)
  }

  ghost predicate KeysBelow(parts: Parts, n: nat) {
    forall k :: k in parts ==> k < n
  }

  ghost predicate NothingMerged(etags: seq<Option<string>>) {
    forall i :: 0 <= i < |etags| ==> etags[i].None?
  }

  /** Every merged part is in the record, with the same id unless a merge of it is (or was left) half done. */
  ghost predicate Covers(parts: Parts, etags: seq<Option<string>>, cutMerge: bool, crit: Crit) {
    forall i :: 0 <= i < |etags| && etags[i].Some? ==>
      i in parts && (parts[i] == etags[i].value || cutMerge || crit == Merging(i))
  }

  /** The two rows that count the same parts: the record is never short of the session. */
  ghost predicate RecordInv(d: Db) {
    var h := d.hist;
    && (d.mp.Some? ==> h.mpWritten && h.total != 1 && !h.committed && KeysBelow(d.mp.value, h.total))
    && (h.mpWritten ==> h.init.Over?)
    && (h.committed && h.total != 1 ==> h.mpWritten)
    && (d.session.Some? && h.total != 1 && !h.mpWritten ==> NothingMerged(d.session.value.etags))
    && (d.session.Some? && d.mp.Some? ==> Covers(d.mp.value, d.session.value.etags, h.cutMerge, h.crit))
    && (d.mp.Some? && d.session.None? ==> !h.raced.NoRace?)
    && (!h.raced.NoRace? ==> h.bornAt.Some? && h.dropped && h.total != 1 && (h.mpWritten ==> d.mp.Some?))
    && (h.dropped && h.init.Between? ==> !h.raced.NoRace?)
    && (h.raced.ByExpiry? ==> h.raced.age > TTL_SECS)
  }

  /** A merged single part has its bytes, until they are committed or an expiry is under way. */
  ghost predicate PartSafe(d: Db) {
    d.session.Some? && !d.hist.committed ==>
      d.bytes.Some? || d.hist.cutExpiry || d.hist.crit.Expiring?
  }

  ghost predicate BytesInv(d: Db) {
    var h := d.hist;
    && (d.session.Some? && h.total == 1 && |d.session.value.etags| > 0 && d.session.value.etags[0].Some? ==>
          PartSafe(d))
    && (d.row.Some? ==> d.bytes.Some? || h.filePassed || (h.total == 1 && (h.cutCommit || h.cutExpiry)))
    && (h.committed && d.session.Some? ==> h.cutCommit || h.crit.Committing? || h.crit.Announced?)
    && (h.crit.Expiring? ==> h.total == 1)
  }

  ghost predicate FeedInv(d: Db) {
    var h := d.hist;
    && (h.committed && d.row.None? ==> FileDelete in d.feed)
    && Creates(d.feed) <= h.failedDrops + (if d.session.None? || h.crit.Announced? then 1 else 0)
    && (d.session.Some? ==> !h.lostHandle)
    && (d.row.Some? && d.session.None? ==> (FileCreate(d.row.value) in d.feed <==> !h.lostHandle))
  }

  ghost predicate DbInv(d: Db) {
    Basics(d) && RecordInv(d) && BytesInv(d) && FeedInv(d) && d.content <= d.hist.writes
  }

  // ---- what a process knows at each of its program points ----

  /** A key that neither scan named is referenced now only if its session was written after the sweep began. */
  ghost predicate ViewOk(d: Db, v: View) {
    && v.now <= d.clock
    && (!v.listed && v.file.None? && (d.session.Some? || d.row.Some?) ==>
          d.hist.bornAt.Some? && v.now <= d.hist.bornAt.value)
    && (v.file.Some? ==> d.hist.committed)
  }

  ghost predicate RowIsOrGone(d: Db, rec: Row) {
    d.hist.committed && (d.row == Some(rec) || d.row.None?)
  }

  ghost predicate UploadOk(d: Db, pc: UpPc) {
    var h := d.hist;
    match pc
    case Start(i) => true
    case Put => h.bornAt.Some? && h.total == 1
    case Load(i) => h.bornAt.Some? && h.total != 1 && i < h.total
    case Restore(i, _) => h.mpWritten && h.total != 1 && i < h.total
    case Lookup(i) => h.mpWritten && h.total != 1 && i < h.total
    case PutPart(i) => h.mpWritten && h.total != 1 && i < h.total
    case Record(i, _) => h.mpWritten && h.total != 1 && i < h.total
  }

  ghost predicate MergeOk(d: Db, i: nat, e: string, pc: MgPc) {
    var h := d.hist;
    && h.bornAt.Some? && i < h.total
    && (if h.total == 1 then PartSafe(d) else h.mpWritten)
    && match pc
       case Wait => true
       case Read => true
       case LoadRecord(s) => d.session == Some(s) && h.total != 1
       case SaveRecord(s, parts) => d.session == Some(s) && h.total != 1 && d.mp == Some(parts)
       case SaveSession(s, recorded) =>
         && d.session == Some(s)
         && (recorded ==> d.mp.Some? && i in d.mp.value && d.mp.value[i] == e)
         && (!recorded ==> d.mp.None?)
  }

  ghost predicate CompleteOk(d: Db, pc: CoPc) {
    var h := d.hist;
    match pc
    case Wait => true
    case ReadFile => true
    case ReadSession(row) => if row.Some? then RowIsOrGone(d, row.value) else d.row.None?
    case Again(rec) => RowIsOrGone(d, rec) && d.session.Some? && h.cutCommit
    case Load(s) => d.session == Some(s) && s.Complete() && s.Multi() && d.row.None?
    case Restore(s, parts) =>
      d.session == Some(s) && s.Complete() && s.Multi() && d.row.None? && d.mp == Some(parts)
    case Take(s, parts) =>
      && d.session == Some(s) && s.Complete() && s.Multi() && d.row.None? && d.mp == Some(parts)
      && (h.ramTouched || d.ram == Some(parts))
    case Assemble(s) => d.session == Some(s) && s.Complete() && s.Multi() && d.row.None? && d.mp.Some?
    case Failed => true
    case DropRecord(s) =>
      d.session == Some(s) && s.Complete() && s.Multi() && d.row.None? && d.mp.Some? && d.bytes.Some?
    case SaveFile(s) =>
      && d.session == Some(s) && s.Complete() && d.row.None?
      && (s.Multi() ==> d.mp.None? && h.mpWritten && !h.committed && d.bytes.Some?)
    case Announce(rec) => RowIsOrGone(d, rec) && d.session.Some?
    case DropSession(rec) => RowIsOrGone(d, rec) && d.session.Some? && FileCreate(rec) in d.feed
    case Returned => h.bornAt.Some? && d.session.None? && h.committed
  }

  ghost predicate CloseOk(d: Db, why: By, pc: ClPc) {
    && (why.Expire? ==> ViewOk(d, why.v))
    && (!pc.Wait? && !pc.Read? ==>
          d.session == Some(pc.s) && (why.Expire? ==> pc.s.Expired(why.v.now)))
    && match pc
       case DeleteObject(s) => why.Expire? && !s.Multi()
       case DropSession(s) => true
       case Wait => true
       case Read => true
       case _ => pc.s.Multi()
  }

  ghost predicate SweepOk(d: Db, pc: SwPc) {
    match pc
    case Start => true
    case ListSessions(now) => now <= d.clock
    case ListFiles(now, listed) =>
      && now <= d.clock
      && (!listed && d.session.Some? ==> d.hist.bornAt.Some? && now <= d.hist.bornAt.value)
    case SessionPass(v) => ViewOk(d, v)
    case FilePass(v) => ViewOk(d, v)
    case FileBytes(v) => ViewOk(d, v) && d.hist.committed
    case FileAnnounce(v) => ViewOk(d, v) && d.hist.committed
    case FileRow(v) => ViewOk(d, v) && d.hist.committed && FileDelete in d.feed
    case ListKeys(v) => ViewOk(d, v)
    case OrphanPass(v, modified) =>
      && ViewOk(d, v)
      && (modified.Some? ==> d.hist.bornAt.Some? && d.hist.bornAt.value - TTL_SECS <= modified.value)
  }

  ghost predicate DeleteOk(d: Db, pc: DePc) {
    match pc
    case Start => true
    case Announce => d.hist.committed
    case DropRow => d.hist.committed && FileDelete in d.feed
    case DeleteObject => d.hist.committed && (d.row.None? || (d.hist.total == 1 && d.hist.cutCommit))
  }

  ghost predicate PcOk(d: Db, p: Pid, pc: Pc) {
    && (Holds(pc) <==> d.lock == Some(p))
    && (Holds(pc) ==> d.hist.crit == CritOf(pc))
    && (d.hist.init == Creating(p) <==> pc == Init(InitPc.SaveSession))
    && (d.hist.init == Between(p) <==> pc == Init(InitPc.SaveRecord))
    && match pc
       case Init(c) => true
       case Upload(c) => UploadOk(d, c)
       case Merge(i, e, c) => MergeOk(d, i, e, c)
       case Complete(c) => CompleteOk(d, c)
       case Close(why, c) => CloseOk(d, why, c)
       case Sweep(c) => SweepOk(d, c)
       case Delete(c) => DeleteOk(d, c)
       case Done => true
  }

  ghost predicate Inv(s: St) {
    && DbInv(s.db)
    && (s.db.lock.Some? ==> s.db.lock.value in s.procs)
    && (s.db.hist.init.Creating? || s.db.hist.init.Between? ==> s.db.hist.init.pid in s.procs)
    && forall p :: p in s.procs ==> PcOk(s.db, p, s.procs[p])
  }

  // ---- what one process may do to the stores, as seen by all the others ----

  /** The feed is only appended to, and without a session only by deletes. */
  ghost predicate FeedGrows(d: Db, d': Db) {
    && d.feed <= d'.feed
    && (d.session.None? && d.hist.bornAt.Some? ==>
          && Creates(d'.feed) == Creates(d.feed)
          && forall i :: |d.feed| <= i < |d'.feed| ==> d'.feed[i] == FileDelete)
  }

  ghost predicate Env(d: Db, d': Db, p: Pid) {
    var h, h' := d.hist, d'.hist;
    // history and feed only grow
    && d.clock <= d'.clock
    && FeedGrows(d, d')
    && (forall o :: o in d.feed ==> o in d'.feed)
    && (h.bornAt.Some? ==> h'.bornAt == h.bornAt)
    && (h.bornAt.None? && h'.bornAt.Some? ==> h'.bornAt.value == d.clock)
    && (h.init.Fresh? || h'.total == h.total)
    && (h.mpWritten ==> h'.mpWritten)
    && (h.committed ==> h'.committed)
    && (h.cutCommit ==> h'.cutCommit)
    // the two tokens change hands only by their owner
    && (d'.lock == d.lock || (d.lock.None? && d'.lock == Some(p)) || (d.lock == Some(p) && d'.lock.None?))
    && (h'.init == h.init
        || ((h.init.Fresh? || h.init == Creating(p) || h.init == Between(p))
            && (h'.init == Creating(p) || h'.init == Between(p) || h'.init.Over?)))
    // a session row is written once and never comes back; a file row needs a session
    && (d.session.None? && h.bornAt.Some? ==> d'.session.None?)
    && (d'.row == d.row || d'.row.None? ||
        (d.session.Some? && d.lock == Some(p) && (!h.committed || (h.total == 1 && h.cutCommit))))
    && (PartSafe(d) && h.bornAt.Some? ==> PartSafe(d'))
    // a process without the lock leaves the locked rows alone
    && (d.lock != Some(p) && d.lock.Some? ==>
          && h'.crit == h.crit
          && (d.session.Some? ==> d'.session == d.session)
          && (h.mpWritten ==> d'.mp == d.mp)
          && (h.init.Fresh? || d'.ram == d.ram || h'.ramTouched)
          && (h.ramTouched ==> h'.ramTouched)
          && (d.session.Some? && !h.committed && d.bytes.Some? ==> d'.bytes.Some?)
          && h'.committed == h.committed)
  }

  /** What a process knows survives every step of another process. */
  lemma Stable(d: Db, d': Db, p: Pid, q: Pid, pc: Pc)
    requires DbInv(d) && DbInv(d') && PcOk(d, q, pc) && Env(d, d', p) && p != q
    ensures PcOk(d', q, pc)
  {
    StableLock(d, d', p, q, pc);
    match pc
    case Init(c) =>
    case Upload(c) => StableUpload(d, d', p, q, c);
    case Merge(i, e, c) => StableMerge(d, d', p, q, i, e, c);
    case Complete(c) => StableComplete(d, d', p, q, c);
    case Close(why, c) => StableClose(d, d', p, q, why, c);
    case Sweep(c) => StableSweep(d, d', p, q, c);
    case Delete(c) => StableDelete(d, d', p, q, c);
    case Done =>
  }

  /** The lock and the init request stay with their owner, and so does what is half done. */
  lemma StableLock(d: Db, d': Db, p: Pid, q: Pid, pc: Pc)
    requires DbInv(d) && DbInv(d') && PcOk(d, q, pc) && Env(d, d', p) && p != q
    ensures (Holds(pc) <==> d'.lock == Some(q)) && (Holds(pc) ==> d'.hist.crit == CritOf(pc))
    ensures (d'.hist.init == Creating(q) <==> pc == Init(InitPc.SaveSession))
         && (d'.hist.init == Between(q) <==> pc == Init(InitPc.SaveRecord))
  {
  }

  lemma StableUpload(d: Db, d': Db, p: Pid, q: Pid, pc: UpPc)
    requires DbInv(d) && PcOk(d, q, Upload(pc)) && Env(d, d', p)
    ensures UploadOk(d', pc)
  {
  }

  lemma StableClose(d: Db, d': Db, p: Pid, q: Pid, why: By, pc: ClPc)
    requires DbInv(d) && DbInv(d') && PcOk(d, q, Close(why, pc)) && Env(d, d', p) && p != q
    ensures CloseOk(d', why, pc)
  {
  }

  lemma StableSweep(d: Db, d': Db, p: Pid, q: Pid, pc: SwPc)
    requires DbInv(d) && DbInv(d') && PcOk(d, q, Sweep(pc)) && Env(d, d', p)
    ensures SweepOk(d', pc)
  {
  }

  lemma StableDelete(d: Db, d': Db, p: Pid, q: Pid, pc: DePc)
    requires DbInv(d) && DbInv(d') && PcOk(d, q, Delete(pc)) && Env(d, d', p)
    ensures DeleteOk(d', pc)
  {
  }

  lemma StableMerge(d: Db, d': Db, p: Pid, q: Pid, i: nat, e: string, pc: MgPc)
    requires DbInv(d) && DbInv(d') && PcOk(d, q, Merge(i, e, pc)) && Env(d, d', p) && p != q
    ensures MergeOk(d', i, e, pc)
  {
  }

  lemma StableComplete(d: Db, d': Db, p: Pid, q: Pid, pc: CoPc)
    requires DbInv(d) && DbInv(d') && PcOk(d, q, Complete(pc)) && Env(d, d', p) && p != q
    ensures CompleteOk(d', pc)
  {
  }

  // ---- every operation keeps the stores consistent and obeys `Env` ----

  /** A step, unlike a process that ends, cuts nothing short; only the file pass says it passed. */
  ghost predicate Flags(h: Hist, h': Hist, pc': Pc) {
    && h'.cutCommit == h.cutCommit && h'.cutExpiry == h.cutExpiry
    && (h'.filePassed == h.filePassed || (pc'.Sweep? && pc'.sw.FileAnnounce?))
  }

  ghost predicate Kept(d: Db, p: Pid, r: Out) {
    r.Write? ==> DbInv(r.db) && Env(d, r.db, p) && Flags(d.hist, r.db.hist, r.pc)
  }

  /** What the process knows at the point it reaches. */
  ghost predicate Knows(d: Db, p: Pid, r: Out) {
    r.Taken() ==> PcOk(r.Db(d), p, r.pc)
  }

  lemma InitSessionKeeps(d: Db, p: Pid, pc: InitPc, w: World)
    requires DbInv(d) && PcOk(d, p, Init(pc)) && pc.SaveSession?
    ensures Kept(d, p, StepInit(d, p, pc, w))
  {
  }

  lemma InitRecordKeeps(d: Db, p: Pid, pc: InitPc, w: World)
    requires DbInv(d) && PcOk(d, p, Init(pc)) && pc.SaveRecord?
    ensures Kept(d, p, StepInit(d, p, pc, w))
  {
  }

  lemma PutKeeps(d: Db, p: Pid, pc: UpPc, w: World)
    requires DbInv(d) && PcOk(d, p, Upload(pc)) && pc.Put?
    ensures Kept(d, p, StepUpload(d, pc, w))
  {
  }

  lemma RestoreKeeps(d: Db, p: Pid, pc: UpPc, w: World)
    requires DbInv(d) && PcOk(d, p, Upload(pc)) && pc.Restore?
    ensures Kept(d, p, StepUpload(d, pc, w))
  {
  }

  lemma RecordKeeps(d: Db, p: Pid, pc: UpPc, w: World)
    requires DbInv(d) && PcOk(d, p, Upload(pc)) && pc.Record?
    ensures Kept(d, p, StepUpload(d, pc, w))
  {
  }

  lemma UploadKeeps(d: Db, p: Pid, pc: UpPc, w: World)
    requires DbInv(d) && PcOk(d, p, Upload(pc)) && !pc.Put?
    ensures Kept(d, p, StepUpload(d, pc, w))
  {
    if pc.Restore? { RestoreKeeps(d, p, pc, w); }
    if pc.Record? { RecordKeeps(d, p, pc, w); }
  }

  lemma MergeSessionKeeps(d: Db, p: Pid, i: nat, e: string, pc: MgPc)
    requires DbInv(d) && PcOk(d, p, Merge(i, e, pc)) && pc.SaveSession?
    ensures Kept(d, p, StepMerge(d, p, i, e, pc))
  {
  }

  lemma MergeKeeps(d: Db, p: Pid, i: nat, e: string, pc: MgPc)
    requires DbInv(d) && PcOk(d, p, Merge(i, e, pc)) && !pc.SaveSession?
    ensures Kept(d, p, StepMerge(d, p, i, e, pc))
  {
  }

  /** The steps of a completion from the commit on: they touch the file row, the feed or the session. */
  predicate Commits(pc: CoPc) {
    pc.Again? || pc.SaveFile? || pc.Announce? || pc.DropSession? || pc.Returned?
  }

  lemma TakeKeeps(d: Db, p: Pid, pc: CoPc, w: World)
    requires DbInv(d) && PcOk(d, p, Complete(pc)) && (pc.Take? || pc.Restore?)
    ensures Kept(d, p, StepComplete(d, p, pc, w))
  {
  }

  lemma AssembleKeeps(d: Db, p: Pid, pc: CoPc, w: World)
    requires DbInv(d) && PcOk(d, p, Complete(pc)) && (pc.Assemble? || pc.DropRecord?)
    ensures Kept(d, p, StepComplete(d, p, pc, w))
  {
  }

  lemma CompleteKeeps(d: Db, p: Pid, pc: CoPc, w: World)
    requires DbInv(d) && PcOk(d, p, Complete(pc)) && !Commits(pc)
    requires !pc.Take? && !pc.Restore? && !pc.Assemble? && !pc.DropRecord?
    ensures Kept(d, p, StepComplete(d, p, pc, w))
  {
  }

  lemma CommitKeeps(d: Db, p: Pid, pc: CoPc, w: World)
    requires DbInv(d) && PcOk(d, p, Complete(pc)) && Commits(pc)
    ensures Kept(d, p, StepComplete(d, p, pc, w))
  {
    if pc.Again? || pc.Announce? {
      AnnounceKeeps(d, p, pc, w);
    } else if pc.SaveFile? {
      SaveFileKeeps(d, p, pc, w);
    }
  }

  lemma SaveFileKeeps(d: Db, p: Pid, pc: CoPc, w: World)
    requires DbInv(d) && PcOk(d, p, Complete(pc)) && pc.SaveFile?
    ensures Kept(d, p, StepComplete(d, p, pc, w))
  {
  }

  lemma AnnounceKeeps(d: Db, p: Pid, pc: CoPc, w: World)
    requires DbInv(d) && PcOk(d, p, Complete(pc)) && (pc.Again? || pc.Announce?)
    ensures Kept(d, p, StepComplete(d, p, pc, w))
  {
    CreatesAppend(d.feed, FileCreate(pc.rec));
  }

  lemma CloseEnterKeeps(d: Db, p: Pid, why: By, pc: ClPc)
    requires DbInv(d) && PcOk(d, p, Close(why, pc)) && (pc.Wait? || pc.Read?)
    ensures Kept(d, p, StepClose(d, p, why, pc))
  {
  }

  lemma CloseAbortKeeps(d: Db, p: Pid, why: By, pc: ClPc)
    requires DbInv(d) && PcOk(d, p, Close(why, pc)) && (pc.Take? || pc.Abort?)
    ensures Kept(d, p, StepClose(d, p, why, pc))
  {
  }

  lemma CloseKeeps(d: Db, p: Pid, why: By, pc: ClPc)
    requires DbInv(d) && PcOk(d, p, Close(why, pc))
    requires !pc.Wait? && !pc.Read? && !pc.DropSession? && !pc.DeleteObject?
    ensures Kept(d, p, StepClose(d, p, why, pc))
  {
    if pc.Take? || pc.Abort? { CloseAbortKeeps(d, p, why, pc); }
  }

  lemma CloseObjectKeeps(d: Db, p: Pid, why: By, pc: ClPc)
    requires DbInv(d) && PcOk(d, p, Close(why, pc)) && pc.DeleteObject?
    ensures Kept(d, p, StepClose(d, p, why, pc))
  {
  }

  lemma CloseDropKeeps(d: Db, p: Pid, why: By, pc: ClPc)
    requires DbInv(d) && PcOk(d, p, Close(why, pc)) && pc.DropSession?
    ensures Kept(d, p, StepClose(d, p, why, pc))
  {
  }

  lemma SweepFileKeeps(d: Db, p: Pid, pc: SwPc, w: World)
    requires DbInv(d) && PcOk(d, p, Sweep(pc)) && (pc.FileAnnounce? || pc.FileRow?)
    ensures Kept(d, p, StepSweep(d, pc, w))
  {
    if pc.FileAnnounce? {
      CreatesAppend(d.feed, FileDelete);
    }
  }

  lemma SweepBytesKeeps(d: Db, p: Pid, pc: SwPc, w: World)
    requires DbInv(d) && PcOk(d, p, Sweep(pc)) && !pc.FileAnnounce? && !pc.FileRow?
    ensures Kept(d, p, StepSweep(d, pc, w))
  {
    if pc.OrphanPass? { OrphanPassKeeps(d, p, pc, w); }
  }

  lemma OrphanPassKeeps(d: Db, p: Pid, pc: SwPc, w: World)
    requires DbInv(d) && PcOk(d, p, Sweep(pc)) && pc.OrphanPass?
    ensures Kept(d, p, StepSweep(d, pc, w))
  {
  }

  lemma SweepKeeps(d: Db, p: Pid, pc: SwPc, w: World)
    requires DbInv(d) && PcOk(d, p, Sweep(pc))
    ensures Kept(d, p, StepSweep(d, pc, w))
  {
    if pc.FileAnnounce? || pc.FileRow? { SweepFileKeeps(d, p, pc, w); } else { SweepBytesKeeps(d, p, pc, w); }
  }

  lemma DeleteKeeps(d: Db, p: Pid, pc: DePc)
    requires DbInv(d) && PcOk(d, p, Delete(pc))
    ensures Kept(d, p, StepDelete(d, pc))
  {
    if pc.Announce? {
      CreatesAppend(d.feed, FileDelete);
    }
  }

  // ---- every operation establishes what its process knows next ----

  lemma InitKnows(d: Db, p: Pid, pc: InitPc, w: World)
    requires DbInv(d) && PcOk(d, p, Init(pc))
    ensures Knows(d, p, StepInit(d, p, pc, w))
  {
  }

  lemma UploadKnows(d: Db, p: Pid, pc: UpPc, w: World)
    requires DbInv(d) && PcOk(d, p, Upload(pc))
    ensures Knows(d, p, StepUpload(d, pc, w))
  {
  }

  lemma MergeKnows(d: Db, p: Pid, i: nat, e: string, pc: MgPc)
    requires DbInv(d) && PcOk(d, p, Merge(i, e, pc))
    ensures Knows(d, p, StepMerge(d, p, i, e, pc))
  {
  }

  lemma CompleteKnows(d: Db, p: Pid, pc: CoPc, w: World)
    requires DbInv(d) && PcOk(d, p, Complete(pc)) && !Commits(pc) && !pc.Take? && !pc.ReadSession?
    ensures Knows(d, p, StepComplete(d, p, pc, w))
  {
  }

  lemma TakeKnows(d: Db, p: Pid, pc: CoPc, w: World)
    requires DbInv(d) && PcOk(d, p, Complete(pc)) && (pc.Take? || pc.ReadSession?)
    ensures Knows(d, p, StepComplete(d, p, pc, w))
  {
  }

  lemma SaveFileKnows(d: Db, p: Pid, pc: CoPc, w: World)
    requires DbInv(d) && PcOk(d, p, Complete(pc)) && (pc.SaveFile? || pc.Returned?)
    ensures Knows(d, p, StepComplete(d, p, pc, w))
  {
  }

  lemma AnnounceKnows(d: Db, p: Pid, pc: CoPc, w: World)
    requires DbInv(d) && PcOk(d, p, Complete(pc)) && (pc.Again? || pc.Announce?)
    ensures Knows(d, p, StepComplete(d, p, pc, w))
  {
  }

  lemma CommitKnows(d: Db, p: Pid, pc: CoPc, w: World)
    requires DbInv(d) && PcOk(d, p, Complete(pc)) && pc.DropSession?
    ensures Knows(d, p, StepComplete(d, p, pc, w))
  {
  }

  lemma CloseEnterKnows(d: Db, p: Pid, why: By, pc: ClPc)
    requires DbInv(d) && PcOk(d, p, Close(why, pc)) && (pc.Wait? || pc.Read?)
    ensures Knows(d, p, StepClose(d, p, why, pc))
  {
  }

  lemma CloseKnows(d: Db, p: Pid, why: By, pc: ClPc)
    requires DbInv(d) && PcOk(d, p, Close(why, pc)) && !pc.Wait? && !pc.Read? && !pc.DropSession?
    ensures Knows(d, p, StepClose(d, p, why, pc))
  {
  }

  lemma CloseDropKnows(d: Db, p: Pid, why: By, pc: ClPc)
    requires DbInv(d) && PcOk(d, p, Close(why, pc)) && pc.DropSession?
    ensures Knows(d, p, StepClose(d, p, why, pc))
  {
  }

  lemma SweepKnows(d: Db, p: Pid, pc: SwPc, w: World)
    requires DbInv(d) && PcOk(d, p, Sweep(pc))
    ensures Knows(d, p, StepSweep(d, pc, w))
  {
  }

  lemma DeleteKnows(d: Db, p: Pid, pc: DePc)
    requires DbInv(d) && PcOk(d, p, Delete(pc))
    ensures Knows(d, p, StepDelete(d, pc))
  {
  }

  // ---- one step of any process, ends, crashes and the clock ----

  lemma InitStep(d: Db, p: Pid, c: InitPc, w: World)
    requires DbInv(d) && PcOk(d, p, Init(c))
    ensures Kept(d, p, StepInit(d, p, c, w)) && Knows(d, p, StepInit(d, p, c, w))
  {
    if c.SaveSession? { InitSessionKeeps(d, p, c, w); } else { InitRecordKeeps(d, p, c, w); }
    InitKnows(d, p, c, w);
  }

  lemma UploadStep(d: Db, p: Pid, c: UpPc, w: World)
    requires DbInv(d) && PcOk(d, p, Upload(c))
    ensures Kept(d, p, StepUpload(d, c, w)) && Knows(d, p, StepUpload(d, c, w))
  {
    if c.Put? { PutKeeps(d, p, c, w); } else { UploadKeeps(d, p, c, w); }
    UploadKnows(d, p, c, w);
  }

  lemma MergeStep(d: Db, p: Pid, i: nat, e: string, c: MgPc)
    requires DbInv(d) && PcOk(d, p, Merge(i, e, c))
    ensures Kept(d, p, StepMerge(d, p, i, e, c)) && Knows(d, p, StepMerge(d, p, i, e, c))
  {
    if c.SaveSession? { MergeSessionKeeps(d, p, i, e, c); } else { MergeKeeps(d, p, i, e, c); }
    MergeKnows(d, p, i, e, c);
  }

  lemma CompleteStep(d: Db, p: Pid, c: CoPc, w: World)
    requires DbInv(d) && PcOk(d, p, Complete(c))
    ensures Kept(d, p, StepComplete(d, p, c, w)) && Knows(d, p, StepComplete(d, p, c, w))
  {
    if Commits(c) {
      CommitKeeps(d, p, c, w);
      if c.SaveFile? || c.Returned? { SaveFileKnows(d, p, c, w); }
      else if c.DropSession? { CommitKnows(d, p, c, w); }
      else { AnnounceKnows(d, p, c, w); }
    } else {
      if c.Take? || c.Restore? { TakeKeeps(d, p, c, w); }
      else if c.Assemble? || c.DropRecord? { AssembleKeeps(d, p, c, w); }
      else { CompleteKeeps(d, p, c, w); }
      if c.Take? || c.ReadSession? { TakeKnows(d, p, c, w); } else { CompleteKnows(d, p, c, w); }
    }
  }

  lemma CloseStep(d: Db, p: Pid, why: By, c: ClPc)
    requires DbInv(d) && PcOk(d, p, Close(why, c))
    ensures Kept(d, p, StepClose(d, p, why, c)) && Knows(d, p, StepClose(d, p, why, c))
  {
    if c.Wait? || c.Read? { CloseEnterKeeps(d, p, why, c); }
    else if c.DropSession? { CloseDropKeeps(d, p, why, c); }
    else if c.DeleteObject? { CloseObjectKeeps(d, p, why, c); }
    else { CloseKeeps(d, p, why, c); }
    if c.Wait? || c.Read? { CloseEnterKnows(d, p, why, c); }
    else if c.DropSession? { CloseDropKnows(d, p, why, c); }
    else { CloseKnows(d, p, why, c); }
  }

  lemma StepKeeps(d: Db, p: Pid, pc: Pc, w: World)
    requires DbInv(d) && PcOk(d, p, pc)
    ensures Kept(d, p, Step(d, p, pc, w)) && Knows(d, p, Step(d, p, pc, w))
  {
    match pc
    case Init(c) => InitStep(d, p, c, w);
    case Upload(c) => UploadStep(d, p, c, w);
    case Merge(i, e, c) => MergeStep(d, p, i, e, c);
    case Complete(c) => CompleteStep(d, p, c, w);
    case Close(why, c) => CloseStep(d, p, why, c);
    case Sweep(c) => SweepKeeps(d, p, c, w); SweepKnows(d, p, c, w);
    case Delete(c) => DeleteKeeps(d, p, c); DeleteKnows(d, p, c);
    case Done =>
  }

  lemma LeaveKeeps(d: Db, p: Pid, pc: Pc)
    requires DbInv(d) && PcOk(d, p, pc)
    ensures DbInv(Leave(d, pc)) && Env(d, Leave(d, pc), p)
  {
    if pc.Init? {
      assert pc.init.SaveSession? || pc.init.SaveRecord?;
    }
  }

  /** A process that left owns neither the lock nor the init request. */
  ghost predicate Gone(d: Db, p: Pid) {
    d.lock != Some(p) && d.hist.init != Creating(p) && d.hist.init != Between(p)
  }

  lemma LeaveGone(d: Db, p: Pid, pc: Pc)
    requires PcOk(d, p, pc)
    ensures Gone(Leave(d, pc), p)
  {
  }

  lemma BeginKeeps(d: Db, p: Pid, total: nat, size: nat)
    requires DbInv(d) && d.hist.init.Fresh? && total >= 1 && d.lock != Some(p)
    ensures DbInv(Begin(d, p, total, size)) && Env(d, Begin(d, p, total, size), p)
    ensures PcOk(Begin(d, p, total, size), p, Init(InitPc.SaveSession))
  {
  }

  lemma SkipKnows(d: Db, p: Pid, pc: Pc)
    requires DbInv(d) && PcOk(d, p, pc) && SkipTo(pc).Some?
    ensures PcOk(Leave(d, pc), p, SkipTo(pc).value)
  {
  }

  lemma CrashKeeps(d: Db)
    requires DbInv(d)
    ensures var h := CutHist(d.hist);
            DbInv(d.(lock := None, ram := None, hist := if h.init.Fresh? then h else h.(init := Over)))
  {
  }

  /** The processes other than `p`, and `p` where it now stands, still know what they should. */
  lemma OthersKeep(s: St, s': St, p: Pid)
    requires Inv(s) && DbInv(s'.db) && Env(s.db, s'.db, p)
    requires s'.procs.Keys + {p} == s.procs.Keys + {p}
    requires forall q :: q in s.procs && q != p ==> s'.procs[q] == s.procs[q]
    requires p in s'.procs ==> PcOk(s'.db, p, s'.procs[p])
    requires p !in s'.procs ==> Gone(s'.db, p)
    ensures Inv(s')
  {
    forall q | q in s'.procs ensures PcOk(s'.db, q, s'.procs[q]) {
      if q != p {
        assert q in s.procs.Keys + {p};
        Stable(s.db, s'.db, p, q, s.procs[q]);
      }
    }
    forall q | q in s.procs && q != p ensures q in s'.procs {
      assert q in s'.procs.Keys + {p};
    }
  }

  lemma TickKeeps(s: St, to: int)
    requires Inv(s) && Next(s, Tick(to)).Some?
    ensures Inv(Next(s, Tick(to)).value)
  {
    TickHolds(s.db, to);
    forall q | q in s.procs ensures PcOk(s.db.(clock := to), q, s.procs[q]) {
      Stable(s.db, s.db.(clock := to), q + 1, q, s.procs[q]);
    }
  }

  lemma TickHolds(d: Db, to: int)
    requires DbInv(d) && d.clock <= to
    ensures DbInv(d.(clock := to)) && forall p :: Env(d, d.(clock := to), p)
  {
  }

  lemma GoKeeps(s: St, p: Pid, w: World)
    requires Inv(s) && Next(s, Go(p, w)).Some?
    ensures Inv(Next(s, Go(p, w)).value)
  {
    StepKeeps(s.db, p, s.procs[p], w);
    OthersKeep(s, Next(s, Go(p, w)).value, p);
  }

  lemma SkipKeeps(s: St, p: Pid)
    requires Inv(s) && Next(s, Skip(p)).Some?
    ensures Inv(Next(s, Skip(p)).value)
  {
    LeaveKeeps(s.db, p, s.procs[p]);
    SkipKnows(s.db, p, s.procs[p]);
    OthersKeep(s, Next(s, Skip(p)).value, p);
  }

  lemma EndKeeps(s: St, p: Pid)
    requires Inv(s) && Next(s, End(p)).Some?
    ensures Inv(Next(s, End(p)).value)
  {
    LeaveKeeps(s.db, p, s.procs[p]);
    LeaveGone(s.db, p, s.procs[p]);
    OthersKeep(s, Next(s, End(p)).value, p);
  }

  lemma InitUploadKeeps(s: St, p: Pid, total: nat, size: nat)
    requires Inv(s) && Next(s, InitUpload(p, total, size)).Some?
    ensures Inv(Next(s, InitUpload(p, total, size)).value)
  {
    BeginKeeps(s.db, p, total, size);
    OthersKeep(s, Next(s, InitUpload(p, total, size)).value, p);
  }

  lemma ArriveKeeps(s: St, p: Pid, r: Request)
    requires Inv(s) && Next(s, Arrive(p, r)).Some?
    ensures Inv(Next(s, Arrive(p, r)).value)
  {
    var s' := Next(s, Arrive(p, r)).value;
    ArriveHolds(s.db, p, r);
    forall q | q in s'.procs ensures PcOk(s'.db, q, s'.procs[q]) {
    }
  }

  lemma ArriveHolds(d: Db, p: Pid, r: Request)
    requires d.lock != Some(p) && d.hist.init != Creating(p) && d.hist.init != Between(p)
    ensures PcOk(d, p, Entry(r))
  {
  }

  lemma NextKeeps(s: St, a: Act)
    requires Inv(s) && Next(s, a).Some?
    ensures Inv(Next(s, a).value)
  {
    match a
    case Tick(to) => TickKeeps(s, to);
    case InitUpload(p, total, size) => InitUploadKeeps(s, p, total, size);
    case Arrive(p, r) => ArriveKeeps(s, p, r);
    case Go(p, w) => GoKeeps(s, p, w);
    case Skip(p) => SkipKeeps(s, p);
    case End(p) => EndKeeps(s, p);
    case Crash => CrashKeeps(s.db);
  }

  /** What never goes back along a run. */
  ghost predicate Grows(d: Db, d': Db) {
    var h, h' := d.hist, d'.hist;
    && (h.bornAt.Some? ==> h'.bornAt == h.bornAt)
    && (h.committed ==> h'.committed)
    && (d.session.None? && h.bornAt.Some? ==> d'.session.None?)
    && FeedGrows(d, d')
  }

  lemma EnvGrows(d: Db, d': Db, p: Pid)
    requires Env(d, d', p)
    ensures Grows(d, d')
  {
  }

  lemma NextGrows(s: St, a: Act)
    requires Inv(s) && Next(s, a).Some?
    ensures Grows(s.db, Next(s, a).value.db)
  {
    match a
    case Tick(to) =>
    case InitUpload(p, total, size) => BeginKeeps(s.db, p, total, size); EnvGrows(s.db, Begin(s.db, p, total, size), p);
    case Arrive(p, r) =>
    case Go(p, w) => GoGrows(s, p, w);
    case Skip(p) => LeaveGrows(s.db, p, s.procs[p]);
    case End(p) => LeaveGrows(s.db, p, s.procs[p]);
    case Crash =>
  }

  lemma GoGrows(s: St, p: Pid, w: World)
    requires Inv(s) && Next(s, Go(p, w)).Some?
    ensures Grows(s.db, Next(s, Go(p, w)).value.db)
  {
    var r := Step(s.db, p, s.procs[p], w);
    StepKeeps(s.db, p, s.procs[p], w);
    if r.Write? {
      EnvGrows(s.db, r.db, p);
    }
  }

  lemma LeaveGrows(d: Db, p: Pid, pc: Pc)
    requires DbInv(d) && PcOk(d, p, pc)
    ensures Grows(d, Leave(d, pc))
  {
    LeaveKeeps(d, p, pc);
    EnvGrows(d, Leave(d, pc), p);
  }

  lemma GrowsTransitive(d: Db, e: Db, f: Db)
    requires Grows(d, e) && Grows(e, f)
    ensures Grows(d, f)
  {
  }

  lemma {:induction false} RunGrows(s: St, acts: seq<Act>)
    requires Inv(s) && Run(s, acts).Some?
    ensures Grows(s.db, Run(s, acts).value.db)
    decreases |acts|
  {
    if acts != [] {
      var before := acts[..|acts| - 1];
      var mid := Run(s, before).value;
      RunGrows(s, before);
      RunKeeps(s, before);
      NextGrows(mid, acts[|acts| - 1]);
      GrowsTransitive(s.db, mid.db, Run(s, acts).value.db);
    }
  }

  /** The invariant holds after every run of the machine. */
  lemma {:induction false} RunKeeps(s: St, acts: seq<Act>)
    requires Inv(s) && Run(s, acts).Some?
    ensures Inv(Run(s, acts).value)
    decreases |acts|
  {
    if acts != [] {
      RunKeeps(s, acts[..|acts| - 1]);
      NextKeeps(Run(s, acts[..|acts| - 1]).value, acts[|acts| - 1]);
    }
  }

  lemma ReachableKeeps(s: St)
    requires Reachable(s)
    ensures Inv(s)
  {
    var acts: seq<Act> :| Run(START, acts) == Some(s);
    RunKeeps(START, acts);
  }
}
