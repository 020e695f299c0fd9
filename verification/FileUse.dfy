// One file between its upload machine and the relations: the file pass reads the reference count
// that attach and detach keep, and a dropped file row takes the count and the markers with it
// (src/fs/gc.rs, src/fs/store.rs).
module FileUse {
  import opened Wrappers
  import opened Keys
  import opened RelationKeys
  import R = Relations
  import opened UploadModel
  import opened UploadHistory

  /** The upload machine of a file, and the operations that the relation rows went through. */
  datatype Joint = Joint(up: St, ops: seq<R.Op>)

  datatype JAct = Up(a: Act) | Use(op: R.Op)

  function RowsOf(s: Joint): Rows<R.Cell> { R.RunRows(s.ops) }

  /** The file pass of a sweep is at a file that it listed, about to read its count. */
  predicate AtCount(s: St, a: Act) {
    && a.Go? && a.p in s.procs && s.procs[a.p].Sweep? && s.procs[a.p].sw.FilePass? && s.procs[a.p].sw.v.file.Some?
  }

  /** What the file pass reads is what is stored. */
  predicate Reads(s: Joint, file: string, a: Act) {
    AtCount(s.up, a) ==>
      var r := R.ReadRefInfo(RowsOf(s), file);
      r.Ok? && r.value.count == a.w.refs && r.value.orphanSince == a.w.orphanSince
  }

  /** The transaction that drops the file row drops its count and its markers. */
  predicate DropsRow(s: St, a: Act) {
    a.Go? && a.p in s.procs && (s.procs[a.p] == Delete(DropRow) || (s.procs[a.p].Sweep? && s.procs[a.p].sw.FileRow?))
  }

  function JNext(file: string, s: Joint, j: JAct): Option<Joint> {
    match j
    case Use(op) => if op == R.Delete(file) then None else Some(s.(ops := s.ops + [op]))
    case Up(a) =>
      if !Reads(s, file, a) then None
      else
        match Next(s.up, a)
        case None => None
        case Some(t) => Some(Joint(t, if DropsRow(s.up, a) then s.ops + [R.Delete(file)] else s.ops))
  }

  function JRun(file: string, js: seq<JAct>): Option<Joint>
    decreases |js|
  {
    if js == [] then Some(Joint(START, []))
    else match JRun(file, js[..|js| - 1])
      case None => None
      case Some(mid) => JNext(file, mid, js[|js| - 1])
  }

  /** File ids are good, and no file has more rows than its count can hold. */
  ghost predicate Sound(s: Joint) {
    (forall op :: op in s.ops ==> R.GoodOp(op)) && R.Fits(s.ops)
  }

  lemma SoundBefore(s: Joint, t: Joint)
    requires Sound(t) && s.ops <= t.ops
    ensures Sound(s)
  {
    forall i, g | 0 <= i <= |s.ops| ensures |R.Of(R.RunMarks(s.ops[..i]), g)| <= R.U32_MAX {
      assert |R.Of(R.RunMarks(t.ops[..i]), g)| <= R.U32_MAX;
      assert s.ops[..i] == t.ops[..i];
    }
    forall op | op in s.ops ensures R.GoodOp(op) {
      var i :| 0 <= i < |s.ops| && s.ops[i] == op;
      assert t.ops[i] == op && op in t.ops;
    }
  }

  lemma JRunEnds(file: string, js: seq<JAct>) returns (before: seq<JAct>, s: Joint, j: JAct)
    requires js != [] && JRun(file, js).Some?
    ensures js == before + [j] && |before| < |js| && JRun(file, before) == Some(s)
    ensures JNext(file, s, j) == JRun(file, js) && s.ops <= JRun(file, js).value.ops
    ensures js[..|before|] == before && js[|before|] == j
    ensures forall i :: 0 <= i <= |before| ==> js[..i] == before[..i]
  {
    before, j := js[..|js| - 1], js[|js| - 1];
    s := JRun(file, before).value;
  }

  /** The upload side of a joint run is a run of the upload machine. */
  lemma {:induction false} JRunReaches(file: string, js: seq<JAct>) returns (acts: seq<Act>)
    requires JRun(file, js).Some?
    ensures Run(START, acts) == Some(JRun(file, js).value.up)
    decreases |js|
  {
    if js == [] {
      acts := [];
    } else {
      var before, s, j := JRunEnds(file, js);
      acts := JRunReaches(file, before);
      if j.Up? {
        var all := acts + [j.a];
        assert all[..|all| - 1] == acts;
        acts := all;
      }
    }
  }

  /** Since when a listed file is without a row. */
  function IdleSince(s: Joint, file: string, rec: Row): int {
    var at := R.OrphanedAt(s.ops, file);
    if at.Some? then at.value else rec.createdAt
  }

  /** The read of the count by the sweep of `p`, in the state after the first `k` actions. */
  ghost predicate SawUnused(file: string, js: seq<JAct>, k: nat, p: Pid, v: View) {
    && k < |js| && JRun(file, js[..k]).Some? && js[k].Up? && js[k].a.Go? && js[k].a.p == p
    && var m := JRun(file, js[..k]).value;
       && p in m.up.procs && m.up.procs[p] == Sweep(SwPc.FilePass(v)) && v.file.Some?
       && R.RowsListed(RowsOf(m), file) == []
       && v.now - IdleSince(m, file, v.file.value) > TTL_SECS
  }

  /** What a sweep that goes on to the bytes has read is an empty list of rows. */
  lemma ReadsUnused(s: Joint, file: string, a: Act, v: View)
    requires Sound(s) && GoodFile(file) && Reads(s, file, a) && AtCount(s.up, a)
    requires s.up.procs[a.p] == Sweep(SwPc.FilePass(v))
    ensures a.w.refs == |R.RowsListed(RowsOf(s), file)|
    ensures UnusedSince(a.w, v.file.value) == IdleSince(s, file, v.file.value)
  {
    R.RefInfoExact(s.ops, file);
    R.RunAgrees(s.ops, Rel("", "", file));
  }

  /**
   * The file pass goes on to the bytes of a listed file exactly when `rows_for_file` lists no row of
   * it at that moment, and at the start of the sweep its last row was gone, or if it never had one
   * it was created, more than the TTL ago.
   */
  lemma SweepTakesIff(file: string, s: Joint, a: Act)
    requires Sound(s) && GoodFile(file) && AtCount(s.up, a) && Reads(s, file, a)
    ensures var v, t := s.up.procs[a.p].sw.v, JNext(file, s, Up(a));
            && t.Some? && t.value.up.db == s.up.db && t.value.ops == s.ops
            && t.value.up.procs[a.p] ==
               Sweep(if R.RowsListed(RowsOf(s), file) == [] && v.now - IdleSince(s, file, v.file.value) > TTL_SECS
                     then FileBytes(v) else ListKeys(v))
  {
    var v := s.up.procs[a.p].sw.v;
    ReadsUnused(s, file, a, v);
    FilePassTakesIff(s.up, a.p, v, a.w);
  }

  lemma SawOn(file: string, before: seq<JAct>, j: JAct, k: nat, p: Pid, v: View)
    requires SawUnused(file, before, k, p, v)
    ensures SawUnused(file, before + [j], k, p, v)
  {
    assert (before + [j])[..k] == before[..k];
  }

  /**
   * Over every joint run: a sweep that is to delete the bytes of a file read its count at a moment at
   * which `rows_for_file` listed nothing. A file that is listed at that read is never deleted.
   */
  lemma {:induction false} ListedFileIsSpared(file: string, js: seq<JAct>, p: Pid, v: View) returns (k: nat)
    requires JRun(file, js).Some? && Sound(JRun(file, js).value) && GoodFile(file)
    requires p in JRun(file, js).value.up.procs && JRun(file, js).value.up.procs[p] == Sweep(FileBytes(v))
    ensures SawUnused(file, js, k, p, v)
    decreases |js|
  {
    var before, s, j := JRunEnds(file, js);
    SoundBefore(s, JRun(file, js).value);
    if j.Up? { CameFrom(s.up, j.a, p); }
    if j.Up? && j.a.Go? && j.a.p == p {
      ReachesFileBytes(s.up.db, p, s.up.procs[p], j.a.w, v);
      ReadsUnused(s, file, j.a, v);
      k := |before|;
    } else {
      k := ListedFileIsSpared(file, before, p, v);
      SawOn(file, before, j, k, p, v);
    }
  }

  /**
   * An attach that lands between that read and the delete is not seen: the file is listed for its
   * row, and the next step of the sweep deletes its bytes all the same.
   */
  lemma AttachAfterRead(file: string, s: Joint, p: Pid, v: View, x: Rel, w: World)
    requires Sound(s) && GoodFile(file) && x.file == file
    requires Sound(s.(ops := s.ops + [R.Attach(x)]))
    requires p in s.up.procs && s.up.procs[p] == Sweep(FileBytes(v))
    ensures var t := JNext(file, s, Use(R.Attach(x)));
            && t.Some? && R.RowsListed(RowsOf(t.value), file) != []
            && var u := JNext(file, t.value, Up(Go(p, w)));
               && u.Some? && u.value.up.db.bytes.None? && u.value.up.db.row == s.up.db.row
               && R.RowsListed(RowsOf(u.value), file) != []
  {
    AttachLists(s, x);
    BytesGo(file, s.(ops := s.ops + [R.Attach(x)]), p, v, w);
  }

  lemma AttachLists(s: Joint, x: Rel)
    requires Sound(s.(ops := s.ops + [R.Attach(x)])) && GoodFile(x.file)
    ensures R.RowsListed(RowsOf(s.(ops := s.ops + [R.Attach(x)])), x.file) != []
  {
    var ops := s.ops + [R.Attach(x)];
    assert ops[..|ops| - 1] == s.ops;
    R.RunAgrees(ops, x);
    R.RefInfoExact(ops, x.file);
    assert MarkOf(x) in R.Of(R.RunMarks(ops), x.file);
  }

  lemma BytesGo(file: string, s: Joint, p: Pid, v: View, w: World)
    requires p in s.up.procs && s.up.procs[p] == Sweep(FileBytes(v))
    ensures var u := JNext(file, s, Up(Go(p, w)));
            u.Some? && u.value.ops == s.ops && u.value.up.db.bytes.None? && u.value.up.db.row == s.up.db.row
  {
  }
}
