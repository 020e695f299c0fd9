// A whole upload: init, the parts in any order and any number of times, and the completion
// (src/fs/mod.rs).
module UploadWhole {
  import opened Wrappers
  import opened UploadModel
  import opened UploadInvariant
  import opened UploadTheorems
  import opened UploadAlone

  /** The init request, from its start: both rows are to be written. */
  function Inited(s: St, p: Pid, total: nat, size: nat): St {
    St(Begin(s.db, p, total, size), s.procs[p := Init(InitPc.SaveSession)])
  }

  /** An init alone leaves a session with no part merged, and for a multipart upload an empty record. */
  lemma InitsAlone(s: St, p: Pid, total: nat, size: nat, w: World) returns (d: Db)
    requires p !in s.procs && s.db.hist.init.Fresh? && total >= 1 && w.at <= s.db.clock
    ensures Next(s, InitUpload(p, total, size)) == Some(Inited(s, p, total, size))
    ensures Leads(Inited(s, p, total, size), p, d, Done)
    ensures d.session == Some(Session(size, total, w.at, seq(total, _ => None)))
    ensures d.hist.bornAt == Some(s.db.clock) && d.hist.cutMerge == s.db.hist.cutMerge
    ensures d.lock == s.db.lock && d.row == s.db.row && d.bytes == s.db.bytes && d.feed == s.db.feed
    ensures d.clock == s.db.clock
    ensures total != 1 ==> d.mp == Some(map[]) && d.backend == Open
  {
    var a := Inited(s, p, total, size);
    Stays(a, p);
    var pc: Pc;
    d, pc := Goes(a, p, a.db, Init(InitPc.SaveSession), w);
    if total != 1 {
      d, pc := Goes(a, p, d, pc, w);                    // save_multipart
    }
  }

  /** A request that went on alone in an idle server has ended. */
  lemma EndsIdle(s: St, p: Pid, d: Db)
    requires Reachable(s) && s.procs.Keys == {p} && Leads(s, p, d, Done)
    ensures Reachable(St(d, map[]))
  {
    LeadsReaches(s, p, d, Done);
    var t := St(d, s.procs[p := Done]);
    assert t.procs - {p} == map[];
    StepReaches(t, End(p));
  }

  lemma DoneReaches(d0: Db, r: Request, d: Db)
    requires Reachable(St(d0, map[])) && Does(St(d0, map[]), 0, r, d)
    ensures Reachable(St(d, map[]))
  {
    StepReaches(St(d0, map[]), Arrive(0, r));
    EndsIdle(Arrived(St(d0, map[]), 0, r), 0, d);
  }

  /** An upload of which exactly the parts in `merged` are merged, and nothing else went on. */
  ghost predicate Uploading(d: Db, n: nat, size: nat, merged: seq<nat>) {
    && d.lock.None? && d.row.None? && d.feed == [] && d.clock == 0
    && d.hist.bornAt == Some(0) && !d.hist.cutMerge
    && d.session.Some? && d.session.value.total == n == |d.session.value.etags| && d.session.value.fileSize == size
    && (forall j: nat :: j < n ==> (d.session.value.etags[j].Some? <==> j in merged))
    && (n != 1 ==> d.mp.Some? && d.backend.Open?)
    && (n == 1 && merged != [] ==> d.bytes.Some?)
  }

  lemma Opens(n: nat, size: nat) returns (d: Db)
    requires n >= 1
    ensures Reachable(St(d, map[])) && Uploading(d, n, size, [])
  {
    assert Run(START, []) == Some(START);
    d := InitsAlone(START, 0, n, size, NOW);
    StepReaches(START, InitUpload(0, n, size));
    EndsIdle(Inited(START, 0, n, size), 0, d);
  }

  lemma UploadsNext(d0: Db, n: nat, size: nat, merged: seq<nat>, i: nat, tag: string) returns (d: Db)
    requires Reachable(St(d0, map[])) && Uploading(d0, n, size, merged) && i < n
    ensures Reachable(St(d, map[])) && Uploading(d, n, size, merged + [i])
  {
    var s, c := St(d0, map[]), d0.session.value;
    if n == 1 {
      d := UploadsSingleAlone(s, 0, c, NOW);
    } else {
      d := UploadsAlone(s, 0, c, d0.mp.value, i, NOW.(etag := tag));
    }
    DoneReaches(d0, UploadPart(i), d);
  }

  lemma {:induction false} UploadsAll(n: nat, size: nat, order: seq<nat>, tags: seq<string>) returns (d: Db)
    requires n >= 1 && |tags| == |order| && forall i :: i in order ==> i < n
    ensures Reachable(St(d, map[])) && Uploading(d, n, size, order)
    decreases |order|
  {
    if order == [] {
      d := Opens(n, size);
    } else {
      var last := |order| - 1;
      assert order == order[..last] + [order[last]];
      assert order[last] in order && forall i :: i in order[..last] ==> i in order;
      d := UploadsAll(n, size, order[..last], tags[..last]);
      d := UploadsNext(d, n, size, order[..last], order[last], tags[last]);
    }
  }

  /** For every number of parts, the parts in any order, some of them repeatedly, make the session complete. */
  lemma AnyOrderIsComplete(n: nat, size: nat, order: seq<nat>, tags: seq<string>) returns (d: Db)
    requires n >= 1 && |tags| == |order| && forall i: nat :: i in order <==> i < n
    ensures Reachable(St(d, map[])) && Uploading(d, n, size, order)
    ensures d.session.Some? && d.session.value.Complete()
  {
    d := UploadsAll(n, size, order, tags);
  }

  /**
   * ... and the completion then commits: a file row of the declared size, its object, exactly one
   * entry in the feed, and no session left.
   */
  lemma AnyOrderCommits(n: nat, size: nat, order: seq<nat>, tags: seq<string>, name: string) returns (d: Db)
    requires n >= 1 && |tags| == |order| && forall i: nat :: i in order <==> i < n
    ensures Reachable(St(d, map[]))
    ensures d.row == Some(Row(name, size, 0)) && d.bytes.Some? && d.session.None? && d.lock.None?
    ensures d.feed == [FileCreate(Row(name, size, 0))]
  {
    var d0 := AnyOrderIsComplete(n, size, order, tags);
    var s, w := St(d0, map[]), NOW.(name := name);
    assert 0 in order;
    if n == 1 {
      d := CompletesSingleAlone(s, 0, w);
    } else {
      d := CompletesAlone(s, 0, w);
    }
    assert d.feed == [] + [FileCreate(Row(name, size, 0))];
    DoneReaches(d0, CompleteUpload, d);
  }
}
