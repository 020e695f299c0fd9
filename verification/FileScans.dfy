// Two ways to read all file records: the list scan, and draining the paged walk one record at a
// time (src/fs/store.rs, `list_files` and `next_file`).
module FileScans {
  import opened Keys
  import opened KvPages
  import opened RelationKeys
  import opened Wrappers

  const FILE_META_SUFFIX := ":meta"

  /** A stored value is a record, here its number, or bytes that do not decode. */
  datatype Row = Record(record: nat) | Garbled

  type Entry = KeyValue<Row>

  predicate IsMeta(k: string) {
    StartsWith(k, FILES_PREFIX) && EndsWith(k, FILE_META_SUFFIX)
  }

  /**
   * The keys that both scans take for metadata are the record keys of the file ids, and one more that
   * no record is ever stored under, in which the prefix and the suffix share a colon.
   */
  lemma MetaKeysIff(k: string)
    ensures IsMeta(k) <==> (exists id :: k == FileKey(id)) || k == "fs:files:meta"
    ensures forall id :: !IsMeta(RefsKey(id))
  {
    if IsMeta(k) && k != "fs:files:meta" {
      var n, m := |FILES_PREFIX|, |FILE_META_SUFFIX|;
      assert k == k[..|k| - m] + FILE_META_SUFFIX;
      if |k| < n + m {
        SharedColon(k);
      } else {
        assert k == FileKey(k[n..|k| - m]);
      }
    }
    forall id | k == FileKey(id) ensures IsMeta(k) {
      assert k[|k| - |FILE_META_SUFFIX|..] == FILE_META_SUFFIX;
    }
    forall id ensures !IsMeta(RefsKey(id)) {
      var r := RefsKey(id);
      assert r[|r| - 1] == 's' && FILE_META_SUFFIX[4] == 'a';
    }
  }

  lemma SharedColon(k: string)
    requires IsMeta(k) && |k| < |FILES_PREFIX| + |FILE_META_SUFFIX|
    ensures k == "fs:files:meta"
  {
    assert k[..9] == FILES_PREFIX && k[|k| - 5..] == FILE_META_SUFFIX;
    assert k[|k| - 5] == ':' && k[|k| - 4] == 'm';
    assert k[5] == 'l' && k[6] == 'e' && k[7] == 's' && k[8] == ':';
  }

  datatype RecordScan = RecordScan(records: seq<nat>, undecodable: seq<string>)

  datatype FileScan = FileScan(record: Option<nat>, undecodable: seq<string>)

  function RecordOf(e: Entry): seq<nat> {
    if IsMeta(e.key) && e.value.Record? then [e.value.record] else []
  }

  function SkipOf(e: Entry): seq<string> {
    if IsMeta(e.key) && e.value.Garbled? then [e.key] else []
  }

  function Records(es: seq<Entry>): seq<nat> {
    if es == [] then [] else RecordOf(es[0]) + Records(es[1..])
  }

  function Skipped(es: seq<Entry>): seq<string> {
    if es == [] then [] else SkipOf(es[0]) + Skipped(es[1..])
  }

  /** What the entries say, in order. */
  function Collect(es: seq<Entry>): RecordScan {
    RecordScan(Records(es), Skipped(es))
  }

  lemma CollectFrom(es: seq<Entry>, i: nat, records: seq<nat>, skipped: seq<string>)
    requires i < |es|
    ensures records + Records(es[i..]) == (records + RecordOf(es[i])) + Records(es[i + 1..])
    ensures skipped + Skipped(es[i..]) == (skipped + SkipOf(es[i])) + Skipped(es[i + 1..])
    ensures records + [] == records && skipped + [] == skipped
  {
    assert es[i..][0] == es[i] && es[i..][1..] == es[i + 1..];
    Associative(records, RecordOf(es[i]), Records(es[i + 1..]));
    Associative(skipped, SkipOf(es[i]), Skipped(es[i + 1..]));
  }

  lemma Associative<T>(a: seq<T>, b: seq<T>, c: seq<T>)
    ensures a + (b + c) == (a + b) + c
  {
  }

  /** One `next_file` over a walk that has `rest` left, and what it leaves. */
  function ScanFile(rest: seq<Entry>): (r: (FileScan, seq<Entry>))
    ensures r.0.record.Some? ==> |r.1| < |rest|
  {
    if rest == [] then (FileScan(None, []), [])
    else if !IsMeta(rest[0].key) then ScanFile(rest[1..])
    else
      match rest[0].value
      case Record(r) => (FileScan(Some(r), []), rest[1..])
      case Garbled =>
        var (found, left) := ScanFile(rest[1..]);
        (FileScan(found.record, [rest[0].key] + found.undecodable), left)
  }

  /** Calling `next_file` until it brings no record. */
  function Drain(rest: seq<Entry>): RecordScan
    decreases |rest|
  {
    var (found, left) := ScanFile(rest);
    match found.record
    case None => RecordScan([], found.undecodable)
    case Some(r) =>
      var later := Drain(left);
      RecordScan([r] + later.records, found.undecodable + later.undecodable)
  }

  class FileStore {
    const kv: KvStore<Row>

    constructor ()
      ensures fresh(kv) && kv.rows == map[]
    {
      kv := new KvStore<Row>();
    }

    /** Lists all file records, and the keys of the rows that do not decode. */
    method ListFiles() returns (out: RecordScan)
      ensures out == Collect(ScanPrefix(kv.rows, FILES_PREFIX))
    {
      var kvs := ScanPrefix(kv.rows, FILES_PREFIX);
      var records, undecodable, i := [], [], 0;
      while i < |kvs|
        invariant 0 <= i <= |kvs|
        invariant Records(kvs) == records + Records(kvs[i..])
        invariant Skipped(kvs) == undecodable + Skipped(kvs[i..])
      {
        var e := kvs[i];
        CollectFrom(kvs, i, records, undecodable);
        if IsMeta(e.key) {
          match e.value
          case Record(r) => records := records + [r];
          case Garbled => undecodable := undecodable + [e.key];
        }
        i := i + 1;
      }
      out := RecordScan(records, undecodable);
    }

    /**
     * The next file record of a walk over this store, and the keys that the step had to skip. Page
     * reads succeed `pages` times; the one after that fails the step, and what it skipped is not
     * reported.
     */
    method NextFile(scan: KvPages<Row>, pages: nat) returns (out: Result<FileScan, string>)
      requires scan.store == kv
      modifies scan
      ensures (out, scan.View()) == ScanStep(old(scan.View()), kv.rows, pages)
    {
      var undecodable, left := [], pages;
      ghost var start, rows := scan.View(), kv.rows;
      KeepsSkips(start, rows, pages);
      while true
        invariant kv.rows == rows
        invariant ScanStep(start, rows, pages) == Skipping(undecodable, ScanStep(scan.View(), rows, left))
        decreases |Rest(scan.View(), rows)|
      {
        ghost var w := scan.View();
        StepTakesRest(w, rows, SCAN_PAGE);
        var fetches := scan.buffer == [] && !scan.exhausted;
        var got := scan.Next(left == 0);
        if got.Err? { return Err(got.error); }
        SkipsMore(undecodable, w, rows, left);
        if fetches { left := left - 1; }
        if got.value == None { break; }
        var e := got.value.value;
        if IsMeta(e.key) {
          match e.value
          case Record(r) => return Ok(FileScan(Some(r), undecodable));
          case Garbled => undecodable := undecodable + [e.key];
        }
      }
      out := Ok(FileScan(None, undecodable));
    }
  }

  // ---- a step with page reads that may fail ----

  predicate Fetches(w: Walk<Row>) { w.buffer == [] && !w.exhausted }

  /** The outcome with some keys skipped before it; a failure reports none of them. */
  function Skipping(keys: seq<string>, r: (Result<FileScan, string>, Walk<Row>))
    : (Result<FileScan, string>, Walk<Row>)
  {
    match r.0
    case Err(e) => (Err(e), r.1)
    case Ok(found) => (Ok(FileScan(found.record, keys + found.undecodable)), r.1)
  }

  /** One `next_file` over a store that stays, when `pages` page reads succeed. */
  function ScanStep(w: Walk<Row>, rows: Rows<Row>, pages: nat): (Result<FileScan, string>, Walk<Row>)
    decreases |Rest(w, rows)|
  {
    StepTakesRest(w, rows, SCAN_PAGE);
    if Fetches(w) && pages == 0 then (Err("store"), w)
    else
      var (w', got) := WalkStep(w, rows, SCAN_PAGE);
      var left := if Fetches(w) then pages - 1 else pages;
      match got
      case None => (Ok(FileScan(None, [])), w')
      case Some(e) =>
        if IsMeta(e.key) && e.value.Record? then (Ok(FileScan(Some(e.value.record), [])), w')
        else Skipping(SkipOf(e), ScanStep(w', rows, left))
  }

  lemma KeepsSkips(w: Walk<Row>, rows: Rows<Row>, pages: nat)
    ensures ScanStep(w, rows, pages) == Skipping([], ScanStep(w, rows, pages))
  {
    var out := ScanStep(w, rows, pages).0;
    if out.Ok? { assert [] + out.value.undecodable == out.value.undecodable; }
  }

  /** The skipped keys so far, and one more entry of the walk. */
  lemma SkipsMore(keys: seq<string>, w: Walk<Row>, rows: Rows<Row>, pages: nat)
    requires !(Fetches(w) && pages == 0)
    ensures var (w', got) := WalkStep(w, rows, SCAN_PAGE);
            var left := if Fetches(w) then pages - 1 else pages;
            Skipping(keys, ScanStep(w, rows, pages)) ==
            match got
            case None => (Ok(FileScan(None, keys)), w')
            case Some(e) =>
              if IsMeta(e.key) && e.value.Record? then (Ok(FileScan(Some(e.value.record), keys)), w')
              else Skipping(keys + SkipOf(e), ScanStep(w', rows, left))
    ensures keys + [] == keys
  {
    var (w', got) := WalkStep(w, rows, SCAN_PAGE);
    var left := if Fetches(w) then pages - 1 else pages;
    assert keys + [] == keys;
    if got.Some? {
      SkippingTwice(keys, SkipOf(got.value), ScanStep(w', rows, left));
    }
  }

  lemma SkippingTwice(keys: seq<string>, more: seq<string>, r: (Result<FileScan, string>, Walk<Row>))
    ensures Skipping(keys, Skipping(more, r)) == Skipping(keys + more, r)
  {
    if r.0.Ok? { Associative(keys, more, r.0.value.undecodable); }
  }

  /** A step that succeeds brings the next record and every key that it skipped, and goes on right after it. */
  lemma {:induction false} OkStepScans(w: Walk<Row>, rows: Rows<Row>, pages: nat)
    requires ScanStep(w, rows, pages).0.Ok?
    ensures var (out, w') := ScanStep(w, rows, pages); (out.value, Rest(w', rows)) == ScanFile(Rest(w, rows))
    decreases |Rest(w, rows)|
  {
    StepTakesRest(w, rows, SCAN_PAGE);
    var (w', got) := WalkStep(w, rows, SCAN_PAGE);
    var left := if Fetches(w) then pages - 1 else pages;
    if got.Some? && !(IsMeta(got.value.key) && got.value.value.Record?) {
      OkStepScans(w', rows, left);
      if SkipOf(got.value) == [] {
        KeepsSkips(w', rows, left);
      }
    }
  }

  /** A failed step passed the first `n` entries, none of them a record, and the walk stands right after them. */
  ghost predicate Passed(w: Walk<Row>, w': Walk<Row>, rows: Rows<Row>, n: nat) {
    n <= |Rest(w, rows)| && Rest(w', rows) == Rest(w, rows)[n..] && Records(Rest(w, rows)[..n]) == []
  }

  lemma {:induction false} ErrStepPasses(w: Walk<Row>, rows: Rows<Row>, pages: nat) returns (n: nat)
    requires ScanStep(w, rows, pages).0.Err?
    ensures Passed(w, ScanStep(w, rows, pages).1, rows, n)
    decreases |Rest(w, rows)|
  {
    n := 0;
    if Fetches(w) && pages == 0 {
      assert Rest(w, rows)[0..] == Rest(w, rows) && Rest(w, rows)[..0] == [];
    } else {
      ErrStepPassesOne(w, rows, pages);
      var w', left := WalkStep(w, rows, SCAN_PAGE).0, if Fetches(w) then pages - 1 else pages;
      var m := ErrStepPasses(w', rows, left);
      PassOne(Rest(w, rows), Rest(w', rows), m);
      n := m + 1;
    }
  }

  /** A step that fails after its first entry fails as the step from right after that entry. */
  lemma ErrStepPassesOne(w: Walk<Row>, rows: Rows<Row>, pages: nat)
    requires ScanStep(w, rows, pages).0.Err? && !(Fetches(w) && pages == 0)
    ensures var w', left := WalkStep(w, rows, SCAN_PAGE).0, if Fetches(w) then pages - 1 else pages;
            && Rest(w, rows) != [] && Rest(w', rows) == Rest(w, rows)[1..] && RecordOf(Rest(w, rows)[0]) == []
            && ScanStep(w', rows, left) == ScanStep(w, rows, pages)
  {
    StepTakesRest(w, rows, SCAN_PAGE);
  }

  lemma PassOne(rest: seq<Entry>, rest': seq<Entry>, m: nat)
    requires rest != [] && rest' == rest[1..] && m <= |rest'| && Records(rest'[..m]) == [] && RecordOf(rest[0]) == []
    ensures Records(rest[..m + 1]) == [] && rest[m + 1..] == rest'[m..]
  {
    assert rest[..m + 1][0] == rest[0] && rest[..m + 1][1..] == rest'[..m];
  }

  /**
   * A failed step loses no record. It loses keys, those that the entries it passed would have had
   * reported, exactly when one of these entries is a metadata row that does not decode.
   */
  lemma FailedStepLosesIff(w: Walk<Row>, rows: Rows<Row>, pages: nat) returns (n: nat)
    requires ScanStep(w, rows, pages).0.Err?
    ensures var w', rest := ScanStep(w, rows, pages).1, Rest(w, rows);
            && Passed(w, w', rows, n)
            && Records(Rest(w', rows)) == Records(rest)
            && Skipped(rest) == Skipped(rest[..n]) + Skipped(Rest(w', rows))
            && (Skipped(rest[..n]) != [] <==> exists e :: e in rest[..n] && IsMeta(e.key) && e.value.Garbled?)
  {
    n := ErrStepPasses(w, rows, pages);
    var passed, left := Rest(w, rows)[..n], Rest(w, rows)[n..];
    assert passed + left == Rest(w, rows);
    PassedLoses(passed, left);
    SkippedIff(passed);
  }

  lemma PassedLoses(passed: seq<Entry>, left: seq<Entry>)
    requires Records(passed) == []
    ensures Records(left) == Records(passed + left) && Skipped(passed + left) == Skipped(passed) + Skipped(left)
  {
    CollectSplits(passed, left);
    assert [] + Records(left) == Records(left);
  }

  lemma {:induction false} CollectSplits(a: seq<Entry>, b: seq<Entry>)
    ensures Records(a + b) == Records(a) + Records(b) && Skipped(a + b) == Skipped(a) + Skipped(b)
  {
    if a == [] {
      assert a + b == b;
    } else {
      assert (a + b)[0] == a[0] && (a + b)[1..] == a[1..] + b;
      CollectSplits(a[1..], b);
      Associative(RecordOf(a[0]), Records(a[1..]), Records(b));
      Associative(SkipOf(a[0]), Skipped(a[1..]), Skipped(b));
    }
  }

  lemma {:induction false} SkippedIff(es: seq<Entry>)
    ensures Skipped(es) != [] <==> exists e :: e in es && IsMeta(e.key) && e.value.Garbled?
  {
    if es != [] {
      SkippedIff(es[1..]);
      assert es == [es[0]] + es[1..];
    }
  }

  /** One row that does not decode, and a page read that fails after it: its key is not reported. */
  lemma GarbledRowIsLost(k: string)
    requires IsMeta(k)
    ensures var rows := map[k := Garbled]; var (out, w') := ScanStep(Start(), rows, 1);
            && out == Err("store") && Rest(w', rows) == []
            && Skipped(Rest(Start(), rows)) == [k]
  {
    var rows: Rows<Row> := map[k := Garbled];
    OneRow(rows, k);
    assert Rest(Start(), rows) == GetsBytes(rows, None, None);
    StepTakesRest(Start(), rows, SCAN_PAGE);
    FirstFetch(rows);
    var (w, got) := WalkStep(Start(), rows, SCAN_PAGE);
    assert ScanStep(w, rows, 0) == (Err("store"), w);
  }

  lemma OneRow(rows: Rows<Row>, k: string)
    requires rows == map[k := Garbled]
    ensures GetsBytes(rows, None, None) == [KeyValue(k, Garbled)]
  {
    KeyCount(rows);
    GetsBytesEntries(rows, None, None);
    KeysWithinExact(rows, None, None);
    var es := GetsBytes(rows, None, None);
    assert rows.Keys == {k};
    assert |es| == 1 && es[0] in es;
  }

  /** A page that holds the only row leaves an empty buffer, so the next step fetches again. */
  lemma FirstFetch(rows: Rows<Row>)
    requires |GetsBytes(rows, None, None)| == 1
    ensures Fetches(WalkStep(Start(), rows, SCAN_PAGE).0)
  {
  }

  // ---- the two ways agree ----

  lemma {:induction false} ScanFileSplits(rest: seq<Entry>)
    ensures var (found, left) := ScanFile(rest);
            && Records(rest) == Given(found.record) + Records(left)
            && Skipped(rest) == found.undecodable + Skipped(left)
            && (found.record == None ==> left == [])
  {
    if rest != [] {
      var e := rest[0];
      if IsMeta(e.key) && e.value.Record? {
        assert SkipOf(e) == [];
      } else {
        ScanFileSplits(rest[1..]);
        var (found, left) := ScanFile(rest[1..]);
        assert RecordOf(e) == [];
        assert ScanFile(rest).0.undecodable == SkipOf(e) + found.undecodable;
        Associative(SkipOf(e), found.undecodable, Skipped(left));
      }
    }
  }

  /** Draining a walk gives what the entries still to come say. */
  lemma {:induction false} DrainCollects(rest: seq<Entry>)
    ensures Drain(rest) == Collect(rest)
    decreases |rest|
  {
    ScanFileSplits(rest);
    var (found, left) := ScanFile(rest);
    if found.record.Some? {
      DrainCollects(left);
    }
  }

  function Metas(es: seq<Entry>): seq<Entry> {
    if es == [] then [] else (if IsMeta(es[0].key) then [es[0]] else []) + Metas(es[1..])
  }

  lemma {:induction false} CollectMetas(es: seq<Entry>)
    ensures Collect(Metas(es)) == Collect(es)
  {
    if es != [] {
      CollectMetas(es[1..]);
      if IsMeta(es[0].key) {
        assert Metas(es)[0] == es[0] && Metas(es)[1..] == Metas(es[1..]);
      } else {
        assert Metas(es) == Metas(es[1..]) && RecordOf(es[0]) == [] && SkipOf(es[0]) == [];
      }
    }
  }

  ghost predicate InOrder(es: seq<Entry>) { Ascending(KeysOf(es)) }

  lemma TailInOrder(es: seq<Entry>)
    requires InOrder(es) && es != []
    ensures InOrder(es[1..]) && forall e :: e in es[1..] ==> Less(es[0].key, e.key)
  {
    assert KeysOf(es[1..]) == KeysOf(es)[1..];
    forall e | e in es[1..] ensures Less(es[0].key, e.key) {
      var i :| 0 <= i < |es| - 1 && es[1..][i] == e;
      assert Less(KeysOf(es)[0], KeysOf(es)[i + 1]);
    }
  }

  lemma ConsInOrder(e: Entry, es: seq<Entry>)
    requires InOrder(es) && forall d :: d in es ==> Less(e.key, d.key)
    ensures InOrder([e] + es)
  {
    assert KeysOf([e] + es) == [e.key] + KeysOf(es);
    forall k | k in KeysOf(es) ensures Less(e.key, k) {
      var i :| 0 <= i < |es| && KeysOf(es)[i] == k;
      assert es[i] in es;
    }
    PrependAscending(e.key, KeysOf(es));
  }

  /** The metadata entries keep their order, and are exactly those whose key says so. */
  lemma {:induction false} MetasExact(es: seq<Entry>)
    requires InOrder(es)
    ensures InOrder(Metas(es)) && forall e :: e in Metas(es) <==> e in es && IsMeta(e.key)
  {
    if es != [] {
      TailInOrder(es);
      MetasExact(es[1..]);
      assert es == [es[0]] + es[1..];
      if IsMeta(es[0].key) {
        ConsInOrder(es[0], Metas(es[1..]));
      }
    }
  }

  ghost predicate AreEntries(rows: Rows<Row>, es: seq<Entry>, ks: seq<string>) {
    && KeysOf(es) == ks && Ascending(ks)
    && forall e :: e in es <==> e.key in ks && e.key in rows && e.value == rows[e.key]
  }

  lemma GetsBytesEntries(rows: Rows<Row>, from: Option<string>, to: Option<string>)
    ensures AreEntries(rows, GetsBytes(rows, from, to), KeysWithin(rows, from, to))
  {
    var ks, es := KeysWithin(rows, from, to), GetsBytes(rows, from, to);
    KeysWithinExact(rows, from, to);
    forall e ensures e in es <==> e.key in ks && e.key in rows && e.value == rows[e.key] {
      if e.key in ks {
        var i :| 0 <= i < |ks| && ks[i] == e.key;
        assert es[i] in es && es[i].key == e.key;
      }
    }
  }

  lemma SameEntriesInOrder(a: seq<Entry>, b: seq<Entry>)
    requires InOrder(a) && InOrder(b) && forall e :: e in a <==> e in b
    ensures a == b
  {
    forall k ensures k in KeysOf(a) <==> k in KeysOf(b) {
      KeyOfEntry(a, b, k);
      KeyOfEntry(b, a, k);
    }
    AscendingUnique(KeysOf(a), KeysOf(b));
    forall i | 0 <= i < |a| ensures a[i] == b[i] {
      assert a[i] in b;
      var j :| 0 <= j < |b| && b[j] == a[i];
      assert KeysOf(a)[j] == KeysOf(b)[j] == b[j].key == KeysOf(a)[i];
      LessIrreflexive(KeysOf(a)[i]);
    }
  }

  lemma KeyOfEntry(a: seq<Entry>, b: seq<Entry>, k: string)
    requires forall e :: e in a ==> e in b
    ensures k in KeysOf(a) ==> k in KeysOf(b)
  {
    if k in KeysOf(a) {
      var i :| 0 <= i < |a| && KeysOf(a)[i] == k;
      assert a[i] in b;
      var j :| 0 <= j < |b| && b[j] == a[i];
      assert KeysOf(b)[j] == k;
    }
  }

  /** The metadata entries of a range that covers all metadata keys. */
  lemma MetasOfRange(rows: Rows<Row>, from: Option<string>, to: Option<string>)
    requires forall k :: k in rows && IsMeta(k) ==> Within(k, from, to)
    ensures InOrder(Metas(GetsBytes(rows, from, to)))
    ensures forall e :: e in Metas(GetsBytes(rows, from, to)) <==> IsMetaEntry(rows, e)
  {
    var es, ks := GetsBytes(rows, from, to), KeysWithin(rows, from, to);
    GetsBytesEntries(rows, from, to);
    KeysWithinExact(rows, from, to);
    MetasExact(es);
    forall e ensures e in es && IsMeta(e.key) <==> IsMetaEntry(rows, e) {
      assert e.key in ks <==> e.key in rows && Within(e.key, from, to);
    }
  }

  ghost predicate IsMetaEntry(rows: Rows<Row>, e: Entry) {
    e.key in rows && IsMeta(e.key) && e.value == rows[e.key]
  }

  lemma FamilyCoversMetas(rows: Rows<Row>)
    ensures forall k :: k in rows && IsMeta(k) ==> Within(k, Some(FILES_PREFIX), Some(PrefixScanEnd(FILES_PREFIX)))
  {
    forall k | k in rows && IsMeta(k) ensures Within(k, Some(FILES_PREFIX), Some(PrefixScanEnd(FILES_PREFIX))) {
      PrefixRange(FILES_PREFIX, k);
    }
  }

  /** The scan of the key family holds the same metadata rows as the whole keyspace. */
  lemma ScanMissesNothing(rows: Rows<Row>)
    ensures Metas(ScanPrefix(rows, FILES_PREFIX)) == Metas(GetsBytes(rows, None, None))
  {
    FamilyCoversMetas(rows);
    MetasOfRange(rows, Some(FILES_PREFIX), Some(PrefixScanEnd(FILES_PREFIX)));
    MetasOfRange(rows, None, None);
    SameEntriesInOrder(Metas(ScanPrefix(rows, FILES_PREFIX)), Metas(GetsBytes(rows, None, None)));
  }

  /** On a fixed store, draining a new walk reads the same records in the same order, and skips the same keys. */
  lemma DrainIsList(rows: Rows<Row>)
    ensures Drain(Rest(Start(), rows)) == Collect(ScanPrefix(rows, FILES_PREFIX))
  {
    assert Rest(Start(), rows) == GetsBytes(rows, None, None);
    DrainCollects(GetsBytes(rows, None, None));
    CollectMetas(GetsBytes(rows, None, None));
    CollectMetas(ScanPrefix(rows, FILES_PREFIX));
    ScanMissesNothing(rows);
  }

  // ---- what the list holds ----

  /** The entries that decode. */
  function Readable(es: seq<Entry>): seq<Entry> {
    if es == [] then [] else (if es[0].value.Record? then [es[0]] else []) + Readable(es[1..])
  }

  function Unreadable(es: seq<Entry>): seq<Entry> {
    if es == [] then [] else (if es[0].value.Garbled? then [es[0]] else []) + Unreadable(es[1..])
  }

  lemma {:induction false} ReadableExact(es: seq<Entry>)
    requires InOrder(es)
    ensures InOrder(Readable(es)) && InOrder(Unreadable(es))
    ensures forall e :: e in Readable(es) <==> e in es && e.value.Record?
    ensures forall e :: e in Unreadable(es) <==> e in es && e.value.Garbled?
  {
    if es != [] {
      TailInOrder(es);
      ReadableExact(es[1..]);
      assert es == [es[0]] + es[1..];
      if es[0].value.Record? {
        ConsInOrder(es[0], Readable(es[1..]));
      } else {
        ConsInOrder(es[0], Unreadable(es[1..]));
      }
    }
  }

  /** `records` are the records of `good`, one by one. */
  ghost predicate RecordsFrom(records: seq<nat>, good: seq<Entry>) {
    |records| == |good| && forall i :: 0 <= i < |good| ==> good[i].value == Record(records[i])
  }

  lemma {:induction false} CollectReads(es: seq<Entry>)
    requires forall e :: e in es ==> IsMeta(e.key)
    ensures RecordsFrom(Records(es), Readable(es)) && Skipped(es) == KeysOf(Unreadable(es))
  {
    if es != [] {
      var e := es[0];
      assert e in es;
      CollectReads(es[1..]);
      if e.value.Record? {
        assert RecordOf(e) == [e.value.record] && SkipOf(e) == [];
      } else {
        assert RecordOf(e) == [] && SkipOf(e) == [e.key];
        assert KeysOf(Unreadable(es)) == [e.key] + KeysOf(Unreadable(es[1..]));
      }
    }
  }

  /**
   * Every `fs:files:*:meta` key of the store is in exactly one of the two lists, once: the records
   * are those of the readable keys in key order, and the rest are the unreadable keys in key order.
   */
  lemma ListExact(rows: Rows<Row>)
    ensures var out := Collect(ScanPrefix(rows, FILES_PREFIX));
            exists good: seq<string> :: ListedAs(rows, out, good)
  {
    var es, out := ScanPrefix(rows, FILES_PREFIX), Collect(ScanPrefix(rows, FILES_PREFIX));
    var metas := Metas(es);
    FamilyCoversMetas(rows);
    MetasOfRange(rows, Some(FILES_PREFIX), Some(PrefixScanEnd(FILES_PREFIX)));
    CollectMetas(es);
    CollectReads(metas);
    ReadableExact(metas);
    ListedBy(rows, metas, out);
  }

  ghost predicate ListedAs(rows: Rows<Row>, out: RecordScan, good: seq<string>) {
    && Ascending(good) && Ascending(out.undecodable) && |good| == |out.records|
    && (forall k :: k in good <==> k in rows && IsMeta(k) && rows[k].Record?)
    && (forall k :: k in out.undecodable <==> k in rows && IsMeta(k) && rows[k].Garbled?)
    && (forall i :: 0 <= i < |good| ==> good[i] in rows && rows[good[i]] == Record(out.records[i]))
  }

  lemma KeysOfEntries(rows: Rows<Row>, es: seq<Entry>, k: string)
    requires forall e :: e in es ==> e.key in rows && e.value == rows[e.key]
    ensures k in KeysOf(es) <==> k in rows && KeyValue(k, rows[k]) in es
  {
    if k in KeysOf(es) {
      var i :| 0 <= i < |es| && KeysOf(es)[i] == k;
      assert es[i] in es && es[i] == KeyValue(k, rows[k]);
    }
    if k in rows && KeyValue(k, rows[k]) in es {
      var i :| 0 <= i < |es| && es[i] == KeyValue(k, rows[k]);
      assert KeysOf(es)[i] == k;
    }
  }

  lemma ListedBy(rows: Rows<Row>, metas: seq<Entry>, out: RecordScan)
    requires InOrder(Readable(metas)) && InOrder(Unreadable(metas))
    requires forall e :: e in metas <==> IsMetaEntry(rows, e)
    requires forall e :: e in Readable(metas) <==> e in metas && e.value.Record?
    requires forall e :: e in Unreadable(metas) <==> e in metas && e.value.Garbled?
    requires RecordsFrom(out.records, Readable(metas)) && out.undecodable == KeysOf(Unreadable(metas))
    ensures ListedAs(rows, out, KeysOf(Readable(metas)))
  {
    var good := KeysOf(Readable(metas));
    forall k {:trigger k in good}
      ensures k in good <==> k in rows && IsMeta(k) && rows[k].Record?
      ensures k in out.undecodable <==> k in rows && IsMeta(k) && rows[k].Garbled?
    {
      KeysOfEntries(rows, Readable(metas), k);
      KeysOfEntries(rows, Unreadable(metas), k);
      assert k in rows ==> (KeyValue(k, rows[k]) in metas <==> IsMeta(k));
    }
    forall i | 0 <= i < |good| ensures good[i] in rows && rows[good[i]] == Record(out.records[i]) {
      assert Readable(metas)[i] in Readable(metas);
    }
  }
}
