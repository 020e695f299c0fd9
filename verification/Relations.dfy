// Relations between rows and files, and the reference counts of files: attach, detach, delete, and
// the two listings (src/fs/store.rs), over a store that refines a set of relations.
module Relations {
  import opened Keys
  import opened RelationKeys
  import opened Wrappers

  const U32_MAX: nat := 0xFFFF_FFFF

  type u32 = n: nat | n <= U32_MAX

  datatype RefInfo = RefInfo(count: u32, orphanSince: Option<int>)

  /** A stored value, as far as relations tell values apart. */
  datatype Cell = Marker | Refs(info: RefInfo) | Other

  datatype Op = Attach(x: Rel) | Detach(x: Rel, now: int) | Delete(file: string)

  /** The reference count of a file; a row that does not decode is an error. */
  function ReadRefInfo(rows: Rows<Cell>, file: string): Result<RefInfo, string> {
    if RefsKey(file) !in rows then Ok(RefInfo(0, None))
    else
      match rows[RefsKey(file)]
      case Refs(info) => Ok(info)
      case _ => Err("internal")
  }

  function SaturatingAdd(n: u32): u32 { if n < U32_MAX then n + 1 else n }

  function SaturatingSub(n: u32): u32 { if n > 0 then n - 1 else n }

  function Attached(rows: Rows<Cell>, x: Rel): (Rows<Cell>, Result<u32, string>) {
    match ReadRefInfo(rows, x.file)
    case Err(e) => (rows, Err(e))
    case Ok(info) =>
      if RelKey(x) in rows then (rows, Ok(info.count))
      else
        var count := SaturatingAdd(info.count);
        (rows[RelKey(x) := Marker][RefsKey(x.file) := Refs(RefInfo(count, None))], Ok(count))
  }

  function Detached(rows: Rows<Cell>, x: Rel, now: int): (Rows<Cell>, Result<u32, string>) {
    match ReadRefInfo(rows, x.file)
    case Err(e) => (rows, Err(e))
    case Ok(info) =>
      if RelKey(x) !in rows then (rows, Ok(info.count))
      else
        var count := SaturatingSub(info.count);
        var since := if count == 0 then Some(now) else info.orphanSince;
        ((rows - {RelKey(x)})[RefsKey(x.file) := Refs(RefInfo(count, since))], Ok(count))
  }

  predicate MarksFile(k: string, file: string) {
    StartsWith(k, REL_PREFIX) && EndsWith(k, ":" + file)
  }

  function Deleted(rows: Rows<Cell>, file: string): Rows<Cell> {
    map k | k in rows && !MarksFile(k, file) && k != FileKey(file) && k != RefsKey(file) :: rows[k]
  }

  lemma MarkersScanned(rows: Rows<Cell>, file: string, kvs: seq<string>, gone: set<string>)
    requires kvs == FamilyKeys(rows, REL_PREFIX)
    requires forall j :: 0 <= j < |kvs| && MarksFile(kvs[j], file) ==> kvs[j] in gone
    ensures forall k :: k in rows && MarksFile(k, file) ==> k in gone
  {
    forall k | k in rows && MarksFile(k, file) ensures k in gone {
      FamilyExact(rows, REL_PREFIX, k);
      var j :| 0 <= j < |kvs| && kvs[j] == k;
    }
  }

  function RowIn(k: string, file: string): seq<(string, string)> {
    if MarksFile(k, file) && RowOf(k).Some? then [RowOf(k).value] else []
  }

  /** The rows that the marker keys among `ks` name for a file. */
  function RowsIn(ks: seq<string>, file: string): seq<(string, string)> {
    if ks == [] then [] else RowIn(ks[0], file) + RowsIn(ks[1..], file)
  }

  function FileIn(k: string, prefix: string): set<string> {
    if StartsWith(k, prefix) && GoodFile(k[|prefix|..]) then {k[|prefix|..]} else {}
  }

  function FilesIn(ks: seq<string>, prefix: string): set<string> {
    if ks == [] then {} else FileIn(ks[0], prefix) + FilesIn(ks[1..], prefix)
  }

  function FamilyKeys(rows: Rows<Cell>, prefix: string): seq<string>
    requires prefix != [] && prefix[|prefix| - 1] == ':'
  {
    KeysWithin(rows, Some(prefix), Some(PrefixScanEnd(prefix)))
  }

  lemma FamilyExact(rows: Rows<Cell>, prefix: string, k: string)
    requires prefix != [] && prefix[|prefix| - 1] == ':'
    ensures Ascending(FamilyKeys(rows, prefix))
    ensures StartsWith(k, prefix) ==> (k in FamilyKeys(rows, prefix) <==> k in rows)
    ensures k in FamilyKeys(rows, prefix) ==> k in rows
  {
    KeysWithinExact(rows, Some(prefix), Some(PrefixScanEnd(prefix)));
    PrefixRange(prefix, k);
  }

  class FsStore {
    var rows: Rows<Cell>

    constructor ()
      ensures rows == map[]
    {
      rows := map[];
    }

    /** Attaches a file to a row: the marker and the count in one transaction. */
    method Attach(x: Rel) returns (r: Result<u32, string>)
      modifies this
      ensures (rows, r) == Attached(old(rows), x)
    {
      var read := ReadRefInfo(rows, x.file);
      if read.Err? { return Err(read.error); }
      var info := read.value;
      if RelKey(x) in rows { return Ok(info.count); }
      info := RefInfo(SaturatingAdd(info.count), None);
      rows := rows[RelKey(x) := Marker];
      rows := rows[RefsKey(x.file) := Refs(info)];
      return Ok(info.count);
    }

    method Detach(x: Rel, now: int) returns (r: Result<u32, string>)
      modifies this
      ensures (rows, r) == Detached(old(rows), x, now)
    {
      var read := ReadRefInfo(rows, x.file);
      if read.Err? { return Err(read.error); }
      var info := read.value;
      if RelKey(x) !in rows { return Ok(info.count); }
      rows := rows - {RelKey(x)};
      info := info.(count := SaturatingSub(info.count));
      if info.count == 0 {
        info := info.(orphanSince := Some(now));
      }
      rows := rows[RefsKey(x.file) := Refs(info)];
      return Ok(info.count);
    }

    /** Deletes a file record, its count, and every marker that points at it, in one transaction. */
    method DeleteFile(file: string)
      modifies this
      ensures rows == Deleted(old(rows), file)
    {
      var kvs, tx, i := FamilyKeys(rows, REL_PREFIX), rows, 0;
      ghost var gone: set<string> := {};
      while i < |kvs|
        invariant 0 <= i <= |kvs| && rows == old(rows) && tx == rows - gone
        invariant forall k :: k in gone ==> MarksFile(k, file)
        invariant forall j :: 0 <= j < i && MarksFile(kvs[j], file) ==> kvs[j] in gone
      {
        if MarksFile(kvs[i], file) {
          tx := tx - {kvs[i]};
          gone := gone + {kvs[i]};
        }
        i := i + 1;
      }
      MarkersScanned(rows, file, kvs, gone);
      rows := tx - {FileKey(file)} - {RefsKey(file)};
      assert rows.Keys == Deleted(old(rows), file).Keys;
    }

    /** The rows that reference a file. */
    method RowsForFile(file: string) returns (out: seq<(string, string)>)
      ensures out == RowsIn(FamilyKeys(rows, REL_PREFIX), file)
    {
      var kvs, i := FamilyKeys(rows, REL_PREFIX), 0;
      out := [];
      while i < |kvs|
        invariant 0 <= i <= |kvs|
        invariant RowsIn(kvs, file) == out + RowsIn(kvs[i..], file)
      {
        RowsFrom(kvs, i, out, file);
        if MarksFile(kvs[i], file) {
          var row := RowOf(kvs[i]);
          if row.Some? {
            out := out + [row.value];
          }
        }
        i := i + 1;
      }
    }

    /** The files attached to a row, sorted and without duplicates. */
    method FilesForRow(ty: string, row: string) returns (out: seq<string>)
      ensures out == Sorted(FilesIn(FamilyKeys(rows, RelPrefixForRow(ty, row)), RelPrefixForRow(ty, row)))
    {
      var prefix := RelPrefixForRow(ty, row);
      var kvs, files, i := FamilyKeys(rows, prefix), {}, 0;
      while i < |kvs|
        invariant 0 <= i <= |kvs|
        invariant FilesIn(kvs, prefix) == files + FilesIn(kvs[i..], prefix)
      {
        assert kvs[i..][1..] == kvs[i + 1..];
        if StartsWith(kvs[i], prefix) {
          var file := kvs[i][|prefix|..];
          if file != [] && ':' !in file {
            files := files + {file};
          }
        }
        i := i + 1;
      }
      out := Sorted(files);
    }
  }

  lemma RowsFrom(ks: seq<string>, i: nat, out: seq<(string, string)>, file: string)
    requires i < |ks|
    ensures out + RowsIn(ks[i..], file) == (out + RowIn(ks[i], file)) + RowsIn(ks[i + 1..], file)
    ensures out + [] == out
  {
    assert ks[i..][0] == ks[i] && ks[i..][1..] == ks[i + 1..];
  }

  // ---- the set of markers that a store stands for ----

  function Of(marks: set<Mark>, file: string): set<Mark> {
    set m | m in marks && m.file == file
  }

  /** The stored count is the number of markers, and 0 exactly when the file is marked as orphan. */
  ghost predicate Counted(rows: Rows<Cell>, marks: set<Mark>, file: string) {
    if RefsKey(file) in rows then
      && rows[RefsKey(file)].Refs?
      && var info := rows[RefsKey(file)].info;
         info.count == |Of(marks, file)| && (info.count == 0 <==> info.orphanSince.Some?)
    else Of(marks, file) == {}
  }

  ghost predicate GoodMark(m: Mark) { GoodFile(m.file) && ':' in m.owner }

  /** The relation keys of the store are exactly those of the markers. */
  ghost predicate Marked(rows: Rows<Cell>, marks: set<Mark>) {
    && (forall m :: m in marks ==> GoodMark(m) && MarkKey(m) in rows)
    && (forall k :: k in rows && StartsWith(k, REL_PREFIX) ==> exists m :: m in marks && MarkKey(m) == k)
  }

  ghost predicate Refines(rows: Rows<Cell>, marks: set<Mark>) {
    Marked(rows, marks) && forall file :: GoodFile(file) ==> Counted(rows, marks, file)
  }

  lemma MarkedExactly(rows: Rows<Cell>, marks: set<Mark>, x: Rel)
    requires Marked(rows, marks) && GoodFile(x.file)
    ensures RelKey(x) in rows <==> MarkOf(x) in marks
  {
    RelKeyIsMarkKey(x);
    MarkKeyStarts(MarkOf(x));
    if RelKey(x) in rows {
      var m :| m in marks && MarkKey(m) == RelKey(x);
      MarkKeyInjective(m, MarkOf(x));
    }
  }

  lemma InfoCounts(rows: Rows<Cell>, marks: set<Mark>, file: string)
    requires Counted(rows, marks, file)
    ensures ReadRefInfo(rows, file).Ok? && ReadRefInfo(rows, file).value.count == |Of(marks, file)|
    ensures Of(marks, file) != {} ==> ReadRefInfo(rows, file).value.orphanSince == None
  {
    if Of(marks, file) != {} {
      var m :| m in Of(marks, file);
      assert |Of(marks, file)| > 0;
    }
  }

  /** A change to one file's rows leaves the count of the others. */
  lemma OthersCounted(rows: Rows<Cell>, marks: set<Mark>, rows': Rows<Cell>, marks': set<Mark>, file: string, g: string)
    requires Counted(rows, marks, g) && g != file
    requires forall m: Mark :: m.file != file ==> (m in marks <==> m in marks')
    requires RefsKey(g) in rows' <==> RefsKey(g) in rows
    requires RefsKey(g) in rows ==> rows'[RefsKey(g)] == rows[RefsKey(g)]
    ensures Counted(rows', marks', g)
  {
    assert Of(marks', g) == Of(marks, g);
  }

  lemma AttachMarks(rows: Rows<Cell>, marks: set<Mark>, m: Mark, info: Cell)
    requires Marked(rows, marks) && GoodMark(m)
    ensures Marked(rows[MarkKey(m) := Marker][RefsKey(m.file) := info], marks + {m})
  {
    FileKeysApart(m.file, m.file);
    MarkKeyStarts(m);
    var rows' := rows[MarkKey(m) := Marker][RefsKey(m.file) := info];
    forall k | k in rows' && StartsWith(k, REL_PREFIX) ensures exists n :: n in marks + {m} && MarkKey(n) == k {
      if k == MarkKey(m) {
        assert m in marks + {m};
      } else {
        var n :| n in marks && MarkKey(n) == k;
        assert n in marks + {m};
      }
    }
  }

  lemma CountedAfter(rows: Rows<Cell>, marks: set<Mark>, rows': Rows<Cell>, marks': set<Mark>, m: Mark)
    requires (forall g :: GoodFile(g) ==> Counted(rows, marks, g)) && Counted(rows', marks', m.file)
    requires marks' == marks + {m} || marks' == marks - {m}
    requires forall k :: k != MarkKey(m) && k != RefsKey(m.file) ==> (k in rows' <==> k in rows)
    requires forall k :: k in rows && k in rows' && k != MarkKey(m) && k != RefsKey(m.file) ==> rows'[k] == rows[k]
    ensures forall g :: GoodFile(g) ==> Counted(rows', marks', g)
  {
    forall g | GoodFile(g) ensures Counted(rows', marks', g) {
      FileKeysApart(g, m.file);
      MarkKeyStarts(m);
      if g != m.file { OthersCounted(rows, marks, rows', marks', m.file, g); }
    }
  }

  /** Attaching keeps the refinement as long as the count does not reach the top of its type. */
  lemma AttachRefines(rows: Rows<Cell>, marks: set<Mark>, x: Rel)
    requires Refines(rows, marks) && GoodFile(x.file) && (MarkOf(x) !in marks ==> |Of(marks, x.file)| < U32_MAX)
    ensures Refines(Attached(rows, x).0, marks + {MarkOf(x)})
    ensures Attached(rows, x).1 == Ok(|Of(marks + {MarkOf(x)}, x.file)|)
  {
    var m, rows' := MarkOf(x), Attached(rows, x).0;
    RelKeyIsMarkKey(x);
    MarkedExactly(rows, marks, x);
    InfoCounts(rows, marks, x.file);
    if m in marks {
      assert marks + {m} == marks;
    } else {
      AttachMarks(rows, marks, m, rows'[RefsKey(x.file)]);
      AttachCounts(rows, marks, x);
      CountedAfter(rows, marks, rows', marks + {m}, m);
    }
  }

  lemma AttachCounts(rows: Rows<Cell>, marks: set<Mark>, x: Rel)
    requires Counted(rows, marks, x.file) && |Of(marks, x.file)| < U32_MAX
    requires MarkOf(x) !in marks && RelKey(x) !in rows
    ensures Counted(Attached(rows, x).0, marks + {MarkOf(x)}, x.file)
    ensures Attached(rows, x).1 == Ok(|Of(marks + {MarkOf(x)}, x.file)|)
  {
    InfoCounts(rows, marks, x.file);
    assert Of(marks + {MarkOf(x)}, x.file) == Of(marks, x.file) + {MarkOf(x)};
  }

  /** And exactly as long: past it the count no longer is the number of rows. */
  lemma AttachRefinesIff(rows: Rows<Cell>, marks: set<Mark>, x: Rel)
    requires Refines(rows, marks) && GoodFile(x.file) && MarkOf(x) !in marks
    ensures Refines(Attached(rows, x).0, marks + {MarkOf(x)}) <==> |Of(marks, x.file)| < U32_MAX
  {
    var m := MarkOf(x);
    if |Of(marks, x.file)| < U32_MAX {
      AttachRefines(rows, marks, x);
    } else {
      assert Of(marks + {m}, x.file) == Of(marks, x.file) + {m};
      MarkedExactly(rows, marks, x);
      InfoCounts(rows, marks, x.file);
      assert !Counted(Attached(rows, x).0, marks + {m}, x.file);
    }
  }

  lemma DetachMarks(rows: Rows<Cell>, marks: set<Mark>, m: Mark, file: string, info: Cell)
    requires Marked(rows, marks) && GoodMark(m)
    ensures Marked((rows - {MarkKey(m)})[RefsKey(file) := info], marks - {m})
  {
    FileKeysApart(file, file);
    var rows' := (rows - {MarkKey(m)})[RefsKey(file) := info];
    forall n | n in marks - {m} ensures MarkKey(n) in rows' {
      if MarkKey(n) == MarkKey(m) { MarkKeyInjective(m, n); }
    }
    forall k | k in rows' && StartsWith(k, REL_PREFIX) ensures exists n :: n in marks - {m} && MarkKey(n) == k {
      var n :| n in marks && MarkKey(n) == k;
      assert n in marks - {m};
    }
  }

  lemma DetachRefines(rows: Rows<Cell>, marks: set<Mark>, x: Rel, now: int)
    requires Refines(rows, marks) && GoodFile(x.file)
    ensures Refines(Detached(rows, x, now).0, marks - {MarkOf(x)})
    ensures Detached(rows, x, now).1 == Ok(|Of(marks - {MarkOf(x)}, x.file)|)
  {
    var m, rows' := MarkOf(x), Detached(rows, x, now).0;
    RelKeyIsMarkKey(x);
    MarkedExactly(rows, marks, x);
    InfoCounts(rows, marks, x.file);
    if m !in marks {
      assert marks - {m} == marks;
    } else {
      DetachMarks(rows, marks, m, x.file, rows'[RefsKey(x.file)]);
      assert Of(marks - {m}, x.file) == Of(marks, x.file) - {m};
      assert m in Of(marks, x.file);
      CountedAfter(rows, marks, rows', marks - {m}, m);
    }
  }

  /**
   * Detach is the one operation that takes any file id. It keeps the counts exactly when the id holds
   * no colon, or when no marker has the key: else the key is that of another file, whose marker goes
   * while its count stays.
   */
  lemma DetachRefinesIff(rows: Rows<Cell>, marks: set<Mark>, x: Rel, now: int)
    requires Refines(rows, marks) && ReadRefInfo(rows, x.file).Ok?
    ensures (exists left :: Refines(Detached(rows, x, now).0, left)) <==> GoodFile(x.file) || RelKey(x) !in rows
  {
    if GoodFile(x.file) {
      DetachRefines(rows, marks, x, now);
    } else if RelKey(x) in rows {
      forall left ensures !Refines(Detached(rows, x, now).0, left) {
        ForeignDetachMiscounts(rows, marks, x, now, left);
      }
    } else {
      assert Refines(Detached(rows, x, now).0, marks);
    }
  }

  lemma ForeignDetachMiscounts(rows: Rows<Cell>, marks: set<Mark>, x: Rel, now: int, left: set<Mark>)
    requires Refines(rows, marks) && !GoodFile(x.file) && RelKey(x) in rows && ReadRefInfo(rows, x.file).Ok?
    ensures !Refines(Detached(rows, x, now).0, left)
  {
    var rows' := Detached(rows, x, now).0;
    RelKeyIsMarkKey(x);
    MarkKeyStarts(MarkOf(x));
    var m :| m in marks && MarkKey(m) == RelKey(x);
    assert m in Of(marks, m.file);
    FileKeysApart(m.file, x.file);
    if Refines(rows', left) {
      var info := rows'[RefsKey(x.file)];
      DetachMarks(rows, marks, m, x.file, info);
      SameMarks(rows', marks - {m}, left);
      assert Of(marks - {m}, m.file) == Of(marks, m.file) - {m};
      InfoCounts(rows, marks, m.file);
      InfoCounts(rows', left, m.file);
    }
  }

  lemma SameMarks(rows: Rows<Cell>, a: set<Mark>, b: set<Mark>)
    requires Marked(rows, a) && Marked(rows, b)
    ensures a == b
  {
    forall m | m in a ensures m in b {
      MarkKeyStarts(m);
      var n :| n in b && MarkKey(n) == MarkKey(m);
      MarkKeyInjective(m, n);
    }
    forall m | m in b ensures m in a {
      MarkKeyStarts(m);
      var n :| n in a && MarkKey(n) == MarkKey(m);
      MarkKeyInjective(m, n);
    }
  }

  function Without(marks: set<Mark>, file: string): set<Mark> {
    set m | m in marks && m.file != file
  }

  lemma DeleteRefines(rows: Rows<Cell>, marks: set<Mark>, file: string)
    requires Refines(rows, marks) && GoodFile(file)
    ensures Refines(Deleted(rows, file), Without(marks, file))
  {
    var rows', marks' := Deleted(rows, file), Without(marks, file);
    FileKeysApart(file, file);
    forall m | m in marks' ensures MarkKey(m) in rows' {
      MarkKeySuffix(m, file);
      MarkKeyStarts(m);
    }
    forall k | k in rows' && StartsWith(k, REL_PREFIX) ensures exists m :: m in marks' && MarkKey(m) == k {
      var m :| m in marks && MarkKey(m) == k;
      MarkKeySuffix(m, file);
      assert m in marks';
    }
    forall g | GoodFile(g) ensures Counted(rows', marks', g) {
      FileKeysApart(g, file);
      FileKeysApart(file, g);
      if g == file {
        assert Of(marks', file) == {};
      } else {
        OthersCounted(rows, marks, rows', marks', file, g);
      }
    }
  }

  // ---- whole runs ----

  function StepRows(rows: Rows<Cell>, op: Op): Rows<Cell> {
    match op
    case Attach(x) => Attached(rows, x).0
    case Detach(x, now) => Detached(rows, x, now).0
    case Delete(file) => Deleted(rows, file)
  }

  function StepMarks(marks: set<Mark>, op: Op): set<Mark> {
    match op
    case Attach(x) => marks + {MarkOf(x)}
    case Detach(x, _) => marks - {MarkOf(x)}
    case Delete(file) => Without(marks, file)
  }

  function RunRows(ops: seq<Op>): Rows<Cell> {
    if ops == [] then map[] else StepRows(RunRows(ops[..|ops| - 1]), ops[|ops| - 1])
  }

  function RunMarks(ops: seq<Op>): set<Mark> {
    if ops == [] then {} else StepMarks(RunMarks(ops[..|ops| - 1]), ops[|ops| - 1])
  }

  /** Row types and row ids are free; file ids are good. */
  predicate GoodOp(op: Op) {
    match op
    case Attach(x) => GoodFile(x.file)
    case Detach(x, _) => GoodFile(x.file)
    case Delete(file) => GoodFile(file)
  }

  /** No file ever has more rows than the count can hold. */
  ghost predicate Fits(ops: seq<Op>) {
    forall i, file :: 0 <= i <= |ops| ==> |Of(RunMarks(ops[..i]), file)| <= U32_MAX
  }

  lemma {:induction false} RunRefines(ops: seq<Op>)
    requires (forall op :: op in ops ==> GoodOp(op)) && Fits(ops)
    ensures Refines(RunRows(ops), RunMarks(ops))
  {
    if ops != [] {
      var before, op := ops[..|ops| - 1], ops[|ops| - 1];
      assert op in ops;
      forall i, file | 0 <= i <= |before| ensures |Of(RunMarks(before[..i]), file)| <= U32_MAX {
        assert before[..i] == ops[..i];
      }
      RunRefines(before);
      assert ops[..|ops|] == ops && RunMarks(ops) == StepMarks(RunMarks(before), op);
      assert op.Attach? ==> |Of(RunMarks(ops[..|ops|]), op.x.file)| <= U32_MAX;
      StepRefines(RunRows(before), RunMarks(before), op);
    }
  }

  lemma AttachFits(rows: Rows<Cell>, marks: set<Mark>, x: Rel)
    requires Refines(rows, marks) && GoodFile(x.file) && |Of(marks + {MarkOf(x)}, x.file)| <= U32_MAX
    ensures Refines(Attached(rows, x).0, marks + {MarkOf(x)})
  {
    if MarkOf(x) !in marks {
      assert Of(marks + {MarkOf(x)}, x.file) == Of(marks, x.file) + {MarkOf(x)};
    }
    AttachRefines(rows, marks, x);
  }

  lemma StepRefines(rows: Rows<Cell>, marks: set<Mark>, op: Op)
    requires Refines(rows, marks) && GoodOp(op)
    requires op.Attach? ==> |Of(marks + {MarkOf(op.x)}, op.x.file)| <= U32_MAX
    ensures Refines(StepRows(rows, op), StepMarks(marks, op))
  {
    match op
    case Attach(x) => AttachFits(rows, marks, x);
    case Detach(x, now) => DetachRefines(rows, marks, x, now);
    case Delete(file) => DeleteRefines(rows, marks, file);
  }

  // ---- since when a file has no row ----

  /** When the last row of a file was taken off; none while it has a row, or if it never had one. */
  function OrphanedAt(ops: seq<Op>, file: string): Option<int> {
    if ops == [] then None
    else
      var before := ops[..|ops| - 1];
      match ops[|ops| - 1]
      case Attach(x) => if x.file == file then None else OrphanedAt(before, file)
      case Detach(x, now) =>
        if Of(RunMarks(before), file) == {MarkOf(x)} then Some(now) else OrphanedAt(before, file)
      case Delete(g) => if g == file then None else OrphanedAt(before, file)
  }

  /** An operation on one file leaves the count row of any other. */
  lemma StepLeavesRefs(rows: Rows<Cell>, op: Op, file: string)
    requires GoodFile(file) && GoodOp(op) && file != if op.Delete? then op.file else op.x.file
    ensures ReadRefInfo(StepRows(rows, op), file) == ReadRefInfo(rows, file)
  {
    var g := if op.Delete? then op.file else op.x.file;
    FileKeysApart(file, g);
    if !op.Delete? {
      RelKeyIsMarkKey(op.x);
      MarkKeyStarts(MarkOf(op.x));
    }
  }

  lemma AttachStamps(rows: Rows<Cell>, marks: set<Mark>, x: Rel)
    requires Refines(rows, marks) && GoodFile(x.file)
    ensures ReadRefInfo(Attached(rows, x).0, x.file).Ok?
    ensures ReadRefInfo(Attached(rows, x).0, x.file).value.orphanSince == None
  {
    InfoCounts(rows, marks, x.file);
    MarkedExactly(rows, marks, x);
    if RelKey(x) in rows {
      assert MarkOf(x) in Of(marks, x.file);
    }
  }

  lemma DetachStamps(rows: Rows<Cell>, marks: set<Mark>, x: Rel, now: int)
    requires Refines(rows, marks) && GoodFile(x.file)
    ensures ReadRefInfo(Detached(rows, x, now).0, x.file).Ok?
    ensures ReadRefInfo(Detached(rows, x, now).0, x.file).value.orphanSince ==
            if Of(marks, x.file) == {MarkOf(x)} then Some(now) else ReadRefInfo(rows, x.file).value.orphanSince
  {
    InfoCounts(rows, marks, x.file);
    MarkedExactly(rows, marks, x);
    if MarkOf(x) in marks {
      assert MarkOf(x) in Of(marks, x.file);
      var rest := Of(marks, x.file) - {MarkOf(x)};
      assert |rest| == |Of(marks, x.file)| - 1;
      assert rest == {} <==> Of(marks, x.file) == {MarkOf(x)};
    } else {
      assert Of(marks, x.file) != {MarkOf(x)};
    }
  }

  lemma StepStamps(ops: seq<Op>, op: Op, file: string)
    requires Refines(RunRows(ops), RunMarks(ops)) && GoodOp(op) && GoodFile(file)
    requires ReadRefInfo(RunRows(ops), file).Ok?
    requires ReadRefInfo(RunRows(ops), file).value.orphanSince == OrphanedAt(ops, file)
    ensures var r := ReadRefInfo(StepRows(RunRows(ops), op), file);
            r.Ok? && r.value.orphanSince == OrphanedAt(ops + [op], file)
  {
    var rows, marks := RunRows(ops), RunMarks(ops);
    assert (ops + [op])[..|ops|] == ops;
    if file != if op.Delete? then op.file else op.x.file {
      StepLeavesRefs(rows, op, file);
      assert op.Detach? ==> MarkOf(op.x) !in Of(marks, file);
    } else {
      match op
      case Attach(x) => AttachStamps(rows, marks, x);
      case Detach(x, now) => DetachStamps(rows, marks, x, now);
      case Delete(g) =>
    }
  }

  /** The stored reference info of a file is, after any run, its number of markers and the time its last one went. */
  lemma {:induction false} RefInfoExact(ops: seq<Op>, file: string)
    requires (forall op :: op in ops ==> GoodOp(op)) && Fits(ops) && GoodFile(file)
    ensures var r := ReadRefInfo(RunRows(ops), file);
            r.Ok? && r.value.count == |Of(RunMarks(ops), file)| && r.value.orphanSince == OrphanedAt(ops, file)
  {
    RunRefines(ops);
    InfoCounts(RunRows(ops), RunMarks(ops), file);
    if ops != [] {
      var before, op := ops[..|ops| - 1], ops[|ops| - 1];
      assert op in ops && forall i :: 0 <= i <= |before| ==> before[..i] == ops[..i];
      RefInfoExact(before, file);
      RunRefines(before);
      StepStamps(before, op, file);
      assert before + [op] == ops;
    }
  }

  // ---- the two listings ----

  function RowsListed(rows: Rows<Cell>, file: string): seq<(string, string)> {
    RowsIn(FamilyKeys(rows, REL_PREFIX), file)
  }

  function FilesListed(rows: Rows<Cell>, ty: string, row: string): seq<string> {
    Sorted(FilesIn(FamilyKeys(rows, RelPrefixForRow(ty, row)), RelPrefixForRow(ty, row)))
  }

  ghost predicate Distinct<T>(s: seq<T>) {
    forall i, j :: 0 <= i < j < |s| ==> s[i] != s[j]
  }

  lemma {:induction false} DistinctSize<T>(s: seq<T>, all: set<T>)
    requires Distinct(s) && forall x :: x in s <==> x in all
    ensures |s| == |all|
  {
    if s == [] {
      assert all == {};
    } else {
      var last, rest := s[|s| - 1], s[..|s| - 1];
      assert s == rest + [last];
      DistinctSize(rest, all - {last});
    }
  }

  /** `picked` lists the first two segments of the owners of `ms`. */
  ghost predicate ListsRows(picked: seq<(string, string)>, ms: seq<Mark>) {
    |picked| == |ms| && forall i :: 0 <= i < |ms| ==> picked[i] == FirstTwo(ms[i].owner)
  }

  /** Some keys of the store, in order, and the markers of a file among them. */
  lemma {:induction false} RowsInExact(ks: seq<string>, file: string, marks: set<Mark>) returns (ms: seq<Mark>)
    requires Ascending(ks) && GoodFile(file) && forall m :: m in marks ==> GoodMark(m)
    requires forall k :: k in ks && StartsWith(k, REL_PREFIX) ==> exists m :: m in marks && MarkKey(m) == k
    ensures ListsRows(RowsIn(ks, file), ms) && Distinct(ms)
    ensures forall m :: m in ms <==> m in Of(marks, file) && MarkKey(m) in ks
  {
    ms := [];
    if ks != [] {
      var k := ks[0];
      assert k in ks && ks == [k] + ks[1..];
      ms := RowsInExact(ks[1..], file, marks);
      if StartsWith(k, REL_PREFIX) {
        var m :| m in marks && MarkKey(m) == k;
        MarkKeySuffix(m, file);
        RowOfMark(m);
        TailOfAscending(ks, k);
        if m.file == file {
          ms := [m] + ms;
        }
        forall n | n in marks && MarkKey(n) == k ensures n == m { MarkKeyInjective(m, n); }
      } else {
        forall n | n in marks ensures MarkKey(n) != k { MarkKeyStarts(n); }
      }
    }
  }

  /** The markers behind a listing, one for each entry. */
  lemma MarksListed(rows: Rows<Cell>, marks: set<Mark>, file: string) returns (ms: seq<Mark>)
    requires Marked(rows, marks) && GoodFile(file)
    ensures ListsRows(RowsListed(rows, file), ms) && Distinct(ms)
    ensures forall m :: m in ms <==> m in Of(marks, file)
  {
    var ks := FamilyKeys(rows, REL_PREFIX);
    KeysWithinExact(rows, Some(REL_PREFIX), Some(PrefixScanEnd(REL_PREFIX)));
    ms := RowsInExact(ks, file, marks);
    forall m | m in Of(marks, file) ensures MarkKey(m) in ks {
      MarkKeyStarts(m);
      FamilyExact(rows, REL_PREFIX, MarkKey(m));
    }
  }

  /** `rows_for_file` lists the first two segments of each marker of the file; the count is their number. */
  lemma RowsForFileExact(rows: Rows<Cell>, marks: set<Mark>, file: string)
    requires Refines(rows, marks) && GoodFile(file)
    ensures forall ty, row :: (ty, row) in RowsListed(rows, file) <==>
              exists m :: m in Of(marks, file) && FirstTwo(m.owner) == (ty, row)
    ensures ReadRefInfo(rows, file).Ok? && ReadRefInfo(rows, file).value.count == |RowsListed(rows, file)|
  {
    var ms := MarksListed(rows, marks, file);
    DistinctSize(ms, Of(marks, file));
    InfoCounts(rows, marks, file);
    var listed := RowsListed(rows, file);
    forall ty, row ensures (ty, row) in listed <==>
                           exists m :: m in Of(marks, file) && FirstTwo(m.owner) == (ty, row)
    {
      if (ty, row) in listed {
        var i :| 0 <= i < |listed| && listed[i] == (ty, row);
        assert ms[i] in ms;
      }
      if m :| m in Of(marks, file) && FirstTwo(m.owner) == (ty, row) {
        assert m in ms;
        var i :| 0 <= i < |ms| && ms[i] == m;
        assert listed[i] == (ty, row);
      }
    }
  }

  lemma {:induction false} FilesInExact(ks: seq<string>, prefix: string, file: string)
    ensures file in FilesIn(ks, prefix) <==> exists k :: k in ks && file in FileIn(k, prefix)
  {
    if ks != [] {
      FilesInExact(ks[1..], prefix, file);
      assert ks == [ks[0]] + ks[1..];
      if file in FilesIn(ks, prefix) && file !in FileIn(ks[0], prefix) {
        var k :| k in ks[1..] && file in FileIn(k, prefix);
        assert k in ks;
      }
    }
  }

  /** `files_for_row` lists the files with a marker of exactly that row, each once and in order. */
  lemma FilesForRowExact(rows: Rows<Cell>, marks: set<Mark>, ty: string, row: string)
    requires Marked(rows, marks)
    ensures Ascending(FilesListed(rows, ty, row))
    ensures forall file :: file in FilesListed(rows, ty, row) <==> Mark(OwnerOf(ty, row), file) in marks
  {
    var prefix := RelPrefixForRow(ty, row);
    SortedExact(FilesIn(FamilyKeys(rows, prefix), prefix));
    forall file ensures file in FilesListed(rows, ty, row) <==> Mark(OwnerOf(ty, row), file) in marks {
      FileListedIff(rows, marks, ty, row, file);
    }
  }

  lemma FileListedIff(rows: Rows<Cell>, marks: set<Mark>, ty: string, row: string, file: string)
    requires Marked(rows, marks)
    ensures var prefix := RelPrefixForRow(ty, row);
            file in FilesIn(FamilyKeys(rows, prefix), prefix) <==> Mark(OwnerOf(ty, row), file) in marks
  {
    var m, prefix := Mark(OwnerOf(ty, row), file), RelPrefixForRow(ty, row);
    var ks := FamilyKeys(rows, prefix);
    FilesInExact(ks, prefix, file);
    if m in marks {
      MarkKeyRow(m, ty, row);
      FamilyExact(rows, prefix, MarkKey(m));
      assert file in FileIn(MarkKey(m), prefix);
    }
    if file in FilesIn(ks, prefix) {
      var k :| k in ks && file in FileIn(k, prefix);
      FamilyExact(rows, prefix, k);
      MarkerNamesFile(rows, marks, ty, row, k);
    }
  }

  /** A key from which the listing of a row takes a file is the marker of that row and file. */
  lemma MarkerNamesFile(rows: Rows<Cell>, marks: set<Mark>, ty: string, row: string, k: string)
    requires Marked(rows, marks) && k in rows && FileIn(k, RelPrefixForRow(ty, row)) != {}
    ensures Mark(OwnerOf(ty, row), k[|RelPrefixForRow(ty, row)|..]) in marks
  {
    var prefix := RelPrefixForRow(ty, row);
    assert k[..|REL_PREFIX|] == prefix[..|REL_PREFIX|] == REL_PREFIX;
    var m :| m in marks && MarkKey(m) == k;
    MarkKeyRow(m, ty, row);
  }

  /**
   * After any run of attach, detach and delete, with any row types and row ids: the stored count of
   * a file is the number of rows that `rows_for_file` lists, it is 0 exactly when the file is marked
   * as orphan, and `files_for_row` lists exactly what was attached to that row and not taken off.
   */
  lemma RunAgrees(ops: seq<Op>, x: Rel)
    requires (forall op :: op in ops ==> GoodOp(op)) && Fits(ops) && GoodFile(x.file)
    ensures var rows := RunRows(ops);
            && ReadRefInfo(rows, x.file).Ok?
            && ReadRefInfo(rows, x.file).value.count == |RowsListed(rows, x.file)|
            && (RefsKey(x.file) in rows ==>
                 (RowsListed(rows, x.file) == [] <==> ReadRefInfo(rows, x.file).value.orphanSince.Some?))
            && (x.file in FilesListed(rows, x.ty, x.row) <==> MarkOf(x) in RunMarks(ops))
  {
    RunRefines(ops);
    RowsForFileExact(RunRows(ops), RunMarks(ops), x.file);
    FilesForRowExact(RunRows(ops), RunMarks(ops), x.ty, x.row);
  }

  /** An owner that is one row type and one row id. */
  predicate PlainOwner(owner: string) {
    owner == OwnerOf(FirstTwo(owner).0, FirstTwo(owner).1)
  }

  lemma PlainOwnerIff(x: Rel)
    ensures PlainOwner(MarkOf(x).owner) <==> Plain(x)
  {
    RelKeyIsMarkKey(x);
    FirstTwoPlain(OwnerOf(x.ty, x.row));
    if Plain(x) {
      FirstTwoOf(x.ty, x.row);
    }
    if PlainOwner(OwnerOf(x.ty, x.row)) {
      var (ty, row) := FirstTwo(OwnerOf(x.ty, x.row));
      SameOwner(Rel(ty, row, x.file), x);
    }
  }

  /** For one file the two listings agree on every row. */
  ghost predicate Inverse(rows: Rows<Cell>, file: string) {
    forall ty, row :: (ty, row) in RowsListed(rows, file) <==> file in FilesListed(rows, ty, row)
  }

  /**
   * The two listings are inverse exactly when no row type and no row id that the file is attached to
   * holds a colon.
   */
  lemma InverseIff(rows: Rows<Cell>, marks: set<Mark>, file: string)
    requires Refines(rows, marks) && GoodFile(file)
    ensures Inverse(rows, file) <==> forall m :: m in Of(marks, file) ==> PlainOwner(m.owner)
  {
    RowsForFileExact(rows, marks, file);
    if forall m :: m in Of(marks, file) ==> PlainOwner(m.owner) {
      forall ty, row ensures (ty, row) in RowsListed(rows, file) <==> file in FilesListed(rows, ty, row) {
        FilesForRowExact(rows, marks, ty, row);
        var m := Mark(OwnerOf(ty, row), file);
        if m in marks {
          PlainOwnerIff(Rel(ty, row, file));
          FirstTwoOf(ty, row);
          assert m in Of(marks, file);
        }
        if n :| n in Of(marks, file) && FirstTwo(n.owner) == (ty, row) {
          assert n == m;
        }
      }
    } else {
      var m :| m in Of(marks, file) && !PlainOwner(m.owner);
      NotInverse(rows, marks, m);
    }
  }

  /** An owner that is not plain reads as a row whose id holds a colon. */
  lemma UnplainRow(owner: string) returns (ty: string, row: string)
    requires ':' in owner && !PlainOwner(owner)
    ensures owner == OwnerOf(ty, row) && ':' in row
  {
    FirstTwoPlain(owner);
    var (t, first) := FirstTwo(owner);
    var more :| owner == OwnerOf(t, first + (":" + more));
    ty, row := t, first + (":" + more);
    assert row[|first|] == ':';
  }

  lemma NotInverse(rows: Rows<Cell>, marks: set<Mark>, m: Mark)
    requires Marked(rows, marks) && m in marks && !PlainOwner(m.owner)
    ensures !Inverse(rows, m.file)
  {
    var ty, row := UnplainRow(m.owner);
    FilesForRowExact(rows, marks, ty, row);
    assert m.file in FilesListed(rows, ty, row);
    if (ty, row) in RowsListed(rows, m.file) {
      RowsInPlain(FamilyKeys(rows, REL_PREFIX), m.file, ty, row);
    }
  }

  /** Over a whole run: with plain rows only, each relation is listed from both sides. */
  lemma PlainRunInverse(ops: seq<Op>, file: string)
    requires (forall op :: op in ops ==> GoodOp(op)) && Fits(ops) && GoodFile(file)
    requires forall op :: op in ops && op.Attach? ==> Plain(op.x)
    ensures Inverse(RunRows(ops), file)
  {
    RunRefines(ops);
    PlainMarks(ops);
    InverseIff(RunRows(ops), RunMarks(ops), file);
  }

  lemma {:induction false} PlainMarks(ops: seq<Op>)
    requires forall op :: op in ops && op.Attach? ==> Plain(op.x)
    ensures forall m :: m in RunMarks(ops) ==> PlainOwner(m.owner)
  {
    if ops != [] {
      var before, op := ops[..|ops| - 1], ops[|ops| - 1];
      assert op in ops;
      PlainMarks(before);
      if op.Attach? {
        PlainOwnerIff(op.x);
      }
    }
  }

  // ---- what a colon does ----

  lemma {:induction false} RowsInHolds(ks: seq<string>, file: string, k: string)
    requires k in ks && MarksFile(k, file) && RowOf(k).Some?
    ensures RowOf(k).value in RowsIn(ks, file)
  {
    if ks[0] != k {
      assert ks == [ks[0]] + ks[1..];
      RowsInHolds(ks[1..], file, k);
    }
  }

  lemma {:induction false} RowsInPlain(ks: seq<string>, file: string, ty: string, row: string)
    requires (ty, row) in RowsIn(ks, file)
    ensures ':' !in ty && ':' !in row
  {
    if (ty, row) in RowIn(ks[0], file) {
      assert ":" == [':'];
      var body := ks[0][|REL_PREFIX|..];
      SplitAtJoins(body, ':');
      SplitAtJoins(SplitOnce(body).value.1, ':');
    } else {
      RowsInPlain(ks[1..], file, ty, row);
    }
  }

  /**
   * After an attach, on any store, the file's listing names the row exactly when neither its type nor
   * its id holds a colon. What the listing always names are the first two segments of both.
   */
  lemma AttachListedIff(rows: Rows<Cell>, x: Rel)
    requires Attached(rows, x).1.Ok?
    ensures var listed := RowsListed(Attached(rows, x).0, x.file);
            && ((x.ty, x.row) in listed <==> Plain(x))
            && FirstTwo(OwnerOf(x.ty, x.row)) in listed
  {
    var rows' := Attached(rows, x).0;
    var k, ks := RelKey(x), FamilyKeys(rows', REL_PREFIX);
    RelKeyIsMarkKey(x);
    RowOfMark(MarkOf(x));
    RowOfRelKeyIff(x);
    FamilyExact(rows', REL_PREFIX, k);
    assert k == (REL_PREFIX + OwnerOf(x.ty, x.row)) + (":" + x.file);
    RowsInHolds(ks, x.file, k);
    if (x.ty, x.row) in RowsIn(ks, x.file) {
      RowsInPlain(ks, x.file, x.ty, x.row);
    }
  }

  /** A row id with a colon: the file is listed under the row whose id ends there, and not under its own. */
  lemma RowIdColonMisread(rows: Rows<Cell>, ty: string, short: string, rest: string, file: string)
    requires ':' !in ty && ':' !in short && Attached(rows, Rel(ty, short + (":" + rest), file)).1.Ok?
    ensures var x := Rel(ty, short + (":" + rest), file);
            var listed := RowsListed(Attached(rows, x).0, file);
            (ty, short) in listed && (ty, x.row) !in listed
  {
    var x := Rel(ty, short + (":" + rest), file);
    assert x.row[|short|] == ':';
    AttachListedIff(rows, x);
    FirstTwoOf(ty, short);
  }

  /** In the store alone a colon in a file id does the like: the marker of `x:y` reads as one of `y`. */
  lemma ColonInFileIdMisread(x: Rel, before: string, file: string)
    requires Plain(x) && x.file == before + (":" + file)
    ensures (x.ty, x.row) in RowsListed(Attached(map[], x).0, file)
  {
    var rows, k := Attached(map[], x).0, RelKey(x);
    RelKeyIsMarkKey(x);
    RowOfRelKeyIff(x);
    assert k == (REL_PREFIX + (OwnerOf(x.ty, x.row) + (":" + before))) + (":" + file);
    FamilyExact(rows, REL_PREFIX, k);
    assert k in rows && MarksFile(k, file);
    RowsInHolds(FamilyKeys(rows, REL_PREFIX), file, k);
  }
}
