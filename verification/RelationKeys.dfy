// The keys of relations between rows and files (src/fs/relation.rs), and how they are told apart.
module RelationKeys {
  import opened Keys
  import opened Wrappers

  const REL_PREFIX := "fs:rel:"
  const FILES_PREFIX := "fs:files:"

  /** A row of some type that references a file. */
  datatype Rel = Rel(ty: string, row: string, file: string)

  /** What a marker key says: the text of type and row, which may hold more colons, and the file. */
  datatype Mark = Mark(owner: string, file: string)

  function OwnerOf(ty: string, row: string): string { ty + (":" + row) }

  function MarkOf(x: Rel): Mark { Mark(OwnerOf(x.ty, x.row), x.file) }

  function RelPrefixForRow(ty: string, row: string): string {
    REL_PREFIX + (ty + (":" + (row + ":")))
  }

  function RelKey(x: Rel): string {
    REL_PREFIX + (x.ty + (":" + (x.row + (":" + x.file))))
  }

  function RefsKey(file: string): string { FILES_PREFIX + (file + ":refs") }

  function FileKey(file: string): string { FILES_PREFIX + (file + ":meta") }

  function MarkKey(m: Mark): string { REL_PREFIX + (m.owner + (":" + m.file)) }

  /** Row types and row ids are free text; a plain relation has no colon in them. */
  predicate Plain(x: Rel) {
    ':' !in x.ty && ':' !in x.row
  }

  /** File ids hold no colon and are not empty. */
  predicate GoodFile(file: string) {
    ':' !in file && file != []
  }

  /** The row type and row id that a relation key names. */
  function RowOf(key: string): Option<(string, string)>
    requires StartsWith(key, REL_PREFIX)
  {
    match SplitOnce(key[|REL_PREFIX|..])
    case None => None
    case Some((ty, rem)) =>
      match SplitOnce(rem)
      case None => None
      case Some((row, _)) => Some((ty, row))
  }

  /** The first two segments of the text of type and row. */
  function FirstTwo(owner: string): (string, string) {
    match SplitOnce(owner)
    case None => (owner, "")
    case Some((ty, rest)) =>
      match SplitOnce(rest)
      case None => (ty, rest)
      case Some((row, _)) => (ty, row)
  }

  lemma RelKeyIsMarkKey(x: Rel)
    ensures RelKey(x) == MarkKey(MarkOf(x)) && ':' in MarkOf(x).owner
  {
    assert x.ty + (":" + (x.row + (":" + x.file))) == OwnerOf(x.ty, x.row) + (":" + x.file);
    assert OwnerOf(x.ty, x.row)[|x.ty|] == ':';
  }

  lemma MarkKeyStarts(m: Mark)
    ensures StartsWith(MarkKey(m), REL_PREFIX)
    ensures MarkKey(m)[|REL_PREFIX|..] == m.owner + (":" + m.file)
  {
  }

  // ---- how a key is read back ----

  lemma SplitOnceLonger(s: string, t: string)
    ensures match SplitOnce(s)
            case Some((a, b)) => SplitOnce(s + (":" + t)) == Some((a, b + (":" + t)))
            case None => SplitOnce(s + (":" + t)) == Some((s, t))
  {
    assert ":" == [':'];
    SplitAtJoins(s, ':');
    match SplitOnce(s)
    case Some((a, b)) =>
      assert s + (":" + t) == a + (":" + (b + (":" + t)));
      SplitFirst(a, b + (":" + t));
    case None => SplitFirst(s, t);
  }

  /** A marker is read as the first two segments of its owner. */
  lemma RowOfMark(m: Mark)
    requires ':' in m.owner
    ensures StartsWith(MarkKey(m), REL_PREFIX) && RowOf(MarkKey(m)) == Some(FirstTwo(m.owner))
  {
    MarkKeyStarts(m);
    SplitOnceLonger(m.owner, m.file);
    assert ":" == [':'];
    SplitAtJoins(m.owner, ':');
    SplitOnceLonger(SplitOnce(m.owner).value.1, m.file);
  }

  lemma FirstTwoPlain(owner: string)
    requires ':' in owner
    ensures ':' !in FirstTwo(owner).0 && ':' !in FirstTwo(owner).1
    ensures var (ty, row) := FirstTwo(owner);
            owner == OwnerOf(ty, row) || exists rest :: owner == OwnerOf(ty, row + (":" + rest))
  {
    assert ":" == [':'];
    SplitAtJoins(owner, ':');
    var (ty, rest) := SplitOnce(owner).value;
    SplitAtJoins(rest, ':');
    if SplitOnce(rest).Some? {
      var (row, more) := SplitOnce(rest).value;
      assert owner == OwnerOf(ty, row + (":" + more));
    }
  }

  lemma FirstTwoOf(ty: string, row: string)
    requires ':' !in ty && ':' !in row
    ensures FirstTwo(OwnerOf(ty, row)) == (ty, row)
    ensures forall rest :: FirstTwo(OwnerOf(ty, row + (":" + rest))) == (ty, row)
  {
    SplitFirst(ty, row);
    assert ":" == [':'];
    SplitAtJoins(row, ':');
    assert SplitOnce(row) == None;
    forall rest ensures FirstTwo(OwnerOf(ty, row + (":" + rest))) == (ty, row) {
      SplitFirst(ty, row + (":" + rest));
      SplitFirst(row, rest);
    }
  }

  /** The key of a relation reads back as its row type and row id exactly when neither holds a colon. */
  lemma RowOfRelKeyIff(x: Rel)
    ensures StartsWith(RelKey(x), REL_PREFIX)
    ensures RowOf(RelKey(x)) == Some((x.ty, x.row)) <==> Plain(x)
  {
    RelKeyIsMarkKey(x);
    RowOfMark(MarkOf(x));
    FirstTwoPlain(OwnerOf(x.ty, x.row));
    if Plain(x) {
      FirstTwoOf(x.ty, x.row);
    }
  }

  lemma SuffixNamesLast(s: string, file: string, g: string)
    requires ':' !in file && ':' !in g
    ensures EndsWith(s + (":" + file), ":" + g) <==> file == g
  {
    var k, suffix := s + (":" + file), ":" + g;
    assert k[|s|..] == ":" + file;
    if EndsWith(k, suffix) {
      var at := |k| - |suffix|;
      assert k[at] == k[at..][0] == ':' && k[|s|] == ':';
      assert forall i :: |s| < i < |k| ==> k[i] == file[i - |s| - 1];
      assert forall i :: at < i < |k| ==> k[i] == k[at..][i - at] == g[i - at - 1];
      assert at == |s|;
      assert suffix[1..] == g && (":" + file)[1..] == file;
    }
  }

  /** The suffix `:file` of a marker key names its file. */
  lemma MarkKeySuffix(m: Mark, file: string)
    requires GoodFile(m.file) && GoodFile(file)
    ensures EndsWith(MarkKey(m), ":" + file) <==> m.file == file
  {
    assert MarkKey(m) == (REL_PREFIX + m.owner) + (":" + m.file);
    SuffixNamesLast(REL_PREFIX + m.owner, m.file, file);
  }

  /** A marker key names one marker, whatever colons its owner holds. */
  lemma MarkKeyInjective(m: Mark, n: Mark)
    requires GoodFile(m.file) && GoodFile(n.file) && MarkKey(m) == MarkKey(n)
    ensures m == n
  {
    var k := MarkKey(n);
    assert k == (REL_PREFIX + n.owner) + (":" + n.file);
    assert k[|k| - |":" + n.file|..] == ":" + n.file;
    MarkKeySuffix(m, n.file);
    MarkKeyStarts(m);
    MarkKeyStarts(n);
    var a, b := m.owner + (":" + m.file), n.owner + (":" + n.file);
    assert a == b && |m.owner| == |n.owner|;
    assert a[..|m.owner|] == m.owner && b[..|n.owner|] == n.owner;
  }

  /** The prefix of a row is that of the markers whose owner is exactly that row; what follows is the file. */
  lemma MarkKeyRow(m: Mark, ty: string, row: string)
    requires GoodFile(m.file)
    ensures var k, p := MarkKey(m), RelPrefixForRow(ty, row);
            && (StartsWith(k, p) && GoodFile(k[|p|..]) <==> m.owner == OwnerOf(ty, row))
            && (m.owner == OwnerOf(ty, row) ==> k[|p|..] == m.file)
  {
    var k, p := MarkKey(m), RelPrefixForRow(ty, row);
    assert p == REL_PREFIX + (OwnerOf(ty, row) + ":");
    if m.owner == OwnerOf(ty, row) {
      assert k == p + m.file;
    }
    if StartsWith(k, p) && GoodFile(k[|p|..]) {
      var n := Mark(OwnerOf(ty, row), k[|p|..]);
      assert k == p + n.file == MarkKey(n);
      MarkKeyInjective(m, n);
    }
  }

  /** Two relations on one file share a key exactly when a colon makes their texts of type and row meet. */
  lemma RelKeySharedIff(x: Rel)
    requires GoodFile(x.file)
    ensures (exists y: Rel :: GoodFile(y.file) && y != x && RelKey(y) == RelKey(x)) <==> !Plain(x)
  {
    RelKeyIsMarkKey(x);
    if Plain(x) {
      forall y: Rel | GoodFile(y.file) && RelKey(y) == RelKey(x) ensures y == x {
        RelKeyIsMarkKey(y);
        MarkKeyInjective(MarkOf(x), MarkOf(y));
        SameOwner(x, y);
      }
    } else {
      var y := Recut(x);
      RelKeyIsMarkKey(y);
    }
  }

  lemma SameOwner(x: Rel, y: Rel)
    requires Plain(x) && OwnerOf(x.ty, x.row) == OwnerOf(y.ty, y.row)
    ensures x.ty == y.ty && x.row == y.row
  {
    var s := OwnerOf(x.ty, x.row);
    SplitFirst(x.ty, x.row);
    assert s[|x.ty|] == ':' && s[|y.ty|] == ':';
    assert forall i :: 0 <= i < |x.ty| ==> s[i] == x.ty[i];
    assert forall i :: |x.ty| < i < |s| ==> s[i] == x.row[i - |x.ty| - 1];
    assert |x.ty| == |y.ty|;
    assert s[..|x.ty|] == x.ty && s[..|y.ty|] == y.ty && s[|x.ty| + 1..] == x.row && s[|y.ty| + 1..] == y.row;
  }

  /** The same text, cut at another colon. */
  lemma Recut(x: Rel) returns (y: Rel)
    requires !Plain(x)
    ensures y != x && MarkOf(y) == MarkOf(x)
  {
    assert ":" == [':'];
    if ':' in x.ty {
      SplitAtJoins(x.ty, ':');
      var (a, b) := SplitOnce(x.ty).value;
      y := Rel(a, b + (":" + x.row), x.file);
      assert OwnerOf(y.ty, y.row) == (a + (":" + b)) + (":" + x.row);
      assert |y.ty| < |x.ty|;
    } else {
      SplitAtJoins(x.row, ':');
      var (a, b) := SplitOnce(x.row).value;
      y := Rel(x.ty + (":" + a), b, x.file);
      assert OwnerOf(y.ty, y.row) == x.ty + (":" + (a + (":" + b)));
      assert |y.row| < |x.row|;
    }
  }

  /** The keys of file rows are no relation keys, and tell files apart. */
  lemma FileKeysApart(file: string, g: string)
    ensures !StartsWith(RefsKey(file), REL_PREFIX) && !StartsWith(FileKey(file), REL_PREFIX)
    ensures RefsKey(file) == RefsKey(g) ==> file == g
    ensures RefsKey(file) != FileKey(g)
  {
    assert REL_PREFIX[3] == 'r' && RefsKey(file)[3] == 'f' && FileKey(file)[3] == 'f';
    var a, b, c := RefsKey(file), RefsKey(g), FileKey(g);
    assert a[|a| - 1] == 's' && c[|c| - 1] == 'a';
    if a == b {
      assert a[|FILES_PREFIX|..] == file + ":refs" && b[|FILES_PREFIX|..] == g + ":refs";
      assert |file| == |g|;
      assert (file + ":refs")[..|file|] == file && (g + ":refs")[..|g|] == g;
    }
  }
}
