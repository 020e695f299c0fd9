// The ordered key-value store under the file store: keys in byte order, and range reads with
// inclusive bounds (src/fs/store.rs). UTF-8 keeps the order of code points, so keys are strings.
module Keys {
  import opened Wrappers

  datatype KeyValue<V> = KeyValue(key: string, value: V)

  type Rows<V> = map<string, V>

  // ---- the order of the keys ----

  predicate Less(a: string, b: string) {
    b != [] && (a == [] || a[0] < b[0] || (a[0] == b[0] && Less(a[1..], b[1..])))
  }

  predicate AtMost(a: string, b: string) {
    a == b || Less(a, b)
  }

  lemma {:induction false} LessIrreflexive(a: string)
    ensures !Less(a, a)
  {
    if a != [] {
      LessIrreflexive(a[1..]);
    }
  }

  lemma {:induction false} LessTransitive(a: string, b: string, c: string)
    requires Less(a, b) && Less(b, c)
    ensures Less(a, c)
  {
    if a != [] && a[0] == b[0] && b[0] == c[0] {
      LessTransitive(a[1..], b[1..], c[1..]);
    }
  }

  lemma {:induction false} LessTotal(a: string, b: string)
    ensures a == b || Less(a, b) || Less(b, a)
  {
    if a != [] && b != [] && a[0] == b[0] {
      LessTotal(a[1..], b[1..]);
      assert a == [a[0]] + a[1..] && b == [b[0]] + b[1..];
    }
  }

  lemma LessAsymmetric(a: string, b: string)
    requires Less(a, b)
    ensures a != b && !Less(b, a)
  {
    LessIrreflexive(a);
    if Less(b, a) {
      LessTransitive(a, b, a);
    }
  }

  // ---- a set of keys in order ----

  ghost predicate Ascending(s: seq<string>) {
    forall i, j :: 0 <= i < j < |s| ==> Less(s[i], s[j])
  }

  predicate Least(s: set<string>, k: string) {
    k in s && forall l :: l in s ==> AtMost(k, l)
  }

  lemma LeastExists(s: set<string>)
    requires s != {}
    ensures exists k :: Least(s, k)
  {
    var any :| any in s;
    var rest := s - {any};
    if rest == {} {
      assert s == {any};
      assert Least(s, any);
    } else {
      LeastExists(rest);
      var k :| Least(rest, k);
      LessTotal(any, k);
      if Less(k, any) {
        assert Least(s, k);
      } else {
        forall l | l in s ensures AtMost(any, l) {
          if l != any && k != l {
            assert l in rest;
            LessTransitive(any, k, l);
          }
        }
        assert Least(s, any);
      }
    }
  }

  lemma LeastUnique(s: set<string>, k: string, l: string)
    requires Least(s, k) && Least(s, l)
    ensures k == l
  {
    if k != l {
      LessAsymmetric(k, l);
    }
  }

  function Sorted(s: set<string>): seq<string> {
    if s == {} then []
    else
      LeastExists(s);
      assert forall k, l :: Least(s, k) && Least(s, l) ==> k == l by {
        forall k, l | Least(s, k) && Least(s, l) ensures k == l { LeastUnique(s, k, l); }
      }
      var k :| Least(s, k);
      [k] + Sorted(s - {k})
  }

  lemma SortedFromLeast(s: set<string>, k: string)
    requires Least(s, k)
    ensures Sorted(s) == [k] + Sorted(s - {k})
  {
    forall l | Least(s, l) ensures l == k {
      LeastUnique(s, k, l);
    }
  }

  lemma PrependAscending(k: string, rest: seq<string>)
    requires Ascending(rest) && forall l :: l in rest ==> Less(k, l)
    ensures Ascending([k] + rest)
  {
    var all := [k] + rest;
    forall i, j | 0 <= i < j < |all| ensures Less(all[i], all[j]) {
      if i == 0 {
        assert all[j] in rest;
      } else {
        assert Less(rest[i - 1], rest[j - 1]);
      }
    }
  }

  lemma {:induction false} SortedExact(s: set<string>)
    ensures |Sorted(s)| == |s| && Ascending(Sorted(s))
    ensures forall k :: k in Sorted(s) <==> k in s
  {
    if s != {} {
      LeastExists(s);
      var k :| Least(s, k);
      SortedExact(s - {k});
      SortedFromLeast(s, k);
      PrependAscending(k, Sorted(s - {k}));
    }
  }

  lemma TailOfAscending(a: seq<string>, k: string)
    requires a != [] && Ascending(a)
    ensures k in a[1..] <==> k in a && k != a[0]
  {
    if k in a[1..] {
      var i :| 0 <= i < |a| - 1 && a[1..][i] == k;
      assert Less(a[0], a[i + 1]);
      LessIrreflexive(k);
    }
  }

  /** Two ascending sequences of the same keys are the same. */
  lemma {:induction false} AscendingUnique(a: seq<string>, b: seq<string>)
    requires Ascending(a) && Ascending(b) && (forall k :: k in a <==> k in b)
    ensures a == b
  {
    assert b != [] ==> b[0] in b;
    if a != [] {
      assert a[0] in a && a[0] in b && b[0] in b && b[0] in a;
      if a[0] != b[0] {
        TailOfAscending(a, b[0]);
        TailOfAscending(b, a[0]);
        LessAsymmetric(a[0], b[0]);
      }
      forall k ensures k in a[1..] <==> k in b[1..] {
        TailOfAscending(a, k);
        TailOfAscending(b, k);
      }
      AscendingUnique(a[1..], b[1..]);
    }
  }

  // ---- range reads ----

  predicate Within(k: string, from: Option<string>, to: Option<string>) {
    (from.Some? ==> AtMost(from.value, k)) && (to.Some? ==> AtMost(k, to.value))
  }

  /** The keys of a range read without a limit, in order; both bounds are inclusive. */
  function KeysWithin<V>(rows: Rows<V>, from: Option<string>, to: Option<string>): seq<string> {
    Sorted(set k | k in rows && Within(k, from, to))
  }

  /** A range read misses nothing between its bounds, adds nothing, and keeps the order. */
  lemma KeysWithinExact<V>(rows: Rows<V>, from: Option<string>, to: Option<string>)
    ensures Ascending(KeysWithin(rows, from, to))
    ensures forall k :: k in KeysWithin(rows, from, to) <==> k in rows && Within(k, from, to)
  {
    SortedExact(set k | k in rows && Within(k, from, to));
  }

  function Entries<V>(rows: Rows<V>, ks: seq<string>): seq<KeyValue<V>>
    requires forall k :: k in ks ==> k in rows
  {
    seq(|ks|, i requires 0 <= i < |ks| => KeyValue(ks[i], rows[ks[i]]))
  }

  function GetsBytes<V>(rows: Rows<V>, from: Option<string>, to: Option<string>): seq<KeyValue<V>> {
    KeysWithinExact(rows, from, to);
    Entries(rows, KeysWithin(rows, from, to))
  }

  function FirstOf<T>(s: seq<T>, limit: nat): seq<T> {
    if |s| <= limit then s else s[..limit]
  }

  // ---- the scan of one key family ----

  /** The upper bound of the range of a prefix that ends in ':'. */
  function PrefixScanEnd(prefix: string): string
    requires prefix != [] && prefix[|prefix| - 1] == ':'
  {
    prefix[..|prefix| - 1] + ";"
  }

  predicate StartsWith(k: string, prefix: string) { prefix <= k }

  predicate EndsWith(k: string, suffix: string) {
    |suffix| <= |k| && k[|k| - |suffix|..] == suffix
  }

  /** The text before the first separator and the text after it. */
  function SplitAt(s: string, sep: char): Option<(string, string)> {
    if s == [] then None
    else if s[0] == sep then Some(([], s[1..]))
    else
      match SplitAt(s[1..], sep)
      case None => None
      case Some((a, b)) => Some(([s[0]] + a, b))
  }

  lemma {:induction false} SplitAtFirst(a: string, sep: char, b: string)
    requires sep !in a
    ensures SplitAt(a + ([sep] + b), sep) == Some((a, b))
  {
    var s := a + ([sep] + b);
    if a == [] {
      assert s[0] == sep && s[1..] == b;
    } else {
      assert s[0] == a[0] && s[1..] == a[1..] + ([sep] + b);
      SplitAtFirst(a[1..], sep, b);
      assert [a[0]] + a[1..] == a;
    }
  }

  lemma {:induction false} SplitAtJoins(s: string, sep: char)
    ensures match SplitAt(s, sep)
            case None => sep !in s
            case Some((a, b)) => sep !in a && s == a + ([sep] + b)
  {
    if s != [] && s[0] != sep {
      SplitAtJoins(s[1..], sep);
      assert s == [s[0]] + s[1..];
      match SplitAt(s[1..], sep)
      case None =>
      case Some((a, b)) => assert s == ([s[0]] + a) + ([sep] + b);
    } else if s != [] {
      assert s == [] + ([sep] + s[1..]);
    }
  }

  /** The text before the first colon and the text after it. */
  function SplitOnce(s: string): Option<(string, string)> { SplitAt(s, ':') }

  lemma SplitFirst(a: string, b: string)
    requires ':' !in a
    ensures SplitOnce(a + (":" + b)) == Some((a, b))
  {
    assert ":" == [':'];
    SplitAtFirst(a, ':', b);
  }

  /**
   * The range from `prefix:` to `prefix;` misses no key of the family and holds no other key but
   * the upper bound itself.
   */
  lemma {:induction false} PrefixRange(prefix: string, k: string)
    requires prefix != [] && prefix[|prefix| - 1] == ':'
    ensures Within(k, Some(prefix), Some(PrefixScanEnd(prefix))) <==>
            StartsWith(k, prefix) || k == PrefixScanEnd(prefix)
  {
    var end := PrefixScanEnd(prefix);
    if |prefix| == 1 {
      assert end == ";" && prefix == ":";
      if k != [] {
        var c, rest := k[0], k[1..];
        assert k == [c] + rest && prefix[1..] == [] && end[1..] == [];
        assert Less(prefix, k) <==> ':' < c || (c == ':' && rest != []);
        assert Less(k, end) <==> c < ';';
        assert ':' as int < c as int < ';' as int ==> false;
      }
    } else if k == [] {
    } else {
      assert end == [prefix[0]] + PrefixScanEnd(prefix[1..]);
      assert prefix == [prefix[0]] + prefix[1..] && k == [k[0]] + k[1..];
      PrefixRange(prefix[1..], k[1..]);
    }
  }

  /** A prefix scan: the range read, from which the callers keep what starts with the prefix. */
  function ScanPrefix<V>(rows: Rows<V>, prefix: string): seq<KeyValue<V>>
    requires prefix != [] && prefix[|prefix| - 1] == ':'
  {
    GetsBytes(rows, Some(prefix), Some(PrefixScanEnd(prefix)))
  }
}
