// The storage keys of policy rules and the check that every write goes through
// (src/policy/adapter.rs). A rule field is its UTF-8 bytes.
module PolicyKeys {
  import opened Keys
  import opened Wrappers

  type byte = n: nat | n < 256

  type Field = seq<byte>

  type Rule = seq<Field>

  /** U+001F, which joins the fields of a rule. */
  const US: byte := 0x1f

  datatype Policy = Policy(sec: string, ptype: string, rule: Rule)

  function HexDigit(n: nat): char
    requires n < 16
  {
    "0123456789abcdef"[n]
  }

  function HexEncode(s: seq<byte>): string {
    if s == [] then [] else [HexDigit(s[0] / 16), HexDigit(s[0] % 16)] + HexEncode(s[1..])
  }

  function Join(rule: Rule): seq<byte> {
    if rule == [] then []
    else if |rule| == 1 then rule[0]
    else rule[0] + ([US] + Join(rule[1..]))
  }

  function RuleKey(p: Policy): string {
    p.sec + (":" + (p.ptype + (":" + HexEncode(Join(p.rule)))))
  }

  predicate IsHexDigit(c: char) {
    '0' <= c <= '9' || 'a' <= c <= 'f' || 'A' <= c <= 'F'
  }

  predicate AllHex(s: string) { forall i :: 0 <= i < |s| ==> IsHexDigit(s[i]) }

  /** The three segments of a key: section, policy type, and the rest. */
  function Segments(key: string): Option<(string, string, string)> {
    match SplitOnce(key)
    case None => None
    case Some((sec, rem)) =>
      match SplitOnce(rem)
      case None => None
      case Some((ptype, hash)) => Some((sec, ptype, hash))
  }

  function ExpectedArity(sec: string): nat
    requires sec == "p" || sec == "g"
  {
    if sec == "p" then 3 else 2
  }

  /** The check that every write goes through. */
  predicate Validates(key: string, rule: Rule) {
    match Segments(key)
    case None => false
    case Some((sec, ptype, hash)) =>
      && (sec == "p" || sec == "g") && ptype != [] && hash != [] && AllHex(hash)
      && |rule| == ExpectedArity(sec)
  }

  /** The rules that the model of the policy engine knows. */
  predicate WellFormed(p: Policy) {
    (p.sec == "p" || p.sec == "g") && p.ptype != [] && ':' !in p.ptype && |p.rule| == ExpectedArity(p.sec)
  }

  predicate HoldsUs(f: Field) { US in f }

  /** No field holds the joining byte. */
  predicate Clean(rule: Rule) {
    forall i :: 0 <= i < |rule| ==> US !in rule[i]
  }

  // ---- hex digits ----

  lemma HexDigitFacts(m: nat, n: nat)
    requires m < 16 && n < 16
    ensures IsHexDigit(HexDigit(m)) && HexDigit(m) != ':'
    ensures HexDigit(m) == HexDigit(n) ==> m == n
  {
    var d := "0123456789abcdef";
    assert d[0] == '0' && d[1] == '1' && d[2] == '2' && d[3] == '3';
    assert d[4] == '4' && d[5] == '5' && d[6] == '6' && d[7] == '7';
    assert d[8] == '8' && d[9] == '9' && d[10] == 'a' && d[11] == 'b';
    assert d[12] == 'c' && d[13] == 'd' && d[14] == 'e' && d[15] == 'f';
  }

  lemma {:induction false} HexEncodeIsHex(s: seq<byte>)
    ensures |HexEncode(s)| == 2 * |s| && AllHex(HexEncode(s)) && ':' !in HexEncode(s)
  {
    if s != [] {
      HexEncodeIsHex(s[1..]);
      HexDigitFacts(s[0] / 16, 0);
      HexDigitFacts(s[0] % 16, 0);
    }
  }

  lemma {:induction false} HexEncodeInjective(s: seq<byte>, t: seq<byte>)
    requires HexEncode(s) == HexEncode(t)
    ensures s == t
  {
    HexEncodeIsHex(s);
    HexEncodeIsHex(t);
    if s != [] {
      var a, b := HexEncode(s), HexEncode(t);
      assert a[0] == b[0] && a[1] == b[1] && a[2..] == b[2..];
      HexDigitFacts(s[0] / 16, t[0] / 16);
      HexDigitFacts(s[0] % 16, t[0] % 16);
      assert a[2..] == HexEncode(s[1..]) && b[2..] == HexEncode(t[1..]);
      HexEncodeInjective(s[1..], t[1..]);
      assert s == [s[0]] + s[1..] && t == [t[0]] + t[1..];
    }
  }

  // ---- joined fields ----

  /** Everything before the first joining byte, and whether there is one. */
  lemma {:induction false} FirstField(a: Field, x: seq<byte>, b: Field, y: seq<byte>)
    requires US !in a && US !in b && a + ([US] + x) == b + ([US] + y)
    ensures a == b && x == y
  {
    var s, t := a + ([US] + x), b + ([US] + y);
    assert s[|a|] == US && t[|b|] == US;
    assert forall i :: 0 <= i < |a| ==> s[i] == a[i];
    assert forall i :: 0 <= i < |b| ==> t[i] == b[i];
    assert |a| == |b|;
    assert s[..|a|] == a && t[..|b|] == b && s[|a| + 1..] == x && t[|b| + 1..] == y;
  }

  lemma JoinHasUs(rule: Rule)
    requires |rule| >= 2
    ensures US in Join(rule)
  {
    assert Join(rule)[|rule[0]|] == US;
  }

  /** Clean rules with at least one field are told apart by their joined fields. */
  lemma {:induction false} JoinInjective(a: Rule, b: Rule)
    requires Clean(a) && Clean(b) && a != [] && b != [] && Join(a) == Join(b)
    ensures a == b
  {
    if |a| >= 2 { JoinHasUs(a); }
    if |b| >= 2 { JoinHasUs(b); }
    if |a| >= 2 && |b| >= 2 {
      FirstField(a[0], Join(a[1..]), b[0], Join(b[1..]));
      JoinInjective(a[1..], b[1..]);
      assert a == [a[0]] + a[1..] && b == [b[0]] + b[1..];
    }
  }

  // ---- how often the joining byte occurs ----

  function Count(s: seq<byte>): nat {
    if s == [] then 0 else (if s[0] == US then 1 else 0) + Count(s[1..])
  }

  function FieldCount(rule: Rule): nat {
    if rule == [] then 0 else Count(rule[0]) + FieldCount(rule[1..])
  }

  lemma {:induction false} CountAdd(a: seq<byte>, b: seq<byte>)
    ensures Count(a + b) == Count(a) + Count(b)
  {
    if a == [] {
      assert a + b == b;
    } else {
      assert (a + b)[0] == a[0] && (a + b)[1..] == a[1..] + b;
      CountAdd(a[1..], b);
    }
  }

  lemma {:induction false} CountZero(s: seq<byte>)
    ensures Count(s) == 0 <==> US !in s
  {
    if s != [] {
      CountZero(s[1..]);
      assert s == [s[0]] + s[1..];
    }
  }

  lemma {:induction false} CleanIsZero(rule: Rule)
    ensures Clean(rule) <==> FieldCount(rule) == 0
  {
    if rule != [] {
      CleanIsZero(rule[1..]);
      CountZero(rule[0]);
      assert rule == [rule[0]] + rule[1..];
      if Clean(rule) {
        forall i | 0 <= i < |rule| - 1 ensures US !in rule[1..][i] { assert rule[1..][i] == rule[i + 1]; }
      }
      if Clean(rule[1..]) && US !in rule[0] {
        forall i | 0 <= i < |rule| ensures US !in rule[i] { if i > 0 { assert rule[i] == rule[1..][i - 1]; } }
      }
    }
  }

  /** Joining adds one joining byte between every two fields. */
  lemma {:induction false} JoinCount(rule: Rule)
    requires rule != []
    ensures Count(Join(rule)) == FieldCount(rule) + |rule| - 1
  {
    if |rule| == 1 {
      assert FieldCount(rule[1..]) == 0;
    } else {
      JoinCount(rule[1..]);
      assert Count([US]) == 1;
      CountAdd([US], Join(rule[1..]));
      CountAdd(rule[0], [US] + Join(rule[1..]));
    }
  }

  /** Only a clean rule joins to the same bytes as a clean one with as many fields. */
  lemma CleanByJoin(a: Rule, b: Rule)
    requires Clean(a) && a != [] && |a| == |b| && Join(a) == Join(b)
    ensures Clean(b)
  {
    JoinCount(a);
    JoinCount(b);
    CleanIsZero(a);
    CleanIsZero(b);
  }

  /** Two neighbouring fields may be cut anew at any joining byte in them. */
  lemma {:induction false} JoinRecut(rule: Rule, i: nat, x: Field, y: Field)
    requires i + 1 < |rule| && x + ([US] + y) == rule[i] + ([US] + rule[i + 1])
    ensures Join(rule[i := x][i + 1 := y]) == Join(rule)
  {
    var cut := rule[i := x][i + 1 := y];
    if i > 0 {
      assert cut[1..] == rule[1..][i - 1 := x][i := y];
      JoinRecut(rule[1..], i - 1, x, y);
    } else {
      assert cut[1..][0] == y && cut[1..][1..] == rule[1..][1..];
      if |rule| > 2 {
        var tail := [US] + Join(rule[2..]);
        assert rule[1..][1..] == rule[2..];
        assert Join(rule) == rule[0] + ([US] + (rule[1] + tail)) == (rule[0] + ([US] + rule[1])) + tail;
        assert Join(cut) == x + ([US] + (y + tail)) == (x + ([US] + y)) + tail;
      } else {
        assert Join(rule[1..]) == rule[1] && Join(cut[1..]) == y;
      }
    }
  }

  // ---- keys ----

  function Colons(s: string): nat {
    if s == [] then 0 else (if s[0] == ':' then 1 else 0) + Colons(s[1..])
  }

  lemma {:induction false} ColonsAdd(a: string, b: string)
    ensures Colons(a + b) == Colons(a) + Colons(b)
  {
    if a == [] {
      assert a + b == b;
    } else {
      assert (a + b)[0] == a[0] && (a + b)[1..] == a[1..] + b;
      ColonsAdd(a[1..], b);
    }
  }

  lemma {:induction false} NoColons(s: string)
    ensures Colons(s) == 0 <==> ':' !in s
  {
    if s != [] {
      NoColons(s[1..]);
      assert s == [s[0]] + s[1..];
    }
  }

  lemma ColonsOfKey(sec: string, ptype: string, rest: string)
    ensures Colons(sec + (":" + (ptype + (":" + rest)))) == Colons(sec) + Colons(ptype) + Colons(rest) + 2
  {
    assert Colons(":") == 1;
    ColonsAdd(":", rest);
    ColonsAdd(ptype, ":" + rest);
    ColonsAdd(":", ptype + (":" + rest));
    ColonsAdd(sec, ":" + (ptype + (":" + rest)));
  }

  /** A key whose section and type hold no colon is split where it was joined. */
  lemma SegmentsOfKey(sec: string, ptype: string, rest: string)
    requires ':' !in sec && ':' !in ptype
    ensures Segments(sec + (":" + (ptype + (":" + rest)))) == Some((sec, ptype, rest))
  {
    SplitFirst(sec, ptype + (":" + rest));
    SplitFirst(ptype, rest);
  }

  /** If a key of two colons reads as `sec:ptype:rest`, those are its segments. */
  lemma SegmentsForced(sec: string, ptype: string, rest: string, sec2: string, ptype2: string, rest2: string)
    requires ':' !in sec && ':' !in ptype && ':' !in rest
    requires sec + (":" + (ptype + (":" + rest))) == sec2 + (":" + (ptype2 + (":" + rest2)))
    ensures sec == sec2 && ptype == ptype2 && rest == rest2
  {
    ColonsOfKey(sec, ptype, rest);
    ColonsOfKey(sec2, ptype2, rest2);
    NoColons(sec);
    NoColons(ptype);
    NoColons(rest);
    NoColons(sec2);
    NoColons(ptype2);
    SegmentsOfKey(sec, ptype, rest);
    SegmentsOfKey(sec2, ptype2, rest2);
  }

  lemma WellFormedIsColonFree(p: Policy)
    requires WellFormed(p)
    ensures ':' !in p.sec && ':' !in HexEncode(Join(p.rule)) && Join(p.rule) != [] && |p.rule| >= 2
  {
    HexEncodeIsHex(Join(p.rule));
    JoinHasUs(p.rule);
  }

  /** The key of a well-formed clean rule is the key of no other rule that is well-formed or clean. */
  lemma RuleKeyInjective(p: Policy, q: Policy)
    requires WellFormed(p) && Clean(p.rule) && (WellFormed(q) || Clean(q.rule)) && RuleKey(p) == RuleKey(q)
    ensures p == q
  {
    WellFormedIsColonFree(p);
    SegmentsForced(p.sec, p.ptype, HexEncode(Join(p.rule)), q.sec, q.ptype, HexEncode(Join(q.rule)));
    HexEncodeInjective(Join(p.rule), Join(q.rule));
    if WellFormed(q) {
      CleanByJoin(p.rule, q.rule);
    }
    JoinInjective(p.rule, q.rule);
  }

  lemma SplitAtUs(f: Field) returns (before: Field, after: Field)
    requires HoldsUs(f)
    ensures f == before + ([US] + after)
  {
    var i :| 0 <= i < |f| && f[i] == US;
    before, after := f[..i], f[i + 1..];
  }

  /**
   * A rule that is not clean shares its key with another well-formed one: a joining byte inside a
   * field reads as the end of it.
   */
  lemma RuleKeysCollide(p: Policy) returns (q: Policy)
    requires WellFormed(p) && !Clean(p.rule)
    ensures WellFormed(q) && q != p && RuleKey(q) == RuleKey(p)
  {
    var r: Rule := p.rule;
    assert exists j :: 0 <= j < |r| && HoldsUs(r[j]);
    var i: nat :| i < |r| && HoldsUs(r[i]);
    var before, after := SplitAtUs(r[i]);
    if i + 1 < |r| {
      var x, y := before, after + ([US] + r[i + 1]);
      assert x + ([US] + y) == r[i] + ([US] + r[i + 1]);
      JoinRecut(r, i, x, y);
      q := p.(rule := r[i := x][i + 1 := y]);
      assert |q.rule[i]| < |r[i]|;
    } else {
      var x, y := r[i - 1] + ([US] + before), after;
      assert x + ([US] + y) == r[i - 1] + ([US] + r[i]);
      JoinRecut(r, i - 1, x, y);
      q := p.(rule := r[i - 1 := x][i := y]);
      assert |q.rule[i]| < |r[i]|;
    }
  }

  /** So a rule shares its key exactly when one of its fields holds U+001F. */
  lemma RuleKeySharedIff(p: Policy)
    requires WellFormed(p)
    ensures (exists q :: WellFormed(q) && q != p && RuleKey(q) == RuleKey(p)) <==> !Clean(p.rule)
  {
    if Clean(p.rule) {
      forall q | WellFormed(q) && RuleKey(q) == RuleKey(p) ensures q == p {
        RuleKeyInjective(p, q);
      }
    } else {
      var q := RuleKeysCollide(p);
    }
  }

  /** The prefix of a section and type is that of the keys of its rules only. */
  lemma RuleKeyPrefix(p: Policy, sec: string, ptype: string)
    requires WellFormed(p)
    ensures StartsWith(RuleKey(p), sec + (":" + (ptype + ":"))) <==> p.sec == sec && p.ptype == ptype
  {
    var prefix, k, hash := sec + (":" + (ptype + ":")), RuleKey(p), HexEncode(Join(p.rule));
    if StartsWith(k, prefix) {
      var rest := k[|prefix|..];
      assert k == prefix + rest == sec + (":" + (ptype + (":" + rest)));
      WellFormedIsColonFree(p);
      SegmentsForced(p.sec, p.ptype, hash, sec, ptype, rest);
    }
    if p.sec == sec && p.ptype == ptype {
      assert k == prefix + hash;
    }
  }

  /** The validator lets exactly the well-formed rules through; a colon in a segment never passes. */
  lemma ValidatesIff(p: Policy)
    ensures Validates(RuleKey(p), p.rule) <==> WellFormed(p)
  {
    var hash := HexEncode(Join(p.rule));
    if WellFormed(p) {
      WellFormedIsColonFree(p);
      HexEncodeIsHex(Join(p.rule));
      SegmentsOfKey(p.sec, p.ptype, hash);
    }
    if Validates(RuleKey(p), p.rule) {
      var (sec, ptype, rest) := Segments(RuleKey(p)).value;
      SegmentsJoin(RuleKey(p));
      assert ':' !in rest;
      SegmentsForced(sec, ptype, rest, p.sec, p.ptype, hash);
    }
  }

  lemma SegmentsJoin(key: string)
    requires Segments(key).Some?
    ensures var (sec, ptype, rest) := Segments(key).value;
            ':' !in sec && ':' !in ptype && key == sec + (":" + (ptype + (":" + rest)))
  {
    assert ":" == [':'];
    SplitAtJoins(key, ':');
    SplitAtJoins(SplitOnce(key).value.1, ':');
  }
}
