// The policy adapter: batches of rules over a key-value store that refines a set of policies
// (src/policy/adapter.rs).
module PolicyAdapter {
  import opened Keys
  import opened PolicyKeys
  import opened Wrappers

  /** A stored value is a rule, or bytes that do not decode as one. */
  datatype Value = Encoded(rule: Rule) | Corrupt

  type Store = Rows<Value>

  function Batch(sec: string, ptype: string, rules: seq<Rule>): seq<Policy> {
    seq(|rules|, i requires 0 <= i < |rules| => Policy(sec, ptype, rules[i]))
  }

  predicate Valid(p: Policy) { Validates(RuleKey(p), p.rule) }

  predicate AllValid(ps: seq<Policy>) { forall i :: 0 <= i < |ps| ==> Valid(ps[i]) }

  /** Stages every rule of a batch, or nothing if one is there already. */
  function Stage(tx: Store, ps: seq<Policy>): Option<Store>
    decreases ps
  {
    if ps == [] then Some(tx)
    else if RuleKey(ps[0]) in tx then None
    else Stage(tx[RuleKey(ps[0]) := Encoded(ps[0].rule)], ps[1..])
  }

  /** Removes every rule of a batch, or nothing if one is missing. */
  function Unstage(tx: Store, ps: seq<Policy>): Option<Store> {
    if ps == [] then Some(tx)
    else if RuleKey(ps[0]) !in tx then None
    else Unstage(tx - {RuleKey(ps[0])}, ps[1..])
  }

  function SetAll(tx: Store, ps: seq<Policy>): Store
    decreases ps
  {
    if ps == [] then tx else SetAll(tx[RuleKey(ps[0]) := Encoded(ps[0].rule)], ps[1..])
  }

  function Added(rows: Store, ps: seq<Policy>): (Store, Result<bool, string>) {
    if !AllValid(ps) then (rows, Err("invalid"))
    else
      match Stage(rows, ps)
      case None => (rows, Ok(false))
      case Some(rows') => (rows', Ok(true))
  }

  function Removed(rows: Store, ps: seq<Policy>): (Store, Result<bool, string>) {
    match Unstage(rows, ps)
    case None => (rows, Ok(false))
    case Some(rows') => (rows', Ok(true))
  }

  /** The entries that read as policies; a value that does not decode fails the load. */
  function Loaded(es: seq<KeyValue<Value>>): Result<seq<Policy>, string> {
    if es == [] then Ok([])
    else
      var rest := Loaded(es[1..]);
      match Segments(es[0].key)
      case None => rest
      case Some((sec, ptype, _)) =>
        if es[0].value.Corrupt? then Err("decode")
        else if rest.Err? then rest
        else Ok([Policy(sec, ptype, es[0].value.rule)] + rest.value)
  }

  /** What a load returns that read `out` and goes on with `rest`. */
  function After(out: seq<Policy>, rest: Result<seq<Policy>, string>): Result<seq<Policy>, string> {
    match rest
    case Err(e) => Err(e)
    case Ok(ps) => Ok(out + ps)
  }

  lemma AfterNothing(rest: Result<seq<Policy>, string>)
    ensures After([], rest) == rest
  {
    if rest.Ok? {
      assert [] + rest.value == rest.value;
    }
  }

  lemma LoadedFrom(es: seq<KeyValue<Value>>, i: nat, out: seq<Policy>)
    requires i < |es|
    ensures After(out, Loaded(es[i..])) ==
            match Segments(es[i].key)
            case None => After(out, Loaded(es[i + 1..]))
            case Some((sec, ptype, _)) =>
              if es[i].value.Corrupt? then Err("decode")
              else After(out + [Policy(sec, ptype, es[i].value.rule)], Loaded(es[i + 1..]))
  {
    assert es[i..][0] == es[i] && es[i..][1..] == es[i + 1..];
    var rest := Loaded(es[i + 1..]);
    if Segments(es[i].key).Some? && es[i].value.Encoded? && rest.Ok? {
      var (sec, ptype, _) := Segments(es[i].key).value;
      var p := Policy(sec, ptype, es[i].value.rule);
      assert out + ([p] + rest.value) == (out + [p]) + rest.value;
    }
  }

  predicate RuleMatches(rule: Rule, index: nat, values: seq<Field>) {
    forall i :: 0 <= i < |values| ==> index + i < |rule| && rule[index + i] == values[i]
  }

  /** The fields of the rule from position `index` on begin with the values; no values name every rule. */
  ghost predicate HasFields(rule: Rule, index: nat, values: seq<Field>) {
    values == [] || exists before, after :: |before| == index && rule == before + values + after
  }

  lemma RuleMatchesIff(rule: Rule, index: nat, values: seq<Field>)
    ensures RuleMatches(rule, index, values) <==> HasFields(rule, index, values)
  {
    if values != [] && RuleMatches(rule, index, values) {
      var n := |values|;
      assert values[n - 1] in values && index + (n - 1) < |rule|;
      var before, after := rule[..index], rule[index + n..];
      assert rule[index..index + n] == values;
      assert rule == before + values + after;
    }
    if before, after :| |before| == index && rule == before + values + after {
      assert forall i :: 0 <= i < |values| ==> rule[index + i] == values[i];
    }
  }

  function PrefixOf(sec: string, ptype: string): string {
    sec + (":" + (ptype + ":"))
  }

  predicate Hit(e: KeyValue<Value>, prefix: string, index: nat, values: seq<Field>) {
    StartsWith(e.key, prefix) && e.value.Encoded? && RuleMatches(e.value.rule, index, values)
  }

  predicate HitKey(rows: Store, k: string, prefix: string, index: nat, values: seq<Field>) {
    k in rows && Hit(KeyValue(k, rows[k]), prefix, index, values)
  }

  predicate Unreadable(rows: Store, prefix: string) {
    exists k :: k in rows && StartsWith(k, prefix) && rows[k].Corrupt?
  }

  class OxkvAdapter {
    var rows: Store

    constructor (rows: Store)
      ensures this.rows == rows
    {
      this.rows := rows;
    }

    method LoadAll() returns (r: Result<seq<Policy>, string>)
      ensures r == Loaded(GetsBytes(rows, None, None))
    {
      var kvs, out, i := GetsBytes(rows, None, None), [], 0;
      AfterNothing(Loaded(kvs));
      assert kvs[0..] == kvs;
      while i < |kvs|
        invariant 0 <= i <= |kvs|
        invariant Loaded(kvs) == After(out, Loaded(kvs[i..]))
      {
        LoadedFrom(kvs, i, out);
        match Segments(kvs[i].key) {
          case None =>
          case Some((sec, ptype, _)) =>
            if kvs[i].value.Corrupt? { return Err("decode"); }
            out := out + [Policy(sec, ptype, kvs[i].value.rule)];
        }
        i := i + 1;
      }
      assert kvs[i..] == [] && out + [] == out;
      return Ok(out);
    }

    /** Deletes every key in one transaction. */
    method ClearAll()
      modifies this
      ensures rows == map[]
    {
      var kvs, tx, i := KeysWithin(rows, None, None), rows, 0;
      KeysWithinExact(rows, None, None);
      assert kvs[0..] == kvs;
      while i < |kvs|
        invariant 0 <= i <= |kvs| && rows == old(rows)
        invariant forall k :: k in tx ==> k in kvs[i..]
      {
        forall k | k in tx && k != kvs[i] ensures k in kvs[i + 1..] {
          assert kvs[i..] == [kvs[i]] + kvs[i + 1..];
        }
        tx := tx - {kvs[i]};
        i := i + 1;
      }
      rows := tx;
    }

    method AddPolicies(sec: string, ptype: string, rules: seq<Rule>) returns (r: Result<bool, string>)
      modifies this
      ensures (rows, r) == Added(old(rows), Batch(sec, ptype, rules))
    {
      var ps, encoded, i := Batch(sec, ptype, rules), [], 0;
      while i < |ps|
        invariant 0 <= i <= |ps| && |encoded| == i && rows == old(rows)
        invariant forall j :: 0 <= j < i ==> Valid(ps[j]) && encoded[j] == (RuleKey(ps[j]), Encoded(ps[j].rule))
      {
        if !Valid(ps[i]) { return Err("invalid"); }
        encoded := encoded + [(RuleKey(ps[i]), Encoded(ps[i].rule))];
        i := i + 1;
      }
      var tx := rows;
      i := 0;
      while i < |encoded|
        invariant 0 <= i <= |encoded| == |ps| && rows == old(rows)
        invariant Stage(rows, ps) == Stage(tx, ps[i..])
      {
        assert ps[i..][0] == ps[i] && ps[i..][1..] == ps[i + 1..];
        var (key, value) := encoded[i];
        if key in tx { return Ok(false); }
        tx := tx[key := value];
        i := i + 1;
      }
      rows := tx;
      return Ok(true);
    }

    method RemovePolicies(sec: string, ptype: string, rules: seq<Rule>) returns (r: Result<bool, string>)
      modifies this
      ensures (rows, r) == Removed(old(rows), Batch(sec, ptype, rules))
    {
      var ps, tx, i := Batch(sec, ptype, rules), rows, 0;
      while i < |ps|
        invariant 0 <= i <= |ps| && rows == old(rows)
        invariant Unstage(rows, ps) == Unstage(tx, ps[i..])
      {
        assert ps[i..][0] == ps[i] && ps[i..][1..] == ps[i + 1..];
        var key := RuleKey(ps[i]);
        if key !in tx { return Ok(false); }
        tx := tx - {key};
        i := i + 1;
      }
      rows := tx;
      return Ok(true);
    }

    method RemoveFilteredPolicy(sec: string, ptype: string, index: nat, values: seq<Field>)
      returns (r: Result<bool, string>)
      modifies this
      ensures r.Err? <==> Unreadable(old(rows), PrefixOf(sec, ptype))
      ensures r.Err? ==> rows == old(rows)
      ensures r.Ok? ==>
                rows == old(rows) -
                        (set k | k in old(rows) && HitKey(old(rows), k, PrefixOf(sec, ptype), index, values))
      ensures r.Ok? ==> (r.value <==> rows != old(rows))
    {
      var prefix, ks := PrefixOf(sec, ptype), KeysWithin(rows, None, None);
      var toDelete, i := [], 0;
      KeysWithinExact(rows, None, None);
      while i < |ks|
        invariant 0 <= i <= |ks| && rows == old(rows)
        invariant forall j :: 0 <= j < i && StartsWith(ks[j], prefix) ==> rows[ks[j]].Encoded?
        invariant forall j :: 0 <= j < i && HitKey(rows, ks[j], prefix, index, values) ==> ks[j] in toDelete
        invariant forall k :: k in toDelete ==> HitKey(rows, k, prefix, index, values)
      {
        assert ks[i] in ks;
        if StartsWith(ks[i], prefix) {
          if rows[ks[i]].Corrupt? { return Err("decode"); }
          if RuleMatches(rows[ks[i]].rule, index, values) {
            toDelete := toDelete + [ks[i]];
          }
        }
        i := i + 1;
      }
      HitsCollected(rows, ks, prefix, index, values, toDelete);
      if toDelete != [] {
        assert toDelete[0] in toDelete;
      }
      rows := DeleteEach(rows, toDelete);
      return Ok(toDelete != []);
    }

    /** The transaction that deletes the collected keys. */
    static method DeleteEach(rows: Store, keys: seq<string>) returns (tx: Store)
      ensures tx == rows - SetOf(keys)
    {
      tx := rows;
      var i := 0;
      while i < |keys|
        invariant 0 <= i <= |keys| && tx == rows - SetOf(keys[..i])
      {
        assert keys[..i + 1] == keys[..i] + [keys[i]];
        tx := tx - {keys[i]};
        i := i + 1;
      }
      assert keys[..i] == keys;
    }

    /** Replaces everything by the rules of the model; the store is cleared before any of them is checked. */
    method SavePolicy(entries: seq<Policy>) returns (r: Result<(), string>)
      modifies this
      ensures r.Ok? <==> AllValid(entries)
      ensures rows == if AllValid(entries) then SetAll(map[], entries) else map[]
    {
      ClearAll();
      var i := 0;
      while i < |entries|
        invariant 0 <= i <= |entries| && rows == map[] && forall j :: 0 <= j < i ==> Valid(entries[j])
      {
        if !Valid(entries[i]) { return Err("invalid"); }
        i := i + 1;
      }
      var tx := rows;
      i := 0;
      while i < |entries|
        invariant 0 <= i <= |entries| && SetAll(map[], entries) == SetAll(tx, entries[i..])
      {
        assert entries[i..][0] == entries[i] && entries[i..][1..] == entries[i + 1..];
        tx := tx[RuleKey(entries[i]) := Encoded(entries[i].rule)];
        i := i + 1;
      }
      rows := tx;
      return Ok(());
    }
  }

  lemma HitsCollected(rows: Store, ks: seq<string>, prefix: string, index: nat, values: seq<Field>, hits: seq<string>)
    requires ks == KeysWithin(rows, None, None)
    requires forall j :: 0 <= j < |ks| && ks[j] in rows && StartsWith(ks[j], prefix) ==> rows[ks[j]].Encoded?
    requires forall j :: 0 <= j < |ks| && HitKey(rows, ks[j], prefix, index, values) ==> ks[j] in hits
    requires forall k :: k in hits ==> HitKey(rows, k, prefix, index, values)
    ensures !Unreadable(rows, prefix)
    ensures forall k :: k in hits <==> HitKey(rows, k, prefix, index, values)
  {
    KeysWithinExact(rows, None, None);
    forall k | k in rows ensures StartsWith(k, prefix) ==> rows[k].Encoded?
                         ensures HitKey(rows, k, prefix, index, values) ==> k in hits
    {
      assert k in ks;
      var j :| 0 <= j < |ks| && ks[j] == k;
    }
  }

  // ---- the set of policies that a store stands for ----

  /** The store holds exactly these policies, all of them well-formed and clean. */
  ghost predicate Holds(rows: Store, s: set<Policy>) {
    && (forall p :: p in s ==>
          WellFormed(p) && Clean(p.rule) && RuleKey(p) in rows && rows[RuleKey(p)] == Encoded(p.rule))
    && (forall k :: k in rows ==> exists p :: p in s && RuleKey(p) == k)
  }

  lemma HeldIff(rows: Store, s: set<Policy>, p: Policy)
    requires Holds(rows, s) && Clean(p.rule)
    ensures RuleKey(p) in rows <==> p in s
  {
    if RuleKey(p) in rows {
      var q :| q in s && RuleKey(q) == RuleKey(p);
      RuleKeyInjective(q, p);
    }
  }

  lemma HoldsOneMore(rows: Store, s: set<Policy>, p: Policy)
    requires Holds(rows, s) && WellFormed(p) && Clean(p.rule)
    ensures Holds(rows[RuleKey(p) := Encoded(p.rule)], s + {p})
  {
    var rows' := rows[RuleKey(p) := Encoded(p.rule)];
    forall q | q in s + {p} ensures rows'[RuleKey(q)] == Encoded(q.rule) {
      if RuleKey(q) == RuleKey(p) { RuleKeyInjective(p, q); }
    }
    forall k | k in rows' ensures exists q :: q in s + {p} && RuleKey(q) == k {
      if k == RuleKey(p) {
        assert p in s + {p};
      } else {
        var q :| q in s && RuleKey(q) == k;
        assert q in s + {p};
      }
    }
  }

  lemma HoldsOneLess(rows: Store, s: set<Policy>, p: Policy)
    requires Holds(rows, s) && p in s
    ensures Holds(rows - {RuleKey(p)}, s - {p})
  {
    var rows' := rows - {RuleKey(p)};
    forall q | q in s - {p} ensures RuleKey(q) in rows' {
      if RuleKey(q) == RuleKey(p) { RuleKeyInjective(p, q); }
    }
    forall k | k in rows' ensures exists q :: q in s - {p} && RuleKey(q) == k {
      var q :| q in s && RuleKey(q) == k;
      assert q in s - {p};
    }
  }

  ghost predicate AllClean(ps: seq<Policy>) { forall i :: 0 <= i < |ps| ==> Clean(ps[i].rule) }

  predicate AllWellFormed(ps: seq<Policy>) { forall i :: 0 <= i < |ps| ==> WellFormed(ps[i]) }

  ghost predicate Distinct<T>(s: seq<T>) { forall i, j :: 0 <= i < j < |s| ==> s[i] != s[j] }

  function SetOf<T>(s: seq<T>): set<T> { set x | x in s }

  lemma ConsFacts<T>(s: seq<T>)
    requires s != []
    ensures Distinct(s) <==> Distinct(s[1..]) && s[0] !in s[1..]
    ensures SetOf(s) == {s[0]} + SetOf(s[1..])
  {
    var rest := s[1..];
    assert s == [s[0]] + rest;
    if Distinct(s) {
      forall i | 0 <= i < |rest| ensures s[0] != rest[i] { assert rest[i] == s[i + 1]; }
      forall i, j | 0 <= i < j < |rest| ensures rest[i] != rest[j] { assert s[i + 1] != s[j + 1]; }
    }
    if Distinct(rest) && s[0] !in rest {
      forall i, j | 0 <= i < j < |s| ensures s[i] != s[j] {
        assert s[j] == rest[j - 1];
        if i > 0 { assert s[i] == rest[i - 1]; }
      }
    }
  }

  lemma SetWithFirst<T>(s: set<T>, ps: seq<T>)
    requires ps != []
    ensures s + {ps[0]} + SetOf(ps[1..]) == s + SetOf(ps)
    ensures s - {ps[0]} - SetOf(ps[1..]) == s - SetOf(ps)
  {
    ConsFacts(ps);
  }

  /** Staging a batch succeeds exactly when it has no duplicate and nothing of it is there yet. */
  lemma {:induction false} StageExact(rows: Store, s: set<Policy>, ps: seq<Policy>)
    requires Holds(rows, s) && AllClean(ps) && AllWellFormed(ps)
    ensures Stage(rows, ps).Some? <==> Distinct(ps) && SetOf(ps) !! s
    ensures Stage(rows, ps).Some? ==> Holds(Stage(rows, ps).value, s + SetOf(ps))
    decreases ps
  {
    if ps == [] {
      assert s + SetOf(ps) == s;
    } else {
      var p := ps[0];
      ConsFacts(ps);
      HeldIff(rows, s, p);
      if p !in s {
        HoldsOneMore(rows, s, p);
        StageExact(rows[RuleKey(p) := Encoded(p.rule)], s + {p}, ps[1..]);
        SetWithFirst(s, ps);
        assert SetOf(ps[1..]) !! s + {p} <==> SetOf(ps[1..]) !! s && p !in ps[1..];
      }
    }
  }

  /** Removing a batch succeeds exactly when it has no duplicate and all of it is there. */
  lemma {:induction false} UnstageExact(rows: Store, s: set<Policy>, ps: seq<Policy>)
    requires Holds(rows, s) && AllClean(ps)
    ensures Unstage(rows, ps).Some? <==> Distinct(ps) && SetOf(ps) <= s
    ensures Unstage(rows, ps).Some? ==> Holds(Unstage(rows, ps).value, s - SetOf(ps))
  {
    if ps == [] {
      assert s - SetOf(ps) == s;
    } else {
      var p := ps[0];
      ConsFacts(ps);
      HeldIff(rows, s, p);
      if p in s {
        HoldsOneLess(rows, s, p);
        UnstageExact(rows - {RuleKey(p)}, s - {p}, ps[1..]);
        SetWithFirst(s, ps);
        assert SetOf(ps[1..]) <= s - {p} <==> SetOf(ps[1..]) <= s && p !in ps[1..];
      }
    }
  }

  lemma AllValidIff(ps: seq<Policy>)
    ensures AllValid(ps) <==> AllWellFormed(ps)
  {
    forall i | 0 <= i < |ps| ensures Valid(ps[i]) <==> WellFormed(ps[i]) {
      ValidatesIff(ps[i]);
    }
  }

  /**
   * Adding a batch fails exactly when a rule is malformed, answers true exactly when the batch has
   * no duplicate and is disjoint from what is stored, and adds it then; else the store stays.
   */
  lemma AddExact(rows: Store, s: set<Policy>, ps: seq<Policy>)
    requires Holds(rows, s) && AllClean(ps)
    ensures var (rows', r) := Added(rows, ps);
            && (r.Err? <==> !AllWellFormed(ps))
            && (r.Ok? ==> (r.value <==> Distinct(ps) && SetOf(ps) !! s))
            && (if r == Ok(true) then Holds(rows', s + SetOf(ps)) else rows' == rows)
  {
    AllValidIff(ps);
    if AllValid(ps) {
      StageExact(rows, s, ps);
    }
  }

  /** Removing answers true exactly when the batch has no duplicate and is stored, whatever its rules look like. */
  lemma RemoveExact(rows: Store, s: set<Policy>, ps: seq<Policy>)
    requires Holds(rows, s) && AllClean(ps)
    ensures var (rows', r) := Removed(rows, ps);
            && (r == Ok(true) <==> Distinct(ps) && SetOf(ps) <= s)
            && (if r == Ok(true) then Holds(rows', s - SetOf(ps)) else r == Ok(false) && rows' == rows)
  {
    UnstageExact(rows, s, ps);
  }

  /** A filtered removal hits exactly the keys of the matching policies of that section and type. */
  lemma FilteredExact(rows: Store, s: set<Policy>, sec: string, ptype: string, index: nat, values: seq<Field>)
    requires Holds(rows, s)
    ensures !Unreadable(rows, PrefixOf(sec, ptype))
    ensures var hits := set k | k in rows && HitKey(rows, k, PrefixOf(sec, ptype), index, values);
            var gone := set p | p in s && p.sec == sec && p.ptype == ptype && HasFields(p.rule, index, values);
            && Holds(rows - hits, s - gone)
            && (hits == {} <==> gone == {})
  {
    var prefix := PrefixOf(sec, ptype);
    var hits := set k | k in rows && HitKey(rows, k, prefix, index, values);
    var gone := set p | p in s && p.sec == sec && p.ptype == ptype && HasFields(p.rule, index, values);
    forall k | k in rows ensures rows[k].Encoded? {
      var p :| p in s && RuleKey(p) == k;
    }
    forall p | p in s ensures RuleKey(p) in hits <==> p in gone {
      RuleKeyPrefix(p, sec, ptype);
      RuleMatchesIff(p.rule, index, values);
    }
    forall k | k in rows - hits ensures exists p :: p in s - gone && RuleKey(p) == k {
      var p :| p in s && RuleKey(p) == k;
      assert p in s - gone;
    }
    if k :| k in hits {
      var p :| p in s && RuleKey(p) == k;
      assert p in gone;
    }
  }

  /** The entry reads as the policy. */
  ghost predicate Names(e: KeyValue<Value>, p: Policy) {
    && e.value == Encoded(p.rule)
    && Segments(e.key).Some? && Segments(e.key).value.0 == p.sec && Segments(e.key).value.1 == p.ptype
  }

  lemma {:induction false} LoadedNames(es: seq<KeyValue<Value>>, ps: seq<Policy>)
    requires |es| == |ps| && forall i :: 0 <= i < |es| ==> Names(es[i], ps[i])
    ensures Loaded(es) == Ok(ps)
  {
    if es != [] {
      LoadedNames(es[1..], ps[1..]);
      assert Names(es[0], ps[0]) && ps == [ps[0]] + ps[1..];
    }
  }

  ghost function PolicyOf(s: set<Policy>, k: string): (p: Policy)
    requires exists p :: p in s && RuleKey(p) == k
    ensures p in s && RuleKey(p) == k
  {
    var p :| p in s && RuleKey(p) == k;
    p
  }

  lemma HeldNames(rows: Store, s: set<Policy>, k: string)
    requires Holds(rows, s) && k in rows
    ensures Names(KeyValue(k, rows[k]), PolicyOf(s, k))
  {
    var p := PolicyOf(s, k);
    WellFormedIsColonFree(p);
    SegmentsOfKey(p.sec, p.ptype, HexEncode(Join(p.rule)));
  }

  /** Loading reads each stored policy once. */
  lemma LoadedKeys(rows: Store, s: set<Policy>) returns (ps: seq<Policy>)
    requires Holds(rows, s)
    ensures var ks := KeysWithin(rows, None, None);
            && Loaded(GetsBytes(rows, None, None)) == Ok(ps) && |ps| == |ks|
            && forall i :: 0 <= i < |ps| ==> ps[i] in s && RuleKey(ps[i]) == ks[i]
  {
    var ks, es := KeysWithin(rows, None, None), GetsBytes(rows, None, None);
    KeysWithinExact(rows, None, None);
    assert forall i :: 0 <= i < |ks| ==> ks[i] in ks;
    ps := seq(|ks|, i requires 0 <= i < |ks| => PolicyOf(s, ks[i]));
    forall i | 0 <= i < |es| ensures Names(es[i], ps[i]) {
      HeldNames(rows, s, ks[i]);
    }
    LoadedNames(es, ps);
  }

  lemma LoadExact(rows: Store, s: set<Policy>)
    requires Holds(rows, s)
    ensures var r := Loaded(GetsBytes(rows, None, None));
            r.Ok? && Distinct(r.value) && forall p :: p in r.value <==> p in s
  {
    var ks := KeysWithin(rows, None, None);
    KeysWithinExact(rows, None, None);
    var ps := LoadedKeys(rows, s);
    forall i, j | 0 <= i < j < |ps| ensures ps[i] != ps[j] {
      LessAsymmetric(ks[i], ks[j]);
    }
    forall p | p in s ensures p in ps {
      assert RuleKey(p) in ks;
      var i :| 0 <= i < |ks| && ks[i] == RuleKey(p);
      RuleKeyInjective(p, ps[i]);
    }
  }

  lemma {:induction false} SetAllHolds(rows: Store, s: set<Policy>, ps: seq<Policy>)
    requires Holds(rows, s) && AllClean(ps) && AllWellFormed(ps)
    ensures Holds(SetAll(rows, ps), s + SetOf(ps))
    decreases ps
  {
    if ps == [] {
      assert s + SetOf(ps) == s;
    } else {
      var p, rest := ps[0], ps[1..];
      ConsFacts(ps);
      HoldsOneMore(rows, s, p);
      assert AllClean(rest) && AllWellFormed(rest);
      SetAllHolds(rows[RuleKey(p) := Encoded(p.rule)], s + {p}, rest);
      SetWithFirst(s, ps);
    }
  }

  /** What a save of clean well-formed rules stored, a load brings back: the saved set, each rule once. */
  lemma SaveThenLoad(entries: seq<Policy>)
    requires AllClean(entries) && AllValid(entries)
    ensures var r := Loaded(GetsBytes(SetAll(map[], entries), None, None));
            r.Ok? && Distinct(r.value) && forall p :: p in r.value <==> p in entries
  {
    AllValidIff(entries);
    SetAllHolds(map[], {}, entries);
    LoadExact(SetAll(map[], entries), {} + SetOf(entries));
  }

  // ---- runs ----

  datatype Op =
    | Add(added: seq<Policy>)
    | Remove(removed: seq<Policy>)
    | Filter(sec: string, ptype: string, index: nat, values: seq<Field>)
              | Save(entries: seq<Policy>) | Clear

  ghost predicate Matching(p: Policy, op: Op)
    requires op.Filter?
  {
    p.sec == op.sec && p.ptype == op.ptype && HasFields(p.rule, op.index, op.values)
  }

  function StepRows(rows: Store, op: Op): Store {
    match op
    case Add(ps) => Added(rows, ps).0
    case Remove(ps) => Removed(rows, ps).0
    case Filter(sec, ptype, index, values) =>
      var prefix := PrefixOf(sec, ptype);
      if Unreadable(rows, prefix) then rows
      else rows - (set k | k in rows && HitKey(rows, k, prefix, index, values))
    case Save(entries) => if AllValid(entries) then SetAll(map[], entries) else map[]
    case Clear => map[]
  }

  /** The same operations on the set of policies. */
  ghost function StepSet(s: set<Policy>, op: Op): set<Policy> {
    match op
    case Add(ps) =>
      if AllWellFormed(ps) && Distinct(ps) && SetOf(ps) !! s then s + SetOf(ps) else s
    case Remove(ps) => if Distinct(ps) && SetOf(ps) <= s then s - SetOf(ps) else s
    case Filter(_, _, _, _) => set p | p in s && !Matching(p, op)
    case Save(entries) => if AllWellFormed(entries) then SetOf(entries) else {}
    case Clear => {}
  }

  ghost predicate CleanOp(op: Op) {
    (op.Add? ==> AllClean(op.added)) && (op.Remove? ==> AllClean(op.removed)) && (op.Save? ==> AllClean(op.entries))
  }

  lemma StepRefines(rows: Store, s: set<Policy>, op: Op)
    requires Holds(rows, s) && CleanOp(op)
    ensures Holds(StepRows(rows, op), StepSet(s, op))
  {
    match op
    case Add(ps) =>
      AddExact(rows, s, ps);
    case Remove(ps) => RemoveExact(rows, s, ps);
    case Filter(sec, ptype, index, values) =>
      FilteredExact(rows, s, sec, ptype, index, values);
      assert StepSet(s, op) ==
             s - (set p | p in s && p.sec == sec && p.ptype == ptype && HasFields(p.rule, index, values));
    case Save(entries) =>
      AllValidIff(entries);
      if AllValid(entries) {
        SetAllHolds(map[], {}, entries);
        assert {} + SetOf(entries) == SetOf(entries);
      }
    case Clear =>
  }

  function RunRows(ops: seq<Op>): Store {
    if ops == [] then map[] else StepRows(RunRows(ops[..|ops| - 1]), ops[|ops| - 1])
  }

  ghost function RunSet(ops: seq<Op>): set<Policy> {
    if ops == [] then {} else StepSet(RunSet(ops[..|ops| - 1]), ops[|ops| - 1])
  }

  /** After any run of the adapter on clean rules, a load brings exactly the set that the run describes. */
  lemma {:induction false} RunRefines(ops: seq<Op>)
    requires forall op :: op in ops ==> CleanOp(op)
    ensures Holds(RunRows(ops), RunSet(ops))
    ensures var r := Loaded(GetsBytes(RunRows(ops), None, None));
            r.Ok? && Distinct(r.value) && forall p :: p in r.value <==> p in RunSet(ops)
  {
    if ops != [] {
      var before, op := ops[..|ops| - 1], ops[|ops| - 1];
      assert op in ops;
      RunRefines(before);
      StepRefines(RunRows(before), RunSet(before), op);
    }
    LoadExact(RunRows(ops), RunSet(ops));
  }
}
