// The paged walk over the whole keyspace (src/fs/store.rs, `KvPages`). Anything may be inserted or
// deleted between two calls; the walk holds one page at a time.
module KvPages {
  import opened Keys
  import opened Wrappers

  const SCAN_PAGE: nat := 512

  datatype Walk<V> = Walk(cursor: Option<string>, buffer: seq<KeyValue<V>>, exhausted: bool)

  function Start<V>(): Walk<V> { Walk(None, [], false) }

  /** One page; the read may only be bounded below, and the bound is inclusive. */
  function Page<V>(rows: Rows<V>, cursor: Option<string>, page: nat): seq<KeyValue<V>> {
    FirstOf(GetsBytes(rows, cursor, None), page)
  }

  /** The entries without the key that the walk resumed from. */
  function WithoutResume<V>(es: seq<KeyValue<V>>, cursor: Option<string>): seq<KeyValue<V>> {
    if cursor.Some? && es != [] && es[0].key == cursor.value then es[1..] else es
  }

  function Fresh<V>(rows: Rows<V>, cursor: Option<string>, page: nat): seq<KeyValue<V>> {
    WithoutResume(Page(rows, cursor, page), cursor)
  }

  /** One call of `next`, when a page read would bring `more`. */
  function StepWith<V>(w: Walk<V>, more: seq<KeyValue<V>>): (Walk<V>, Option<KeyValue<V>>) {
    if w.buffer != [] then (w.(buffer := w.buffer[1..]), Some(w.buffer[0]))
    else if w.exhausted then (w, None)
    else if more == [] then (w.(exhausted := true), None)
    else (Walk(Some(more[|more| - 1].key), more[1..], false), Some(more[0]))
  }

  /** One call of `next` while the store holds `rows`. */
  function WalkStep<V>(w: Walk<V>, rows: Rows<V>, page: nat): (Walk<V>, Option<KeyValue<V>>) {
    StepWith(w, Fresh(rows, w.cursor, page))
  }

  /** The store handle that a walk shares with the writers. */
  class KvStore<V> {
    var rows: Rows<V>

    constructor ()
      ensures rows == map[]
    {
      rows := map[];
    }
  }

  class KvPages<V> {
    const store: KvStore<V>
    var cursor: Option<string>
    var buffer: seq<KeyValue<V>>
    var exhausted: bool

    ghost function View(): Walk<V>
      reads this
    {
      Walk(cursor, buffer, exhausted)
    }

    constructor (store: KvStore<V>)
      ensures View() == Start() && this.store == store
    {
      this.store := store;
      cursor := None;
      buffer := [];
      exhausted := false;
    }

    /** The next key and value; `failed` says that a page read, if one is needed, fails. */
    method Next(failed: bool) returns (r: Result<Option<KeyValue<V>>, string>)
      modifies this
      ensures r.Err? <==> failed && old(buffer) == [] && !old(exhausted)
      ensures r.Err? ==> r == Err("store") && View() == old(View())
      ensures r.Ok? ==> (View(), r.value) == WalkStep(old(View()), store.rows, SCAN_PAGE)
    {
      if buffer != [] {
        r := Ok(Some(buffer[0]));
        buffer := buffer[1..];
        return;
      }
      if exhausted { return Ok(None); }
      if failed { return Err("store"); }
      var page := Page(store.rows, cursor, SCAN_PAGE);
      if cursor.Some? && page != [] && page[0].key == cursor.value {
        page := page[1..];
      }
      if page == [] {
        exhausted := true;
        return Ok(None);
      }
      cursor := Some(page[|page| - 1].key);
      buffer := page[1..];
      return Ok(Some(page[0]));
    }
  }

  // ---- what one page holds ----

  function KeysOf<V>(es: seq<KeyValue<V>>): (ks: seq<string>)
    ensures |ks| == |es| && forall i :: 0 <= i < |ks| ==> ks[i] == es[i].key
  {
    seq(|es|, i requires 0 <= i < |es| => es[i].key)
  }

  predicate Beyond(cursor: Option<string>, k: string) {
    cursor.Some? ==> Less(cursor.value, k)
  }

  /** Everything the store holds beyond the cursor, in order. */
  function Ahead<V>(rows: Rows<V>, cursor: Option<string>): seq<KeyValue<V>> {
    WithoutResume(GetsBytes(rows, cursor, None), cursor)
  }

  lemma ResumeKeyFirst(ks: seq<string>, cursor: string)
    requires Ascending(ks) && (forall k :: k in ks ==> AtMost(cursor, k)) && cursor in ks
    ensures ks[0] == cursor
  {
    var i :| 0 <= i < |ks| && ks[i] == cursor;
    if i > 0 {
      assert ks[0] in ks && Less(ks[0], ks[i]);
      LessAsymmetric(ks[0], cursor);
    }
  }

  /** An ascending sequence of keys from the cursor on, without the cursor itself. */
  lemma WithoutResumeKey(ks: seq<string>, cursor: string, k: string)
    requires Ascending(ks) && forall l :: l in ks ==> AtMost(cursor, l)
    ensures var rest := if ks != [] && ks[0] == cursor then ks[1..] else ks;
            Ascending(rest) && (k in rest <==> k in ks && Less(cursor, k))
  {
    LessIrreflexive(cursor);
    if ks != [] && ks[0] == cursor {
      TailOfAscending(ks, k);
    } else if cursor in ks {
      ResumeKeyFirst(ks, cursor);
    }
  }

  lemma AheadExact<V>(rows: Rows<V>, cursor: Option<string>)
    ensures var ahead := Ahead(rows, cursor);
            && Ascending(KeysOf(ahead))
            && (forall k :: k in KeysOf(ahead) <==> k in rows && Beyond(cursor, k))
            && (forall e :: e in ahead ==> e.key in rows && e.value == rows[e.key])
  {
    var ks, all, ahead := KeysWithin(rows, cursor, None), GetsBytes(rows, cursor, None), Ahead(rows, cursor);
    KeysWithinExact(rows, cursor, None);
    assert KeysOf(all) == ks;
    forall e | e in ahead ensures e.key in rows && e.value == rows[e.key] {
      assert e in all;
    }
    if cursor.Some? {
      var rest := if ks != [] && ks[0] == cursor.value then ks[1..] else ks;
      assert KeysOf(ahead) == rest;
      WithoutResumeKey(ks, cursor.value, "");
      forall k ensures k in rest <==> k in rows && Less(cursor.value, k) {
        WithoutResumeKey(ks, cursor.value, k);
      }
    }
  }

  lemma FirstWithoutResume<V>(all: seq<KeyValue<V>>, cursor: Option<string>, page: nat)
    requires page >= 2
    ensures var more, ahead := WithoutResume(FirstOf(all, page), cursor), WithoutResume(all, cursor);
            more <= ahead && (more == [] <==> ahead == [])
  {
    if |all| > page {
      var first := all[..page];
      assert first[0] == all[0] && first[1..] == all[1..][..page - 1];
    }
  }

  /** A page of at least two holds the next keys, and holds none only when there are none. */
  lemma FreshIsAhead<V>(rows: Rows<V>, cursor: Option<string>, page: nat)
    requires page >= 2
    ensures var more, ahead := Fresh(rows, cursor, page), Ahead(rows, cursor);
            more <= ahead && (more == [] <==> ahead == [])
  {
    FirstWithoutResume(GetsBytes(rows, cursor, None), cursor, page);
  }

  /** `more` is the next piece of what `rows` holds beyond the cursor, and empty only if that is. */
  ghost predicate Fetched<V>(rows: Rows<V>, cursor: Option<string>, more: seq<string>) {
    && Ascending(more)
    && (forall k :: k in more ==> k in rows && Beyond(cursor, k))
    && (forall k :: k in rows && Beyond(cursor, k) && k !in more ==> more != [] && Less(more[|more| - 1], k))
  }

  lemma FreshFetched<V>(rows: Rows<V>, cursor: Option<string>, page: nat)
    requires page >= 2
    ensures Fetched(rows, cursor, KeysOf(Fresh(rows, cursor, page)))
  {
    FreshIsAhead(rows, cursor, page);
    AheadExact(rows, cursor);
    FrontFetched(rows, cursor, KeysOf(Ahead(rows, cursor)), |Fresh(rows, cursor, page)|);
    assert KeysOf(Fresh(rows, cursor, page)) == KeysOf(Ahead(rows, cursor))[..|Fresh(rows, cursor, page)|];
  }

  lemma FrontFetched<V>(rows: Rows<V>, cursor: Option<string>, ks: seq<string>, n: nat)
    requires Ascending(ks) && n <= |ks| && (n == 0 ==> ks == [])
    requires forall k :: k in ks <==> k in rows && Beyond(cursor, k)
    ensures Fetched(rows, cursor, ks[..n])
  {
    forall k ensures k in ks ==> k in ks[..n] || (n > 0 && Less(ks[n - 1], k)) {
      InFrontOrBehind(ks, n, k);
    }
  }

  lemma InFrontOrBehind(ks: seq<string>, n: nat, k: string)
    requires Ascending(ks) && n <= |ks| && (n == 0 ==> ks == [])
    ensures k in ks ==> k in ks[..n] || Less(ks[n - 1], k)
  {
    if k in ks && k !in ks[..n] {
      assert ks == ks[..n] + ks[n..];
      var i :| 0 <= i < |ks| - n && ks[n..][i] == k;
      assert Less(ks[n - 1], ks[n + i]);
    }
  }

  // ---- runs with a changing store ----

  /** The walk after one call per element of `stores`, each being what the store held at that call. */
  function WalkAfter<V>(stores: seq<Rows<V>>, page: nat): Walk<V> {
    if stores == [] then Start()
    else WalkStep(WalkAfter(stores[..|stores| - 1], page), stores[|stores| - 1], page).0
  }

  /** What call `i` returned. */
  function Out<V>(stores: seq<Rows<V>>, page: nat, i: nat): Option<KeyValue<V>>
    requires i < |stores|
  {
    WalkStep(WalkAfter(stores[..i], page), stores[i], page).1
  }

  /** Everything that was returned so far. */
  function Returned<V>(stores: seq<Rows<V>>, page: nat): seq<KeyValue<V>> {
    if stores == [] then []
    else Returned(stores[..|stores| - 1], page) + Given(Out(stores, page, |stores| - 1))
  }

  function Given<T>(out: Option<T>): seq<T> {
    match out
    case Some(x) => [x]
    case None => []
  }

  ghost predicate AlwaysThere<V>(stores: seq<Rows<V>>, k: string) {
    forall i :: 0 <= i < |stores| ==> k in stores[i]
  }

  /** `all` is what was returned and what is buffered. */
  ghost predicate WalkInv<V>(stores: seq<Rows<V>>, w: Walk<V>, all: seq<string>) {
    && Ascending(all)
    && w.cursor == (if all == [] then None else Some(all[|all| - 1]))
    && (w.exhausted ==> w.buffer == [])
    && (forall k :: AlwaysThere(stores, k) ==> k in all || (!w.exhausted && Beyond(w.cursor, k)))
  }

  lemma AppendAscending(a: seq<string>, b: seq<string>)
    requires Ascending(a) && Ascending(b)
    requires a != [] && b != [] ==> Less(a[|a| - 1], b[0])
    ensures Ascending(a + b)
  {
    var all := a + b;
    forall i, j | 0 <= i < j < |all| ensures Less(all[i], all[j]) {
      if i < |a| <= j {
        if i < |a| - 1 { LessTransitive(a[i], a[|a| - 1], b[0]); }
        if j > |a| { LessTransitive(a[i], b[0], b[j - |a|]); }
      }
    }
  }

  lemma PrefixStanding<V>(before: seq<Rows<V>>, rows: Rows<V>, k: string)
    requires AlwaysThere(before + [rows], k)
    ensures AlwaysThere(before, k) && k in rows
  {
    var all := before + [rows];
    assert all[|before|] == rows;
    assert forall i :: 0 <= i < |before| ==> all[i] == before[i];
  }

  lemma FetchKeepsInv<V>(before: seq<Rows<V>>, rows: Rows<V>, w: Walk<V>, all: seq<string>, more: seq<KeyValue<V>>)
    requires WalkInv(before, w, all) && w.buffer == [] && !w.exhausted && Fetched(rows, w.cursor, KeysOf(more))
    ensures WalkInv(before + [rows], StepWith(w, more).0, all + KeysOf(more))
  {
    var w', ms := StepWith(w, more).0, KeysOf(more);
    if ms != [] { assert ms[0] in ms; }
    AppendAscending(all, ms);
    forall k | AlwaysThere(before + [rows], k)
      ensures k in all + ms || (!w'.exhausted && Beyond(w'.cursor, k))
    {
      PrefixStanding(before, rows, k);
    }
  }

  /** One call, whether it fetches or not. */
  lemma StepKeepsInv<V>(before: seq<Rows<V>>, rows: Rows<V>, w: Walk<V>, ret: seq<KeyValue<V>>, more: seq<KeyValue<V>>)
    requires WalkInv(before, w, KeysOf(ret + w.buffer)) && Fetched(rows, w.cursor, KeysOf(more))
    ensures var (w', out) := StepWith(w, more);
            WalkInv(before + [rows], w', KeysOf(ret + Given(out) + w'.buffer))
  {
    var (w', out) := StepWith(w, more);
    var ret' := ret + Given(out);
    if w.buffer == [] && !w.exhausted {
      FetchKeepsInv(before, rows, w, KeysOf(ret + w.buffer), more);
      assert ret' + w'.buffer == ret + w.buffer + more;
      assert KeysOf(ret' + w'.buffer) == KeysOf(ret + w.buffer) + KeysOf(more);
    } else {
      assert ret' + w'.buffer == ret + w.buffer;
      forall k | AlwaysThere(before + [rows], k) ensures AlwaysThere(before, k) {
        PrefixStanding(before, rows, k);
      }
    }
  }

  lemma {:induction false} RunKeepsInv<V>(stores: seq<Rows<V>>, page: nat)
    requires page >= 2
    ensures WalkInv(stores, WalkAfter(stores, page), KeysOf(Returned(stores, page) + WalkAfter(stores, page).buffer))
  {
    if stores != [] {
      var before, rows := stores[..|stores| - 1], stores[|stores| - 1];
      RunKeepsInv(before, page);
      assert stores == before + [rows];
      var w := WalkAfter(before, page);
      FreshFetched(rows, w.cursor, page);
      StepKeepsInv(before, rows, w, Returned(before, page), Fresh(rows, w.cursor, page));
    }
  }

  /** Whatever is written between the pages, the keys come back strictly ascending. */
  lemma ReturnedAscending<V>(stores: seq<Rows<V>>, page: nat)
    requires page >= 2
    ensures Ascending(KeysOf(Returned(stores, page)))
  {
    RunKeepsInv(stores, page);
    var ret, buffer := Returned(stores, page), WalkAfter(stores, page).buffer;
    var all, ks := KeysOf(ret + buffer), KeysOf(ret);
    assert forall i :: 0 <= i < |ks| ==> ks[i] == all[i];
  }

  /** A walk that ended returned every key that was there at each of its calls; once, by `ReturnedAscending`. */
  lemma StandingKeysReturned<V>(stores: seq<Rows<V>>, page: nat, k: string)
    requires page >= 2 && stores != [] && Out(stores, page, |stores| - 1) == None
    requires AlwaysThere(stores, k)
    ensures k in KeysOf(Returned(stores, page))
  {
    RunKeepsInv(stores, page);
    var w := WalkAfter(stores, page);
    assert w.exhausted && w.buffer == [];
    assert Returned(stores, page) + w.buffer == Returned(stores, page);
  }

  lemma NoneStays<V>(w: Walk<V>, more: seq<KeyValue<V>>)
    ensures StepWith(w, more).1 == None <==> w.buffer == [] && StepWith(w, more).0.exhausted
    ensures w.buffer == [] && w.exhausted ==> StepWith(w, more) == (w, None)
  {
  }

  lemma {:induction false} EndedStays<V>(stores: seq<Rows<V>>, page: nat, i: nat, j: nat)
    requires i < j <= |stores| && Out(stores, page, i) == None
    ensures WalkAfter(stores[..j], page).buffer == [] && WalkAfter(stores[..j], page).exhausted
    decreases j
  {
    assert stores[..j][..j - 1] == stores[..j - 1] && stores[..j][j - 1] == stores[j - 1];
    var w := WalkAfter(stores[..j - 1], page);
    NoneStays(w, Fresh(stores[j - 1], w.cursor, page));
    if i < j - 1 {
      EndedStays(stores, page, i, j - 1);
    }
  }

  /** The end of a walk is final. */
  lemma NoneIsFinal<V>(stores: seq<Rows<V>>, page: nat, i: nat, j: nat)
    requires i < j < |stores| && Out(stores, page, i) == None
    ensures Out(stores, page, j) == None
  {
    EndedStays(stores, page, i, j);
  }

  ghost predicate StoredAt<V>(rows: Rows<V>, e: KeyValue<V>) {
    e.key in rows && rows[e.key] == e.value
  }

  lemma FreshIsStored<V>(rows: Rows<V>, cursor: Option<string>, page: nat, e: KeyValue<V>)
    requires e in Fresh(rows, cursor, page)
    ensures StoredAt(rows, e)
  {
    KeysWithinExact(rows, cursor, None);
    assert e in GetsBytes(rows, cursor, None);
  }

  lemma StepReturnsFresh<V>(w: Walk<V>, more: seq<KeyValue<V>>, e: KeyValue<V>)
    requires e in Given(StepWith(w, more).1) + StepWith(w, more).0.buffer
    ensures e in w.buffer || e in more
  {
  }

  /** Nothing is made up: what comes back was in the store at some call of the walk, with that value. */
  lemma {:induction false} ReturnedWasStored<V>(stores: seq<Rows<V>>, page: nat, e: KeyValue<V>)
    requires e in Returned(stores, page) || e in WalkAfter(stores, page).buffer
    ensures exists i :: 0 <= i < |stores| && StoredAt(stores[i], e)
  {
    var n := |stores| - 1;
    var before := stores[..n];
    var w := WalkAfter(before, page);
    if e in Returned(before, page) || e in w.buffer {
      ReturnedWasStored(before, page, e);
      var i :| 0 <= i < |before| && StoredAt(before[i], e);
      assert stores[i] == before[i];
    } else {
      var more := Fresh(stores[n], w.cursor, page);
      StepReturnsFresh(w, more, e);
      FreshIsStored(stores[n], w.cursor, page, e);
    }
  }

  // ---- a store that stays as it is ----

  /** What a walk still has to return if the store keeps holding `rows`. */
  function Rest<V>(w: Walk<V>, rows: Rows<V>): seq<KeyValue<V>> {
    BufferThen(w, Ahead(rows, w.cursor))
  }

  function BufferThen<V>(w: Walk<V>, ahead: seq<KeyValue<V>>): seq<KeyValue<V>> {
    w.buffer + if w.exhausted then [] else ahead
  }

  lemma TailBeyond(ks: seq<string>, n: nat, k: string)
    requires Ascending(ks) && 0 < n <= |ks|
    ensures k in ks[n..] <==> k in ks && Less(ks[n - 1], k)
  {
    if k in ks {
      var i :| 0 <= i < |ks| && ks[i] == k;
      if i < n {
        LessIrreflexive(k);
        if i < n - 1 { LessAsymmetric(k, ks[n - 1]); }
      } else {
        assert ks[n..][i - n] == k;
      }
    }
  }

  lemma AheadDetermined<V>(rows: Rows<V>, cursor: Option<string>, es: seq<KeyValue<V>>)
    requires Ascending(KeysOf(es)) && forall e :: e in es ==> e.key in rows && e.value == rows[e.key]
    requires forall k :: k in KeysOf(es) <==> k in rows && Beyond(cursor, k)
    ensures es == Ahead(rows, cursor)
  {
    var ahead := Ahead(rows, cursor);
    AheadExact(rows, cursor);
    AscendingUnique(KeysOf(es), KeysOf(ahead));
    assert |es| == |KeysOf(es)| == |ahead|;
    forall i | 0 <= i < |es| ensures es[i] == ahead[i] {
      assert es[i] in es && ahead[i] in ahead && KeysOf(es)[i] == KeysOf(ahead)[i];
    }
  }

  /** Resuming from the `n`-th key ahead leaves what came after it. */
  lemma AheadOfLast<V>(rows: Rows<V>, cursor: Option<string>, n: nat)
    requires 0 < n <= |Ahead(rows, cursor)|
    ensures Ahead(rows, Some(Ahead(rows, cursor)[n - 1].key)) == Ahead(rows, cursor)[n..]
  {
    var ahead := Ahead(rows, cursor);
    AheadExact(rows, cursor);
    TailOfAhead(rows, cursor, ahead, KeysOf(ahead), n);
    AheadDetermined(rows, Some(ahead[n - 1].key), ahead[n..]);
  }

  lemma TailOfAhead<V>(rows: Rows<V>, cursor: Option<string>, ahead: seq<KeyValue<V>>, ks: seq<string>, n: nat)
    requires ks == KeysOf(ahead) && Ascending(ks) && 0 < n <= |ahead|
    requires forall k :: k in ks <==> k in rows && Beyond(cursor, k)
    ensures Ascending(KeysOf(ahead[n..]))
    ensures forall k :: k in KeysOf(ahead[n..]) <==> k in rows && Less(ks[n - 1], k)
  {
    assert KeysOf(ahead[n..]) == ks[n..];
    assert ks[n - 1] in ks;
    forall k ensures k in ks[n..] <==> k in rows && Less(ks[n - 1], k) {
      TailBeyond(ks, n, k);
      if Less(ks[n - 1], k) && cursor.Some? {
        LessTransitive(cursor.value, ks[n - 1], k);
      }
    }
  }

  /** A fetch, when `later` is what is ahead of the cursor that it leaves. */
  lemma FetchTakesFirst<V>(w: Walk<V>, more: seq<KeyValue<V>>, ahead: seq<KeyValue<V>>, later: seq<KeyValue<V>>)
    requires more <= ahead && (more == [] <==> ahead == []) && w.buffer == [] && !w.exhausted
    requires more != [] ==> later == ahead[|more|..]
    ensures var (w', out) := StepWith(w, more); Takes(ahead, out, BufferThen(w', later))
    ensures more != [] ==> StepWith(w, more).0.cursor == Some(ahead[|more| - 1].key)
  {
    if more != [] {
      assert ahead[1..] == more[1..] + ahead[|more|..];
    }
  }

  /** However a walk came about: over a store that stays, it returns its rest, and then nothing. */
  lemma StepTakesRest<V>(w: Walk<V>, rows: Rows<V>, page: nat)
    requires page >= 2
    ensures var (w', out) := WalkStep(w, rows, page);
            Takes(Rest(w, rows), out, Rest(w', rows))
  {
    if w.buffer == [] && !w.exhausted {
      var ahead, more := Ahead(rows, w.cursor), Fresh(rows, w.cursor, page);
      var later := Ahead(rows, StepWith(w, more).0.cursor);
      FreshIsAhead(rows, w.cursor, page);
      if more != [] { AheadOfLast(rows, w.cursor, |more|); }
      FetchTakesFirst(w, more, ahead, later);
      assert Rest(w, rows) == [] + ahead == ahead;
    }
  }

  /** One element is taken from the front, if there is one. */
  predicate Takes<T(==)>(rest: seq<T>, out: Option<T>, rest': seq<T>) {
    if rest == [] then out == None && rest' == [] else out == Some(rest[0]) && rest' == rest[1..]
  }

  lemma TakesGives<T>(ret: seq<T>, rest: seq<T>, out: Option<T>, rest': seq<T>, all: seq<T>, n: nat)
    requires Takes(rest, out, rest') && ret + rest == all && |ret| == (if n <= |all| then n else |all|)
    ensures ret + Given(out) + rest' == all
    ensures |ret + Given(out)| == if n + 1 <= |all| then n + 1 else |all|
  {
  }

  function Repeat<V>(rows: Rows<V>, n: nat): seq<Rows<V>> {
    seq(n, _ => rows)
  }

  lemma RepeatLess<V>(rows: Rows<V>, n: nat)
    ensures Repeat(rows, n + 1)[..n] == Repeat(rows, n)
  {
  }

  lemma FixedWalkStep<V>(rows: Rows<V>, page: nat, n: nat)
    requires page >= 2
    ensures var w, w' := WalkAfter(Repeat(rows, n), page), WalkAfter(Repeat(rows, n + 1), page);
            var out := Out(Repeat(rows, n + 1), page, n);
            && Takes(Rest(w, rows), out, Rest(w', rows))
            && Returned(Repeat(rows, n + 1), page) == Returned(Repeat(rows, n), page) + Given(out)
  {
    RepeatLess(rows, n);
    StepTakesRest(WalkAfter(Repeat(rows, n), page), rows, page);
  }

  /** After `n` calls, what was returned and what is left make up all the rows. */
  ghost predicate ReturnsRest<V>(rows: Rows<V>, ret: seq<KeyValue<V>>, rest: seq<KeyValue<V>>, n: nat) {
    var all := GetsBytes(rows, None, None);
    ret + rest == all && |ret| == if n <= |all| then n else |all|
  }

  ghost predicate WalkReturnsRest<V>(rows: Rows<V>, page: nat, n: nat) {
    ReturnsRest(rows, Returned(Repeat(rows, n), page), Rest(WalkAfter(Repeat(rows, n), page), rows), n)
  }

  lemma FixedWalkStart<V>(rows: Rows<V>, page: nat)
    ensures WalkReturnsRest(rows, page, 0)
  {
    var none := Repeat(rows, 0);
    assert none == [];
    assert Returned(none, page) == [] && WalkAfter(none, page) == Start<V>();
    assert Rest(Start(), rows) == [] + Ahead(rows, None);
  }

  lemma FixedWalkNext<V>(rows: Rows<V>, page: nat, n: nat)
    requires page >= 2
    requires WalkReturnsRest(rows, page, n)
    ensures WalkReturnsRest(rows, page, n + 1)
  {
    var w, w' := WalkAfter(Repeat(rows, n), page), WalkAfter(Repeat(rows, n + 1), page);
    FixedWalkStep(rows, page, n);
    TakesGives(Returned(Repeat(rows, n), page), Rest(w, rows), Out(Repeat(rows, n + 1), page, n), Rest(w', rows),
               GetsBytes(rows, None, None), n);
  }

  lemma {:induction false} FixedWalkRest<V>(rows: Rows<V>, page: nat, n: nat)
    requires page >= 2
    ensures WalkReturnsRest(rows, page, n)
  {
    if n == 0 {
      FixedWalkStart(rows, page);
    } else {
      FixedWalkRest(rows, page, n - 1);
      FixedWalkNext(rows, page, n - 1);
    }
  }

  lemma KeyCount<V>(rows: Rows<V>)
    ensures |GetsBytes(rows, None, None)| == |rows|
  {
    var s := set k | k in rows && Within(k, None, None);
    assert s == rows.Keys;
    SortedExact(s);
  }

  /** On a fixed store the first `n` calls return the first `n` rows in key order, and the end comes after the last. */
  lemma FixedWalk<V>(rows: Rows<V>, page: nat, n: nat)
    requires page >= 2
    ensures Returned(Repeat(rows, n), page) == FirstOf(GetsBytes(rows, None, None), n)
    ensures Out(Repeat(rows, n + 1), page, n) == None <==> n >= |rows|
  {
    KeyCount(rows);
    FixedWalkRest(rows, page, n);
    FixedWalkStep(rows, page, n);
  }

  /** With pages of one key the resume key is the whole next page, which reads as the end. */
  lemma SmallPageIsResumeKey<V>(rows: Rows<V>, page: nat)
    requires page < 2
    ensures var w := WalkStep(Start(), rows, page).0;
            w.buffer == [] && (w.exhausted || Fresh(rows, w.cursor, page) == [])
  {
    var w := WalkStep(Start(), rows, page).0;
    if page == 1 && !w.exhausted {
      var ks := KeysWithin(rows, w.cursor, None);
      KeysWithinExact(rows, None, None);
      KeysWithinExact(rows, w.cursor, None);
      assert w.cursor.value in KeysWithin(rows, None, None);
      assert w.cursor.value in ks;
      ResumeKeyFirst(ks, w.cursor.value);
    }
  }

  lemma SmallPageLosesKeys<V>(rows: Rows<V>, page: nat)
    requires page < 2
    ensures |Returned(Repeat(rows, 2), page)| <= 1
  {
    RepeatLess(rows, 0);
    RepeatLess(rows, 1);
    assert Repeat(rows, 0) == [];
    SmallPageIsResumeKey(rows, page);
    assert |Returned(Repeat(rows, 1), page)| <= 1;
    assert WalkAfter(Repeat(rows, 1), page) == WalkStep(Start(), rows, page).0;
    assert Out(Repeat(rows, 2), page, 1) == None;
  }

  /** So the page size must be at least two, and any such size will do. */
  lemma PageSizeIff(page: nat)
    ensures page >= 2 <==>
            forall rows: Rows<nat>, n: nat ::
              n >= |rows| ==> Returned(Repeat(rows, n), page) == GetsBytes(rows, None, None)
  {
    if page >= 2 {
      forall rows: Rows<nat>, n: nat | n >= |rows|
        ensures Returned(Repeat(rows, n), page) == GetsBytes(rows, None, None)
      {
        FixedWalk(rows, page, n);
        KeyCount(rows);
      }
    } else {
      var rows: Rows<nat> := map["a" := 0, "b" := 0];
      assert rows.Keys == {"a", "b"} && "a"[0] != "b"[0];
      SmallPageLosesKeys(rows, page);
      KeyCount(rows);
    }
  }
}
