// Per-session serialization in the engine (src/fs/mod.rs): a map of lock entries that exist exactly
// as long as somebody claims them.
module SessionLocks {

  /** One session's lock and the number of claims on it. */
  class SessionEntry {
    var locked: bool   // the async mutex
    var claims: nat
    /** The claim whose guard locked the mutex. */
    ghost var holder: SessionLock?

    constructor ()
      ensures !locked && claims == 0 && holder == null
    {
      locked := false;
      claims := 0;
      holder := null;
    }
  }

  /** A claim on the lock of one session; `held` while its guard lives. */
  class SessionLock {
    const key: string
    const entry: SessionEntry
    ghost var held: bool

    constructor (key: string, entry: SessionEntry)
      ensures this.key == key && this.entry == entry && !held
    {
      this.key := key;
      this.entry := entry;
      held := false;
    }
  }

  /** The live claims on one key. */
  ghost function On(live: set<SessionLock>, key: string): set<SessionLock> {
    set c | c in live && c.key == key
  }

  ghost function Count(live: set<SessionLock>, key: string): nat {
    |On(live, key)|
  }

  lemma CountAdd(live: set<SessionLock>, c: SessionLock)
    requires c !in live
    ensures forall k :: Count(live + {c}, k) == Count(live, k) + if k == c.key then 1 else 0
  {
    forall k ensures Count(live + {c}, k) == Count(live, k) + if k == c.key then 1 else 0 {
      assert On(live + {c}, k) == if k == c.key then On(live, k) + {c} else On(live, k);
    }
  }

  lemma CountRemove(live: set<SessionLock>, c: SessionLock)
    requires c in live
    ensures forall k :: Count(live - {c}, k) == Count(live, k) - if k == c.key then 1 else 0
  {
    assert live - {c} + {c} == live;
    CountAdd(live - {c}, c);
  }

  /** A key with no live claim counts zero, and only such a key. */
  lemma CountZero(live: set<SessionLock>, key: string)
    ensures Count(live, key) == 0 <==> forall c :: c in live ==> c.key != key
  {
    if Count(live, key) == 0 {
      forall c | c in live ensures c.key != key {
        assert c.key == key ==> c in On(live, key);
      }
    } else {
      var c :| c in On(live, key);
    }
  }

  class SessionLocks {
    var inner: map<string, SessionEntry>
    /** Claims that were registered and not dropped. */
    ghost var live: set<SessionLock>

    ghost function Repr(): set<object>
      reads this
    {
      {this} + (set k | k in inner :: inner[k] as object) + (set c: SessionLock | c in live :: c as object)
    }

    /** Claims on one key share one entry, counted, and different keys never share an entry. */
    ghost predicate Registered()
      reads this, Repr()
    {
      && (forall c :: c in live ==> c.key in inner && inner[c.key] == c.entry)
      && (forall k :: k in inner ==> inner[k].claims == Count(live, k))
      && (forall k, l :: k in inner && l in inner && k != l ==> inner[k] != inner[l])
    }

    /** A locked mutex has a live guard, and every live guard is the one that locked its mutex. */
    ghost predicate Guarded()
      requires Registered()
      reads this, Repr()
    {
      && (forall k :: k in inner ==>
            var h := inner[k].holder;
            (inner[k].locked <==> h != null) && (h != null ==> h in live && h.key == k && h.held))
      && (forall c :: c in live && c.held ==> c.entry.holder == c)
    }

    ghost predicate Valid()
      reads this, Repr()
    {
      // an entry lives only as long as somebody claims it
      Registered() && Guarded() && forall k :: k in inner ==> inner[k].claims > 0
    }

    constructor ()
      ensures Valid() && live == {} && inner == map[]
    {
      inner := map[];
      live := {};
    }

    /** The entry that a first claim on `key` inserts. */
    method Insert(key: string)
      requires Registered() && Guarded() && key !in inner
      modifies this`inner
      ensures Registered() && Guarded()
      ensures key in inner && fresh(inner[key]) && inner == old(inner)[key := inner[key]]
    {
      CountZero(live, key);
      var entry := new SessionEntry();
      inner := inner[key := entry];
    }

    /** Counts a new claim on an entry that is in the map. */
    method Register(claim: SessionLock)
      requires Registered() && Guarded() && claim !in live && !claim.held
      requires claim.key in inner && inner[claim.key] == claim.entry
      modifies this`live, claim.entry`claims
      ensures Registered() && Guarded() && live == old(live) + {claim}
      ensures claim.entry.claims == old(claim.entry.claims) + 1
    {
      CountAdd(live, claim);
      live := live + {claim};
      claim.entry.claims := claim.entry.claims + 1;
    }

    /** Registers a claim on `key`, under the map mutex. */
    method Acquire(key: string) returns (claim: SessionLock)
      requires Valid()
      modifies this, (if key in inner then {inner[key]} else {})`claims
      ensures Valid() && fresh(claim) && claim.key == key && !claim.held
      ensures live == old(live) + {claim}
      ensures inner.Keys == old(inner.Keys) + {key}
      ensures forall k :: k in old(inner) ==> inner[k] == old(inner[k])
    {
      if key !in inner {
        Insert(key);
      }
      claim := new SessionLock(key, inner[key]);
      Register(claim);
    }

    /** One poll of the async mutex: takes it if it is free. */
    method TryLock(claim: SessionLock) returns (guarded: bool)
      requires Valid() && claim in live && !claim.held
      modifies claim.entry`locked, claim.entry`holder, claim`held
      ensures Valid() && live == old(live) && inner == old(inner)
      ensures guarded <==> !old(inner[claim.key].locked)
      ensures guarded <==> forall c :: c in live && c.key == claim.key ==> !old(c.held)
      ensures claim.held <==> guarded
      ensures forall c :: c in live && c != claim ==> c.held == old(c.held)
    {
      guarded := !claim.entry.locked;
      if guarded {
        claim.entry.locked, claim.entry.holder := true, claim;
        claim.held := true;
      }
    }

    /** The guard of `claim` drops. */
    method Unlock(claim: SessionLock)
      requires Valid() && claim in live && claim.held
      modifies claim.entry`locked, claim.entry`holder, claim`held
      ensures Valid() && live == old(live) && inner == old(inner)
      ensures !claim.held && forall c :: c in live && c != claim ==> c.held == old(c.held)
    {
      claim.entry.locked, claim.entry.holder := false, null;
      claim.held := false;
    }

    /** The claim drops. The guard borrows the claim, so it is gone by then. */
    method Drop(claim: SessionLock)
      requires Valid() && claim in live && !claim.held
      modifies this, claim.entry`claims
      ensures Valid() && live == old(live) - {claim}
      ensures inner.Keys == old(inner.Keys) - (if Count(live, claim.key) == 0 then {claim.key} else {})
      ensures forall k :: k in inner ==> inner[k] == old(inner[k])
    {
      // an entry that another claim put there under the same key is neither counted down nor removed
      if claim.key !in inner || inner[claim.key] != claim.entry {
        return;
      }
      CountRemove(live, claim);
      live := live - {claim};
      CountZero(live, claim.key);
      claim.entry.claims := claim.entry.claims - 1;
      if claim.entry.claims == 0 {
        inner := inner - {claim.key};
      }
    }

    /**
     * What the map is for: guards on one key exclude each other, and the map holds exactly the keys
     * that are claimed, with as many claims as there are.
     */
    lemma MutualExclusion(c: SessionLock, d: SessionLock)
      requires Valid() && c in live && d in live && c.key == d.key
      ensures c.entry == d.entry && (c.held && d.held ==> c == d)
      ensures inner[c.key].claims == Count(live, c.key)
      ensures forall k :: k in inner <==> exists e :: e in live && e.key == k
    {
      forall k ensures k in inner <==> exists e :: e in live && e.key == k {
        CountZero(live, k);
      }
    }
  }
}
