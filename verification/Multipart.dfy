// The multipart state map of the object store client (src/fs/object_store.rs).
module Multipart {
  import opened Wrappers

  /** Content ids of the staged parts of one upload, by part index. */
  type Parts = map<nat, string>

  /** What the completion check finds when it compares the caller's etags with the staged parts. */
  datatype Check = Passed | CountMismatch | MissingPart(index: nat) | EtagMismatch(index: nat)

  /** The check, from part `i` on: the first part that is absent or differs decides. */
  function CheckFrom(parts: Parts, etags: seq<string>, i: nat): Check
    requires i <= |etags|
    decreases |etags| - i
  {
    if i == |etags| then Passed
    else if i !in parts then MissingPart(i)
    else if parts[i] != etags[i] then EtagMismatch(i)
    else CheckFrom(parts, etags, i + 1)
  }

  function CheckParts(parts: Parts, etags: seq<string>): Check {
    if |etags| != |parts| then CountMismatch else CheckFrom(parts, etags, 0)
  }

  /** The indices 0 to n-1. */
  function Indices(n: nat): (r: set<nat>)
    ensures |r| == n && forall i: nat :: i in r <==> i < n
  {
    if n == 0 then {} else Indices(n - 1) + {n - 1}
  }

  /** The etags name exactly the staged parts: indices 0 to n-1, each with its own content id. */
  ghost predicate Exactly(parts: Parts, etags: seq<string>) {
    && parts.Keys == Indices(|etags|)
    && forall i: nat :: i < |etags| && i in parts ==> parts[i] == etags[i]
  }

  lemma {:induction false} CheckFromMeaning(parts: Parts, etags: seq<string>, i: nat)
    requires i <= |etags|
    ensures CheckFrom(parts, etags, i).Passed? <==>
            forall j: nat :: i <= j < |etags| ==> j in parts && parts[j] == etags[j]
    ensures !CheckFrom(parts, etags, i).CountMismatch?
    decreases |etags| - i
  {
    if i < |etags| {
      CheckFromMeaning(parts, etags, i + 1);
    }
  }

  lemma SubsetSameSize(a: set<nat>, b: set<nat>)
    requires a <= b && |a| == |b|
    ensures a == b
  {
    if x :| x in b && x !in a {
      assert |b - {x}| == |b| - 1;
      SubsetSize(a, b - {x});
    }
  }

  lemma SubsetSize(a: set<nat>, b: set<nat>)
    requires a <= b
    ensures |a| <= |b|
  {
    if a != {} {
      var x :| x in a;
      SubsetSize(a - {x}, b - {x});
    }
  }

  /**
   * The count check and the part-by-part check together pass exactly when the etags name the
   * staged parts and nothing else. Neither check alone gives this.
   */
  lemma CheckPartsExact(parts: Parts, etags: seq<string>)
    ensures CheckParts(parts, etags).Passed? <==> Exactly(parts, etags)
  {
    var range := Indices(|etags|);
    CheckFromMeaning(parts, etags, 0);
    assert |parts| == |parts.Keys|;
    if CheckParts(parts, etags).Passed? {
      assert range <= parts.Keys;
      SubsetSameSize(range, parts.Keys);
    }
  }

  /** The part at index `i` is staged with the id that its etag names. */
  predicate PartMatches(parts: Parts, etags: seq<string>, i: nat)
    requires i < |etags|
  {
    i in parts && parts[i] == etags[i]
  }

  /** The part that a failed check names is the first one that is absent, or that differs. */
  lemma {:induction false} CheckNamesFirst(parts: Parts, etags: seq<string>, i: nat)
    requires i <= |etags|
    ensures var c := CheckFrom(parts, etags, i);
            c.MissingPart? || c.EtagMismatch? ==>
              && i <= c.index < |etags| && (c.MissingPart? <==> c.index !in parts)
              && !PartMatches(parts, etags, c.index)
              && forall j :: i <= j < c.index ==> PartMatches(parts, etags, j)
    decreases |etags| - i
  {
    if i < |etags| {
      CheckNamesFirst(parts, etags, i + 1);
    }
  }

  datatype State = State(bucket: string, key: string, id: string, parts: Parts)

  /** The durable record that mirrors one entry of the map (src/fs/store.rs). */
  datatype Persisted = Persisted(uploadId: string, bucket: string, key: string, backendId: string, parts: Parts)

  datatype ClientError = BadPartNumber | UnknownUpload | WrongTarget | Rejected(check: Check) | NoTarget | BackendFailed

  /** Reference behaviour of the completion on the map: the entry is taken out before any check. */
  ghost function CompleteSpec(states: map<string, State>, uploadId: string, bucket: string, key: string,
                              etags: seq<string>, backendOk: bool)
    : (r: (map<string, State>, Result<seq<string>, ClientError>))
  {
    if uploadId !in states then (states, Err(UnknownUpload))
    else
      var st := states[uploadId];
      var rest := states - {uploadId};
      if st.bucket != bucket || st.key != key then (rest, Err(WrongTarget))
      else if !CheckParts(st.parts, etags).Passed? then (rest, Err(Rejected(CheckParts(st.parts, etags))))
      else (rest, if backendOk then Ok(etags) else Err(BackendFailed))
  }

  class ObjectStoreClient {
    var states: map<string, State>

    constructor ()
      ensures states == map[]
    {
      states := map[];
    }

    /** `backendId` is what the backend returned, `uploadId` the fresh alias for it. */
    method CreateMultipartUpload(uploadId: string, bucket: string, key: string, backendId: string)
      modifies this
      ensures states == old(states)[uploadId := State(bucket, key, backendId, map[])]
      // the alias is a new uuid, so no other upload loses its entry
      ensures uploadId !in old(states) ==>
                && states.Keys == old(states.Keys) + {uploadId}
                && forall u :: u in old(states) ==> states[u] == old(states[u])
    {
      states := states[uploadId := State(bucket, key, backendId, map[])];
    }

    /** The lookup half of a part upload: what the backend call needs, copied under the lock. */
    method Lookup(bucket: string, key: string, uploadId: string, partNumber: int)
      returns (r: Result<(nat, string), ClientError>)
      ensures partNumber < 1 ==> r == Err(BadPartNumber)
      ensures partNumber >= 1 && uploadId !in states ==> r == Err(UnknownUpload)
      ensures partNumber >= 1 && uploadId in states ==>
                r == if states[uploadId].bucket == bucket && states[uploadId].key == key
                     then Ok((partNumber - 1, states[uploadId].id)) else Err(WrongTarget)
    {
      if partNumber < 1 { return Err(BadPartNumber); }
      if uploadId !in states { return Err(UnknownUpload); }
      var st := states[uploadId];
      if st.bucket != bucket || st.key != key { return Err(WrongTarget); }
      return Ok((partNumber - 1, st.id));
    }

    /** The record half, after the backend answered. An entry that is gone drops the id. */
    method RecordPart(uploadId: string, index: nat, contentId: string)
      modifies this
      ensures states.Keys == old(states.Keys)
      ensures forall u :: u in states && u != uploadId ==> states[u] == old(states[u])
      ensures uploadId in states ==>
                states[uploadId] == old(states[uploadId]).(parts := old(states[uploadId]).parts[index := contentId])
    {
      if uploadId in states {
        var st := states[uploadId];
        states := states[uploadId := st.(parts := st.parts[index := contentId])];
      }
    }

    /**
     * Takes the entry, checks it, and hands the ordered part ids to the backend, whose answer is
     * `backendOk`. The entry is gone whatever the outcome.
     */
    method CompleteMultipartUpload(bucket: string, key: string, uploadId: string, etags: seq<string>, backendOk: bool)
      returns (r: Result<seq<string>, ClientError>)
      modifies this
      ensures (states, r) == CompleteSpec(old(states), uploadId, bucket, key, etags, backendOk)
      ensures states == old(states) - {uploadId}
      ensures r == Err(UnknownUpload) <==> uploadId !in old(states)
      ensures r == Err(WrongTarget) <==>
              uploadId in old(states) && (old(states[uploadId]).bucket != bucket || old(states[uploadId]).key != key)
      ensures r.Ok? <==>
              && uploadId in old(states) && old(states[uploadId]).bucket == bucket
              && old(states[uploadId]).key == key && Exactly(old(states[uploadId]).parts, etags) && backendOk
      ensures r.Ok? ==> r.value == etags
    {
      assert uploadId !in states ==> states == states - {uploadId};
      if uploadId !in states { return Err(UnknownUpload); }
      var st := states[uploadId];
      states := states - {uploadId};
      CheckPartsExact(st.parts, etags);
      if st.bucket != bucket || st.key != key { return Err(WrongTarget); }
      if |etags| != |st.parts| { return Err(Rejected(CountMismatch)); }
      var ordered: seq<string> := [];
      var i := 0;
      while i < |etags|
        invariant 0 <= i <= |etags| && ordered == etags[..i]
        invariant CheckFrom(st.parts, etags, 0) == CheckFrom(st.parts, etags, i)
      {
        if i !in st.parts { return Err(Rejected(MissingPart(i))); }
        if st.parts[i] != etags[i] { return Err(Rejected(EtagMismatch(i))); }
        ordered := ordered + [st.parts[i]];
        i := i + 1;
      }
      assert ordered == etags;
      if !backendOk { return Err(BackendFailed); }
      return Ok(ordered);
    }

    /**
     * Takes the entry of an upload and aborts it on the backend, whose answer is `backendOk`; the
     * aborted backend id, if there was an entry. A failed abort leaves no entry either.
     */
    method AbortMultipartUpload(bucket: string, key: string, uploadId: string, backendOk: bool)
      returns (r: Result<Option<string>, ClientError>)
      modifies this
      ensures r == Err(WrongTarget) <==>
              uploadId in old(states) && (old(states[uploadId]).bucket != bucket || old(states[uploadId]).key != key)
      ensures states == if r == Err(WrongTarget) then old(states) else old(states) - {uploadId}
      ensures r.Err? && r != Err(WrongTarget) ==> r == Err(BackendFailed)
      ensures r == Err(BackendFailed) <==> !backendOk && uploadId in old(states) && r != Err(WrongTarget)
      ensures r.Ok? ==> r.value == if uploadId in old(states) then Some(old(states[uploadId]).id) else None
    {
      if uploadId in states {
        var st := states[uploadId];
        if st.bucket != bucket || st.key != key { return Err(WrongTarget); }
        states := states - {uploadId};
        if !backendOk { return Err(BackendFailed); }
        return Ok(Some(st.id));
      }
      assert states == states - {uploadId};
      return Ok(None);
    }

    method RestoreMultipart(record: Persisted) returns (r: Result<(), ClientError>)
      modifies this
      ensures record.bucket == "" || record.key == "" ==> r == Err(NoTarget) && states == old(states)
      ensures record.bucket != "" && record.key != "" ==>
                && r == Ok(())
                && states == old(states)[record.uploadId :=
                     State(record.bucket, record.key, record.backendId, record.parts)]
    {
      if record.bucket == "" || record.key == "" { return Err(NoTarget); }
      states := states[record.uploadId := State(record.bucket, record.key, record.backendId, record.parts)];
      return Ok(());
    }
  }

  /**
   * Restore then complete, on any map: it succeeds exactly when the record's parts are the ones
   * the etags name and the backend agrees, whatever the map held for this upload before, and it
   * leaves no entry behind.
   */
  lemma RestoreThenComplete(states: map<string, State>, rec: Persisted, etags: seq<string>, backendOk: bool)
    requires rec.bucket != "" && rec.key != ""
    ensures var restored := states[rec.uploadId := State(rec.bucket, rec.key, rec.backendId, rec.parts)];
            var (left, r) := CompleteSpec(restored, rec.uploadId, rec.bucket, rec.key, etags, backendOk);
            && (r == Ok(etags) <==> Exactly(rec.parts, etags) && backendOk)
            && left == states - {rec.uploadId}
  {
    CheckPartsExact(rec.parts, etags);
    var restored := states[rec.uploadId := State(rec.bucket, rec.key, rec.backendId, rec.parts)];
    assert restored - {rec.uploadId} == states - {rec.uploadId};
  }
}
