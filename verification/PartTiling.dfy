// The request that starts an upload, the intake of one part, and the object that the parts make
// (src/fs/model.rs; src/fs/mod.rs, `upload_part`; src/fs/object_store.rs).
module PartTiling {
  import opened Wrappers
  import Multipart

  const U64_MAX: nat := 0xFFFF_FFFF_FFFF_FFFF

  type u64 = n: nat | n <= U64_MAX

  const MAX_MULTIPART_PARTS: u64 := 10000
  const MAX_SINGLE_PART: u64 := 10 * 1024 * 1024
  const MAX_PART_SIZE: u64 := 524288

  datatype InitRequest = InitRequest(fileSize: u64, partSize: u64, parts: u64)

  datatype Invalid = EmptyFile | ZeroPartSize | ZeroParts | SingleSizeDiffers | SingleTooBig
                   | TooManyParts | BadPartSize | WrongCount(expected: u64) | OutOfRange

  function DivCeil(a: u64, b: u64): u64
    requires b > 0
  {
    DivBound(a, b);
    if a % b == 0 then a / b else a / b + 1
  }

  /** The check of the request; the products are u64, and never leave it. */
  function Validate(r: InitRequest): Result<(), Invalid> {
    if r.fileSize == 0 then Err(EmptyFile)
    else if r.partSize == 0 then Err(ZeroPartSize)
    else if r.parts == 0 then Err(ZeroParts)
    else if r.parts == 1 then
      if r.partSize != r.fileSize then Err(SingleSizeDiffers)
      else if r.fileSize > MAX_SINGLE_PART then Err(SingleTooBig)
      else Ok(())
    else if r.parts > MAX_MULTIPART_PARTS then Err(TooManyParts)
    else if r.partSize % 1024 != 0 || r.partSize > MAX_PART_SIZE then Err(BadPartSize)
    else if r.parts != DivCeil(r.fileSize, r.partSize) then Err(WrongCount(DivCeil(r.fileSize, r.partSize)))
    else
      ProductBound(r.parts, r.partSize);
      var lastPartStart: u64 := (r.parts - 1) * r.partSize;
      var covered: u64 := r.parts * r.partSize;
      if r.fileSize <= lastPartStart || r.fileSize > covered then Err(OutOfRange)
      else Ok(())
  }

  lemma DivMod(a: nat, b: nat)
    requires b > 0
    ensures 0 <= a / b && 0 <= a % b < b && a == (a / b) * b + a % b
  {
  }

  lemma DivBound(a: u64, b: u64)
    requires b > 0
    ensures 0 <= a / b <= U64_MAX && (a % b != 0 ==> a / b < U64_MAX)
  {
    DivMod(a, b);
    if b == 1 {
      assert a % b == 0 && a / b == a;
    } else {
      MulMonotone(2, b, a / b);
    }
  }

  lemma ProductBound(parts: u64, partSize: u64)
    requires 1 <= parts <= MAX_MULTIPART_PARTS && partSize <= MAX_PART_SIZE
    ensures 0 <= (parts - 1) * partSize <= parts * partSize <= MAX_MULTIPART_PARTS * MAX_PART_SIZE
  {
    MulMonotone(parts, MAX_MULTIPART_PARTS, partSize);
    MulMonotone(partSize, MAX_PART_SIZE, MAX_MULTIPART_PARTS);
    MulMonotone(parts - 1, parts, partSize);
  }

  lemma MulMonotone(x: nat, y: nat, z: nat)
    requires x <= y
    ensures 0 <= x * z <= y * z
  {
    assert (y - x) * z >= 0;
  }

  /** `n` is the count exactly when `n` parts cover the file and `n - 1` do not. */
  lemma DivCeilCovers(size: u64, partSize: u64, n: nat)
    requires size > 0 && partSize > 0 && n > 0
    ensures n == DivCeil(size, partSize) <==> (n - 1) * partSize < size <= n * partSize
  {
    var q, m := size / partSize, size % partSize;
    var c: nat := DivCeil(size, partSize);
    assert size == q * partSize + m;
    assert (q + 1) * partSize == q * partSize + partSize && (q - 1) * partSize == q * partSize - partSize;
    assert (c - 1) * partSize < size <= c * partSize;
    if n < c {
      MulMonotone(n, c - 1, partSize);
    } else if n > c {
      MulMonotone(c, n - 1, partSize);
    }
  }

  /** What the check accepts: one part that is the whole file, or parts of which only the last may be short. */
  predicate Tiles(r: InitRequest) {
    && r.fileSize > 0 && r.partSize > 0 && r.parts > 0
    && (r.parts - 1) * r.partSize < r.fileSize <= r.parts * r.partSize
    && if r.parts == 1 then r.partSize == r.fileSize <= MAX_SINGLE_PART
       else r.parts <= MAX_MULTIPART_PARTS && r.partSize % 1024 == 0 && r.partSize <= MAX_PART_SIZE
  }

  lemma ValidateIff(r: InitRequest)
    ensures Validate(r).Ok? <==> Tiles(r)
  {
    if r.fileSize > 0 && r.partSize > 0 && r.parts > 1 {
      DivCeilCovers(r.fileSize, r.partSize, r.parts);
    }
  }

  /** The count check makes the final range check redundant. */
  lemma RangeCheckNeverFires(r: InitRequest)
    ensures Validate(r) != Err(OutOfRange)
  {
    if r.fileSize > 0 && r.partSize > 0 && r.parts > 1 {
      DivCeilCovers(r.fileSize, r.partSize, r.parts);
    }
  }

  // ---- the parts ----

  /** The length that the intake expects of a part; neither product nor difference leaves u64. */
  function PartLen(r: InitRequest, i: u64): (len: u64)
    requires Tiles(r) && i < r.parts
    ensures 1 <= len <= r.partSize
    ensures r.partSize * i < r.fileSize <= U64_MAX
  {
    MulMonotone(i, r.parts - 1, r.partSize);
    if i == r.parts - 1 then
      assert r.parts * r.partSize == i * r.partSize + r.partSize;
      var before: u64 := r.partSize * i;
      r.fileSize - before
    else r.partSize
  }

  /** Where part `i` starts; the parts follow each other without gap or overlap, up to the end of the file. */
  function PartStart(r: InitRequest, i: nat): nat { i * r.partSize }

  lemma PartsTile(r: InitRequest, i: u64)
    requires Tiles(r) && i < r.parts
    ensures PartStart(r, 0) == 0
    ensures PartStart(r, i) + PartLen(r, i) == if i + 1 == r.parts then r.fileSize else PartStart(r, i + 1)
  {
    assert (i + 1) * r.partSize == i * r.partSize + r.partSize;
  }

  lemma QuotientInRange(o: nat, p: nat, n: nat)
    requires p > 0 && o < n * p
    ensures 0 <= o / p < n
  {
    DivMod(o, p);
    if o / p >= n { MulMonotone(n, o / p, p); }
  }

  /** The part that holds an offset of the file. */
  function PartOf(r: InitRequest, o: nat): (i: u64)
    requires Tiles(r) && o < r.fileSize
    ensures i == o / r.partSize && i < r.parts
  {
    QuotientInRange(o, r.partSize, r.parts);
    o / r.partSize
  }

  /** An offset lies in its part, `o % partSize` bytes from its start, and in no other. */
  lemma OffsetInPart(r: InitRequest, o: nat)
    requires Tiles(r) && o < r.fileSize
    ensures var i := PartOf(r, o);
            && 0 <= o % r.partSize < PartLen(r, i)
            && o == PartStart(r, i) + o % r.partSize
  {
    DivMod(o, r.partSize);
    PartsTile(r, PartOf(r, o));
  }

  lemma OnlyItsPart(r: InitRequest, o: nat, i: u64)
    requires Tiles(r) && o < r.fileSize && i < r.parts
    ensures PartStart(r, i) <= o < PartStart(r, i) + PartLen(r, i) <==> i == PartOf(r, o)
  {
    var q := PartOf(r, o);
    OffsetInPart(r, o);
    PartsTile(r, i);
    PartsTile(r, q);
    if i < q {
      MulMonotone(i + 1, q, r.partSize);
    } else if i > q {
      MulMonotone(q + 1, i, r.partSize);
    }
  }

  // ---- the intake of one part ----

  type Bytes = seq<bv8>

  type Chunk = Result<Bytes, string>

  datatype PartError = OutOfBounds | Padded | TooLarge | DeclaredDiffers | SizeDiffers | Broken(reason: string)

  function Concat(chunks: seq<Chunk>): Bytes {
    if chunks == [] then [] else (if chunks[0].Ok? then chunks[0].value else []) + Concat(chunks[1..])
  }

  /** Only a short last part can be padded; any other part that is too long is too large. */
  function Excess(shortLast: bool): PartError { if shortLast then Padded else TooLarge }

  predicate IsShortLast(r: InitRequest, i: u64)
    requires Tiles(r) && i < r.parts
  {
    r.parts > 1 && i == r.parts - 1 && PartLen(r, i) < r.partSize
  }

  /** Reads the chunks of one part until it has them all, or one is broken or goes past the expected length. */
  method ReceivePart(r: InitRequest, index: nat, chunks: seq<Chunk>, declaredLen: Option<nat>)
    returns (out: Result<Bytes, PartError>)
    requires Tiles(r)
    ensures index >= r.parts ==> out == Err(OutOfBounds)
    ensures out.Ok? <==>
              && index < r.parts && (declaredLen == None || declaredLen == Some(PartLen(r, index)))
              && Whole(chunks) && |Concat(chunks)| == PartLen(r, index)
    ensures out.Ok? ==> out.value == Concat(chunks)
    ensures index < r.parts && declaredLen.Some? && declaredLen.value != PartLen(r, index) ==>
              out == Err(if declaredLen.value < PartLen(r, index) then DeclaredDiffers
                         else if r.parts > 1 && index == r.parts - 1 && PartLen(r, index) < r.partSize then Padded
                         else TooLarge)
    ensures index < r.parts && (declaredLen == None || declaredLen == Some(PartLen(r, index))) ==>
              out == Received([], chunks, PartLen(r, index), IsShortLast(r, index))
  {
    if index >= r.parts { return Err(OutOfBounds); }
    var expected := PartLen(r, index);
    var shortLast := IsShortLast(r, index);
    ReceivedExact([], chunks, expected, shortLast);
    assert [] + Concat(chunks) == Concat(chunks);
    match declaredLen {
      case Some(n) =>
        if n > expected && shortLast { return Err(Padded); }
        if n > expected { return Err(TooLarge); }
        if n != expected { return Err(DeclaredDiffers); }
      case None =>
    }
    var buf: Bytes, total, i := [], 0, 0;
    assert chunks[0..] == chunks;
    while i < |chunks|
      invariant 0 <= i <= |chunks| && total == |buf| <= expected
      invariant Received([], chunks, expected, shortLast) == Received(buf, chunks[i..], expected, shortLast)
    {
      assert chunks[i..][0] == chunks[i] && chunks[i..][1..] == chunks[i + 1..];
      if chunks[i].Err? { return Err(Broken(chunks[i].error)); }
      var chunk := chunks[i].value;
      total := total + |chunk|;
      if total > expected {
        if shortLast { return Err(Padded); }
        return Err(TooLarge);
      }
      buf := buf + chunk;
      i := i + 1;
    }
    assert chunks[i..] == [];
    if total != expected { return Err(SizeDiffers); }
    return Ok(buf);
  }

  /** The outcome of reading `chunks` after `buf`: the first bad chunk decides. */
  function Received(buf: Bytes, chunks: seq<Chunk>, expected: nat, shortLast: bool): Result<Bytes, PartError>
    decreases chunks
  {
    if chunks == [] then (if |buf| != expected then Err(SizeDiffers) else Ok(buf))
    else if chunks[0].Err? then Err(Broken(chunks[0].error))
    else if |buf| + |chunks[0].value| > expected then Err(Excess(shortLast))
    else Received(buf + chunks[0].value, chunks[1..], expected, shortLast)
  }

  ghost predicate Whole(chunks: seq<Chunk>) { forall c :: c in chunks ==> c.Ok? }

  /**
   * A part is accepted exactly when no chunk is broken and the body has the expected length, and
   * the accepted body is the chunks in order. Of an unbroken body only its length decides the error.
   */
  lemma {:induction false} ReceivedExact(buf: Bytes, chunks: seq<Chunk>, expected: nat, shortLast: bool)
    requires |buf| <= expected
    ensures var out, n := Received(buf, chunks, expected, shortLast), |buf| + |Concat(chunks)|;
            && (out.Ok? <==> Whole(chunks) && n == expected)
            && (out.Ok? ==> out.value == buf + Concat(chunks))
            && (Whole(chunks) && n > expected ==> out == Err(Excess(shortLast)))
            && (Whole(chunks) && n < expected ==> out == Err(SizeDiffers))
    decreases chunks
  {
    if chunks == [] {
      assert buf + [] == buf;
    } else {
      var c, rest := chunks[0], chunks[1..];
      assert chunks == [c] + rest;
      assert Whole(chunks) <==> c.Ok? && Whole(rest);
      if c.Ok? && |buf| + |c.value| <= expected {
        ReceivedExact(buf + c.value, rest, expected, shortLast);
        assert (buf + c.value) + Concat(rest) == buf + (c.value + Concat(rest));
      }
    }
  }

  // ---- the object ----

  /** The backend joins the parts in the order in which it is given their ids. */
  function Assemble(bodies: seq<Bytes>): Bytes {
    if bodies == [] then [] else Assemble(bodies[..|bodies| - 1]) + bodies[|bodies| - 1]
  }

  /** Every part has the length that the intake accepted. */
  ghost predicate AllReceived(r: InitRequest, bodies: seq<Bytes>)
    requires Tiles(r)
  {
    |bodies| == r.parts && forall i: u64 :: i < r.parts ==> |bodies[i]| == PartLen(r, i)
  }

  lemma {:induction false} AssembledPrefix(r: InitRequest, bodies: seq<Bytes>, n: nat)
    requires Tiles(r) && AllReceived(r, bodies) && n <= r.parts
    ensures |Assemble(bodies[..n])| == if n == r.parts then r.fileSize else PartStart(r, n)
  {
    if n > 0 {
      AssembledPrefix(r, bodies, n - 1);
      PartsTile(r, n - 1);
      assert bodies[..n][..n - 1] == bodies[..n - 1];
    }
  }

  /** Byte `k` of part `i` comes after everything before that part. */
  lemma {:induction false} AssembledAt(r: InitRequest, bodies: seq<Bytes>, n: nat, i: u64, k: nat)
    requires Tiles(r) && AllReceived(r, bodies) && i < n <= r.parts && k < |bodies[i]|
    ensures PartStart(r, i) + k < |Assemble(bodies[..n])|
    ensures Assemble(bodies[..n])[PartStart(r, i) + k] == bodies[i][k]
    decreases n
  {
    var before := bodies[..n - 1];
    assert bodies[..n][..n - 1] == before;
    AssembledPrefix(r, bodies, n - 1);
    AssembledPrefix(r, bodies, i);
    if i < n - 1 {
      AssembledAt(r, bodies, n - 1, i, k);
    }
  }

  /** The object has exactly the file's size. */
  lemma AssembledSize(r: InitRequest, bodies: seq<Bytes>)
    requires Tiles(r) && AllReceived(r, bodies)
    ensures |Assemble(bodies)| == r.fileSize
  {
    assert bodies[..r.parts] == bodies;
    AssembledPrefix(r, bodies, r.parts);
  }

  /** Byte `o` of the object is byte `o % partSize` of part `o / partSize`. */
  lemma AssembledByte(r: InitRequest, bodies: seq<Bytes>, o: nat)
    requires Tiles(r) && AllReceived(r, bodies) && o < r.fileSize
    ensures 0 <= o % r.partSize < |bodies[PartOf(r, o)]| && o < |Assemble(bodies)|
    ensures Assemble(bodies)[o] == bodies[PartOf(r, o)][o % r.partSize]
  {
    OffsetInPart(r, o);
    assert bodies[..r.parts] == bodies;
    AssembledAt(r, bodies, r.parts, PartOf(r, o), o % r.partSize);
  }

  /** The bodies that the ids of a completion name, in order. */
  function Bodies(etags: seq<string>, blobs: map<string, Bytes>): (bs: seq<Bytes>)
    requires forall id :: id in etags ==> id in blobs
    ensures |bs| == |etags| && forall i :: 0 <= i < |bs| ==> bs[i] == blobs[etags[i]]
  {
    seq(|etags|, i requires 0 <= i < |etags| => blobs[etags[i]])
  }

  /** Every staged id names a body that the intake accepted for its part. */
  ghost predicate StagedReceived(r: InitRequest, staged: Multipart.Parts, blobs: map<string, Bytes>)
    requires Tiles(r)
  {
    forall i: u64 :: i < r.parts && i in staged ==> staged[i] in blobs && |blobs[staged[i]]| == PartLen(r, i)
  }

  lemma StagedBodies(r: InitRequest, staged: Multipart.Parts, etags: seq<string>, blobs: map<string, Bytes>)
    requires Tiles(r) && |etags| == r.parts && Multipart.CheckParts(staged, etags).Passed?
    requires StagedReceived(r, staged, blobs)
    ensures forall id :: id in etags ==> id in blobs
    ensures AllReceived(r, Bodies(etags, blobs))
    ensures forall i: u64 :: i < r.parts ==> i in staged && staged[i] == etags[i]
  {
    Multipart.CheckPartsExact(staged, etags);
    forall i: u64 | i < r.parts ensures i in staged && staged[i] == etags[i] && etags[i] in blobs {
      assert i in Multipart.Indices(|etags|);
    }
  }

  /**
   * A completion that passes joins the staged parts in order: the object has the size of the file,
   * and each of its bytes comes from its place in the part that was staged for it.
   */
  lemma CompletedUpload(r: InitRequest, staged: Multipart.Parts, etags: seq<string>, blobs: map<string, Bytes>, o: nat)
    requires Tiles(r) && |etags| == r.parts && Multipart.CheckParts(staged, etags).Passed?
    requires StagedReceived(r, staged, blobs)
    ensures forall id :: id in etags ==> id in blobs
    ensures |Assemble(Bodies(etags, blobs))| == r.fileSize
    ensures o < r.fileSize ==>
              && PartOf(r, o) in staged && staged[PartOf(r, o)] in blobs
              && 0 <= o % r.partSize < |blobs[staged[PartOf(r, o)]]|
              && Assemble(Bodies(etags, blobs))[o] == blobs[staged[PartOf(r, o)]][o % r.partSize]
  {
    StagedBodies(r, staged, etags, blobs);
    AssembledSize(r, Bodies(etags, blobs));
    if o < r.fileSize {
      AssembledByte(r, Bodies(etags, blobs), o);
    }
  }
}
