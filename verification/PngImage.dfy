/**
 brand-logo-image.ts, lines 24-55 and 77-132: validating a PNG brand logo (PNG Second
 Edition, sections 5.2, 5.3 and 5.6).

 A file is accepted exactly when it is a signature followed by chunks with correct
 checksums that cover the rest: the header first and once, at least one image data
 chunk, the end chunk last, no metadata or animation chunk, and a size within the
 limits. The chunks are determined by the bytes.
 */
module PngImage {
  import opened Utf8
  import opened Crc32

  const SIGNATURE: Bytes := [137, 80, 78, 71, 13, 10, 26, 10]
  const IHDR: Bytes := [73, 72, 68, 82]
  const IDAT: Bytes := [73, 68, 65, 84]
  const IEND: Bytes := [73, 69, 78, 68]
  const METADATA: seq<Bytes> := [[116, 69, 88, 116], [122, 84, 88, 116], [105, 84, 88, 116], [101, 88, 73, 102]]
  const ANIMATION: seq<Bytes> := [[97, 99, 84, 76], [102, 99, 84, 76], [102, 100, 65, 84]]
  const MAX_DIMENSION: nat := 8192
  const MAX_PIXELS: nat := 16_000_000
  const MAX_CHUNKS: nat := 4096

  datatype Refusal = Invalid | DimensionsInvalid | MetadataUnsafe | AnimationUnsupported

  datatype Image = NotAccepted(why: Refusal) | Accepted(width: nat, height: nat, chunks: seq<Chunk>)

  /** Half-open offsets of a chunk with its length, type, data and checksum. */
  datatype Chunk = Chunk(start: nat, end: nat)

  function Uint32At(bytes: Bytes, at: nat): nat
    requires at + 4 <= |bytes|
  {
    (bytes[at] as nat) * 0x100_0000 + (bytes[at + 1] as nat) * 0x1_0000 + (bytes[at + 2] as nat) * 0x100 + bytes[at + 3] as nat
  }

  /** A 32-bit number, most significant byte first. */
  function BigEndian(n: nat): (r: Bytes)
    requires n < 0x1_0000_0000
    ensures |r| == 4
  {
    [(n / 0x100_0000) as Byte, (n / 0x1_0000 % 0x100) as Byte, (n / 0x100 % 0x100) as Byte, (n % 0x100) as Byte]
  }

  lemma {:induction false} FourBytes(n: nat, a: nat, b: nat, c: nat, d: nat)
    requires a < 0x100 && b < 0x100 && c < 0x100 && d < 0x100
    ensures n == a * 0x100_0000 + b * 0x1_0000 + c * 0x100 + d
       <==> n / 0x100_0000 == a && n / 0x1_0000 % 0x100 == b && n / 0x100 % 0x100 == c && n % 0x100 == d
  {
    assert n / 0x100 / 0x100 == n / 0x1_0000 && n / 0x1_0000 / 0x100 == n / 0x100_0000;
    LastByte(n, a * 0x1_0000 + b * 0x100 + c, d);
    LastByte(n / 0x100, a * 0x100 + b, c);
    LastByte(n / 0x1_0000, a, b);
  }

  lemma {:induction false} LastByte(n: nat, q: nat, d: nat)
    requires d < 0x100
    ensures n == q * 0x100 + d <==> n / 0x100 == q && n % 0x100 == d
  {
  }

  /** The four bytes at an offset are read as the number that they write. */
  lemma {:induction false} Uint32Exactly(bytes: Bytes, at: nat, n: nat)
    requires at + 4 <= |bytes|
    ensures Uint32At(bytes, at) == n <==> n < 0x1_0000_0000 && bytes[at..at + 4] == BigEndian(n)
  {
    FourBytes(n, bytes[at] as nat, bytes[at + 1] as nat, bytes[at + 2] as nat, bytes[at + 3] as nat);
  }

  predicate IsAscii(t: Bytes) {
    forall i :: 0 <= i < |t| ==> 0x20 <= t[i] <= 0x7E
  }

  function TypeOf(bytes: Bytes, c: Chunk): Bytes
    requires c.start + 12 <= c.end <= |bytes|
  {
    bytes[c.start + 4..c.start + 8]
  }

  predicate HasBounds(bytes: Bytes, c: Chunk) {
    c.start + 12 <= |bytes| && c.end == c.start + 12 + Uint32At(bytes, c.start) && c.end <= |bytes|
  }

  predicate HasChecksum(bytes: Bytes, c: Chunk)
    requires HasBounds(bytes, c)
  {
    Uint32At(bytes, c.end - 4) == ValueOf(Crc(bytes[c.start + 4..c.end - 4]))
  }

  predicate DimensionsFit(width: nat, height: nat) {
    1 <= width <= MAX_DIMENSION && 1 <= height <= MAX_DIMENSION && width * height <= MAX_PIXELS
  }

  /** The first chunk: a header of 13 bytes with a size within the limits. */
  predicate IsHeader(bytes: Bytes, c: Chunk)
    requires HasBounds(bytes, c)
  {
    && TypeOf(bytes, c) == IHDR && c.end - c.start == 25
    && DimensionsFit(Uint32At(bytes, c.start + 8), Uint32At(bytes, c.start + 12))
  }

  predicate IsAllowed(t: Bytes) {
    IsAscii(t) && t !in METADATA && t !in ANIMATION
  }

  /** A chunk in its place: checksummed, of an allowed type, a header if and only if it is the first. */
  predicate IsChunk(bytes: Bytes, c: Chunk, first: bool) {
    && HasBounds(bytes, c) && HasChecksum(bytes, c) && IsAllowed(TypeOf(bytes, c))
    && if first then IsHeader(bytes, c) else TypeOf(bytes, c) != IHDR
  }

  function EndOf(chunks: seq<Chunk>): nat {
    if chunks == [] then |SIGNATURE| else chunks[|chunks| - 1].end
  }

  predicate AreChunks(bytes: Bytes, chunks: seq<Chunk>) {
    && |chunks| <= MAX_CHUNKS
    && forall i :: 0 <= i < |chunks| ==> IsChunk(bytes, chunks[i], i == 0) && chunks[i].start == EndOf(chunks[..i])
  }

  predicate HasType(bytes: Bytes, c: Chunk, t: Bytes) {
    HasBounds(bytes, c) && TypeOf(bytes, c) == t
  }

  predicate HasData(bytes: Bytes, chunks: seq<Chunk>) {
    exists i :: 0 <= i < |chunks| && HasType(bytes, chunks[i], IDAT)
  }

  predicate NoneEnds(bytes: Bytes, chunks: seq<Chunk>) {
    forall i :: 0 <= i < |chunks| ==> !HasType(bytes, chunks[i], IEND)
  }

  /** An empty end chunk at the end of the file. */
  predicate EndsFile(bytes: Bytes, c: Chunk) {
    HasType(bytes, c, IEND) && c.end - c.start == 12 && c.end == |bytes|
  }

  /** A whole file and its chunks. */
  predicate IsPng(bytes: Bytes, chunks: seq<Chunk>) {
    && |SIGNATURE| <= |bytes| && bytes[..|SIGNATURE|] == SIGNATURE
    && AreChunks(bytes, chunks) && chunks != []
    && EndsFile(bytes, chunks[|chunks| - 1])
    && NoneEnds(bytes, chunks[..|chunks| - 1])
    && HasData(bytes, chunks)
  }

  ghost predicate NoPng(bytes: Bytes) {
    forall w :: !IsPng(bytes, w)
  }

  ghost predicate AllStartWith(bytes: Bytes, chunks: seq<Chunk>) {
    forall w :: IsPng(bytes, w) ==> chunks <= w
  }

  /** A file whose chunks so far contain no end chunk has another one here. */
  lemma {:induction false} MoreToCome(bytes: Bytes, chunks: seq<Chunk>, w: seq<Chunk>)
    requires IsPng(bytes, w) && chunks <= w && NoneEnds(bytes, chunks)
    ensures |chunks| < |w| && IsChunk(bytes, w[|chunks|], |chunks| == 0) && w[|chunks|].start == EndOf(chunks)
  {
    assert w[..|chunks|] == chunks;
    assert HasType(bytes, w[|w| - 1], IEND);
  }

  lemma {:induction false} MoreBounds(bytes: Bytes, chunks: seq<Chunk>, w: seq<Chunk>)
    requires IsPng(bytes, w) && chunks <= w && NoneEnds(bytes, chunks)
    ensures |chunks| < |w| && HasBounds(bytes, w[|chunks|]) && w[|chunks|].start == EndOf(chunks)
  {
    MoreToCome(bytes, chunks, w);
  }

  ghost predicate NoChunkAt(bytes: Bytes, start: nat, first: bool) {
    forall c :: IsChunk(bytes, c, first) ==> c.start != start
  }

  lemma {:induction false} NoNextChunk(bytes: Bytes, chunks: seq<Chunk>)
    requires AllStartWith(bytes, chunks) && NoneEnds(bytes, chunks) && NoChunkAt(bytes, EndOf(chunks), |chunks| == 0)
    ensures NoPng(bytes)
  {
    forall w ensures !IsPng(bytes, w) {
      if IsPng(bytes, w) {
        MoreToCome(bytes, chunks, w);
      }
    }
  }

  lemma {:induction false} AllStartWithMore(bytes: Bytes, chunks: seq<Chunk>, c: Chunk)
    requires AllStartWith(bytes, chunks) && NoneEnds(bytes, chunks) && HasBounds(bytes, c) && c.start == EndOf(chunks)
    ensures AllStartWith(bytes, chunks + [c])
  {
    forall w | IsPng(bytes, w) ensures chunks + [c] <= w {
      SameNext(bytes, chunks, c, w);
    }
  }

  lemma {:induction false} SameNext(bytes: Bytes, chunks: seq<Chunk>, c: Chunk, w: seq<Chunk>)
    requires IsPng(bytes, w) && chunks <= w && NoneEnds(bytes, chunks) && HasBounds(bytes, c) && c.start == EndOf(chunks)
    ensures chunks + [c] <= w
  {
    MoreBounds(bytes, chunks, w);
    BoundsAgree(bytes, c, w[|chunks|]);
    PrefixExtends(chunks, c, w);
  }

  lemma {:induction false} PrefixExtends(chunks: seq<Chunk>, c: Chunk, w: seq<Chunk>)
    requires chunks <= w && |chunks| < |w| && w[|chunks|] == c
    ensures chunks + [c] <= w
  {
  }

  lemma {:induction false} BoundsAgree(bytes: Bytes, a: Chunk, b: Chunk)
    requires HasBounds(bytes, a) && HasBounds(bytes, b) && a.start == b.start
    ensures a == b
  {
  }

  lemma {:induction false} ChunksGrow(bytes: Bytes, chunks: seq<Chunk>, c: Chunk)
    requires AreChunks(bytes, chunks) && |chunks| < MAX_CHUNKS && IsChunk(bytes, c, |chunks| == 0) && c.start == EndOf(chunks)
    ensures AreChunks(bytes, chunks + [c]) && EndOf(chunks + [c]) == c.end
  {
    hide IsChunk;
    var grown := chunks + [c];
    assert grown[..|chunks|] == chunks;
    assert forall i :: 0 <= i <= |chunks| ==> grown[..i] == chunks[..i];
  }

  /** Once an end chunk has been reached, these are all the chunks. */
  lemma {:induction false} EndIsAll(bytes: Bytes, chunks: seq<Chunk>)
    requires AllStartWith(bytes, chunks) && chunks != [] && HasType(bytes, chunks[|chunks| - 1], IEND)
    ensures forall w :: IsPng(bytes, w) ==> w == chunks
  {
    forall w | IsPng(bytes, w) ensures w == chunks {
      OnlyLastEnds(bytes, w, |chunks| - 1);
    }
  }

  lemma {:induction false} OnlyLastEnds(bytes: Bytes, w: seq<Chunk>, k: nat)
    requires IsPng(bytes, w) && k < |w| && HasType(bytes, w[k], IEND)
    ensures k == |w| - 1
  {
    var front := w[..|w| - 1];
    assert forall i :: 0 <= i < |front| ==> front[i] == w[i];
  }

  lemma {:induction false} TooManyChunks(bytes: Bytes, chunks: seq<Chunk>)
    requires AllStartWith(bytes, chunks) && NoneEnds(bytes, chunks) && |chunks| >= MAX_CHUNKS
    ensures NoPng(bytes)
  {
    forall w ensures !IsPng(bytes, w) {
      if IsPng(bytes, w) {
        MoreToCome(bytes, chunks, w);
      }
    }
  }

  datatype Cut = NoCut(why: Refusal) | Cut(chunk: Chunk)

  /** Where a chunk starts, its length field decides where it ends. */
  function ChunkAt(bytes: Bytes, start: nat): Chunk
    requires start + 4 <= |bytes|
  {
    Chunk(start, start + 12 + Uint32At(bytes, start))
  }

  lemma {:induction false} RefuseChunk(bytes: Bytes, start: nat, first: bool)
    requires start + 12 <= |bytes| ==> !IsChunk(bytes, ChunkAt(bytes, start), first)
    ensures NoChunkAt(bytes, start, first)
  {
    forall c | IsChunk(bytes, c, first) ensures c.start != start {
      if c.start == start {
        BoundsAgree(bytes, c, ChunkAt(bytes, start));
      }
    }
  }

  /** Why a chunk with correct bounds and checksum is out of place, if it is. */
  function Placement(bytes: Bytes, c: Chunk, first: bool): Verdict
    requires HasBounds(bytes, c)
  {
    var kind := TypeOf(bytes, c);
    if first && (kind != IHDR || c.end - c.start != 25) then Bad(Invalid)
    else if first && !DimensionsFit(Uint32At(bytes, c.start + 8), Uint32At(bytes, c.start + 12)) then Bad(DimensionsInvalid)
    else if !first && kind == IHDR then Bad(Invalid)
    else if kind in METADATA then Bad(MetadataUnsafe)
    else if kind in ANIMATION then Bad(AnimationUnsupported)
    else Good
  }

  datatype Verdict = Good | Bad(why: Refusal)

  lemma {:induction false} PlacementIsExact(bytes: Bytes, c: Chunk, first: bool)
    requires HasBounds(bytes, c)
    ensures IsChunk(bytes, c, first) <==> HasChecksum(bytes, c) && IsAscii(TypeOf(bytes, c)) && Placement(bytes, c, first).Good?
  {
  }

  /** The checks on one chunk. */
  method CutChunk(table: array<Bits>, bytes: Bytes, start: nat, first: bool) returns (r: Cut)
    requires table.Length == 256 && IsTable(table[..])
    ensures r.Cut? ==> IsChunk(bytes, r.chunk, first) && r.chunk.start == start
    ensures r.NoCut? ==> NoChunkAt(bytes, start, first)
  {
    if start + 12 > |bytes| {
      RefuseChunk(bytes, start, first);
      return NoCut(Invalid);
    }
    var c := ChunkAt(bytes, start);
    if c.end > |bytes| {
      RefuseChunk(bytes, start, first);
      return NoCut(Invalid);
    }
    PlacementIsExact(bytes, c, first);
    var ascii := IsAscii(TypeOf(bytes, c));
    var crc := ComputeCrc(table, bytes, start + 4, c.end - 4);
    var placement := Placement(bytes, c, first);
    if !ascii || Uint32At(bytes, c.end - 4) != ValueOf(crc) || placement.Bad? {
      RefuseChunk(bytes, start, first);
      return NoCut(if placement.Bad? && ascii && Uint32At(bytes, c.end - 4) == ValueOf(crc) then placement.why else Invalid);
    }
    r := Cut(c);
  }

  lemma {:induction false} DataGrows(bytes: Bytes, chunks: seq<Chunk>, c: Chunk)
    requires HasBounds(bytes, c)
    ensures HasData(bytes, chunks + [c]) <==> HasData(bytes, chunks) || TypeOf(bytes, c) == IDAT
    ensures NoneEnds(bytes, chunks) && TypeOf(bytes, c) != IEND ==> NoneEnds(bytes, chunks + [c])
  {
    var grown := chunks + [c];
    if HasData(bytes, chunks) {
      var i :| 0 <= i < |chunks| && HasType(bytes, chunks[i], IDAT);
      assert HasType(bytes, grown[i], IDAT);
    }
    if TypeOf(bytes, c) == IDAT {
      assert HasType(bytes, grown[|chunks|], IDAT);
    }
  }

  /** What the next chunk adds to what is known of the chunks before it. */
  lemma {:induction false} NextChunk(bytes: Bytes, chunks: seq<Chunk>, c: Chunk)
    requires AreChunks(bytes, chunks) && AllStartWith(bytes, chunks) && NoneEnds(bytes, chunks) && |chunks| < MAX_CHUNKS
    requires IsChunk(bytes, c, |chunks| == 0) && c.start == EndOf(chunks)
    ensures c.start + 12 <= c.end <= |bytes| && EndOf(chunks + [c]) == c.end
    ensures AreChunks(bytes, chunks + [c]) && AllStartWith(bytes, chunks + [c])
    ensures HasData(bytes, chunks + [c]) <==> HasData(bytes, chunks) || TypeOf(bytes, c) == IDAT
    ensures TypeOf(bytes, c) != IEND ==> NoneEnds(bytes, chunks + [c])
  {
    hide AreChunks, AllStartWith, NoneEnds, HasData, HasChecksum, IsHeader, IsAllowed;
    AllStartWithMore(bytes, chunks, c);
    ChunksGrow(bytes, chunks, c);
    DataGrows(bytes, chunks, c);
  }

  /** The first chunk holds a size that fits, at fixed offsets. */
  lemma {:induction false} FirstIsHeader(bytes: Bytes, c: Chunk)
    requires IsChunk(bytes, c, true) && c.start == EndOf([])
    ensures c.start == 8 && 24 <= |bytes| && DimensionsFit(Uint32At(bytes, 16), Uint32At(bytes, 20))
  {
    hide DimensionsFit, Uint32At, HasChecksum, IsAllowed;
  }

  /** An end chunk decides: either the file is its chunks up to here, or it is no image. */
  lemma {:induction false} EndDecides(bytes: Bytes, chunks: seq<Chunk>, c: Chunk)
    requires |SIGNATURE| <= |bytes| && bytes[..|SIGNATURE|] == SIGNATURE
    requires AreChunks(bytes, chunks + [c]) && AllStartWith(bytes, chunks + [c]) && NoneEnds(bytes, chunks) && IsChunk(bytes, c, |chunks| == 0)
    requires TypeOf(bytes, c) == IEND
    ensures if c.end - c.start == 12 && HasData(bytes, chunks + [c]) && c.end == |bytes| then IsPng(bytes, chunks + [c]) else NoPng(bytes)
  {
    hide AreChunks, AllStartWith, NoneEnds, HasData;
    assert (chunks + [c])[..|chunks + [c]| - 1] == chunks;
    EndIsAll(bytes, chunks + [c]);
  }

  lemma {:induction false} UnsignedIsNoPng(bytes: Bytes)
    requires |bytes| < |SIGNATURE| || bytes[..|SIGNATURE|] != SIGNATURE
    ensures NoPng(bytes)
  {
  }

  lemma {:induction false} NothingAtEnd(bytes: Bytes, start: nat, first: bool)
    requires start >= |bytes|
    ensures NoChunkAt(bytes, start, first)
  {
  }

  lemma {:induction false} NothingYet(bytes: Bytes)
    ensures AreChunks(bytes, []) && AllStartWith(bytes, []) && NoneEnds(bytes, []) && !HasData(bytes, [])
  {
  }

  /** validatePng: accepts exactly the files that have a decomposition. */
  method ValidatePng(table: array<Bits>, bytes: Bytes) returns (r: Image)
    requires table.Length == 256 && IsTable(table[..])
    ensures r.Accepted? ==> IsPng(bytes, r.chunks) && DimensionsFit(r.width, r.height)
    ensures r.Accepted? ==> r.width == Uint32At(bytes, 16) && r.height == Uint32At(bytes, 20)
    ensures r.NotAccepted? ==> NoPng(bytes)
  {
    hide AreChunks, AllStartWith, NoneEnds, HasData, IsChunk, IsPng, NoPng, TypeOf, DimensionsFit, Uint32At, IsTable;
    if |bytes| < |SIGNATURE| || bytes[..|SIGNATURE|] != SIGNATURE {
      UnsignedIsNoPng(bytes);
      return NotAccepted(Invalid);
    }
    var chunks: seq<Chunk> := [];
    var sawImageData, width, height := false, 0, 0;
    NothingYet(bytes);
    while EndOf(chunks) < |bytes|
      invariant AreChunks(bytes, chunks) && AllStartWith(bytes, chunks) && NoneEnds(bytes, chunks)
      invariant sawImageData <==> HasData(bytes, chunks)
      invariant EndOf(chunks) <= |bytes|
      invariant chunks != [] ==> DimensionsFit(width, height) && 24 <= |bytes| && width == Uint32At(bytes, 16) && height == Uint32At(bytes, 20)
      decreases |bytes| - EndOf(chunks)
    {
      if |chunks| >= MAX_CHUNKS {
        TooManyChunks(bytes, chunks);
        return NotAccepted(Invalid);
      }
      var cut := CutChunk(table, bytes, EndOf(chunks), |chunks| == 0);
      if cut.NoCut? {
        NoNextChunk(bytes, chunks);
        return NotAccepted(cut.why);
      }
      var c := cut.chunk;
      NextChunk(bytes, chunks, c);
      if chunks == [] {
        FirstIsHeader(bytes, c);
        width, height := Uint32At(bytes, c.start + 8), Uint32At(bytes, c.start + 12);
      }
      ghost var before := chunks;
      chunks := chunks + [c];
      sawImageData := sawImageData || TypeOf(bytes, c) == IDAT;
      if TypeOf(bytes, c) == IEND {
        EndDecides(bytes, before, c);
        if c.end - c.start != 12 || !sawImageData || c.end != |bytes| {
          return NotAccepted(Invalid);
        }
        return Accepted(width, height, chunks);
      }
    }
    NothingAtEnd(bytes, EndOf(chunks), |chunks| == 0);
    NoNextChunk(bytes, chunks);
    r := NotAccepted(Invalid);
  }

  /** The chunks of a file are unique. */
  lemma {:induction false} ChunksAreUnique(bytes: Bytes, a: seq<Chunk>, b: seq<Chunk>)
    requires IsPng(bytes, a) && IsPng(bytes, b)
    ensures a == b
  {
    PrefixesAgree(bytes, a, b, |a|);
    PrefixesAgree(bytes, b, a, |b|);
    assert a[..|a|] == a && b[..|b|] == b;
  }

  lemma {:induction false} PrefixesAgree(bytes: Bytes, a: seq<Chunk>, b: seq<Chunk>, k: nat)
    requires IsPng(bytes, a) && IsPng(bytes, b) && k <= |a|
    ensures a[..k] <= b
    decreases k
  {
    hide IsPng;
    if k > 0 {
      PrefixesAgree(bytes, a, b, k - 1);
      OneMoreAgrees(bytes, a, b, k - 1);
    }
  }

  lemma {:induction false} OneMoreAgrees(bytes: Bytes, a: seq<Chunk>, b: seq<Chunk>, k: nat)
    requires IsPng(bytes, a) && IsPng(bytes, b) && k < |a| && a[..k] <= b
    ensures a[..k + 1] <= b
  {
    NoneEndsBefore(bytes, a, k);
    SameNext(bytes, a[..k], a[k], b);
    PrefixStep(a, k);
  }

  lemma {:induction false} PrefixStep(a: seq<Chunk>, k: nat)
    requires k < |a|
    ensures a[..k + 1] == a[..k] + [a[k]]
  {
  }

  lemma {:induction false} NoneEndsBefore(bytes: Bytes, a: seq<Chunk>, k: nat)
    requires IsPng(bytes, a) && k < |a|
    ensures NoneEnds(bytes, a[..k]) && HasBounds(bytes, a[k]) && a[k].start == EndOf(a[..k])
  {
    hide HasType, IsHeader, HasChecksum, IsAllowed, TypeOf;
    assert IsChunk(bytes, a[k], k == 0);
    var front := a[..|a| - 1];
    assert forall i :: 0 <= i < k ==> a[..k][i] == front[i];
  }
}
