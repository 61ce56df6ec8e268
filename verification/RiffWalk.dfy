/** Walking RIFF chunks with `RIFFNEXT` (RIFF chapter of the Multimedia Programming Interface
    and Data Specifications 1.0): a four-character code, a little-endian size, the payload, and
    a pad byte after a payload of odd size. */
module RiffWalk {

  import opened Words

  const HEADER: nat := 8

  /** `FCC` for the code, and the same layout for the size. */
  function Fcc(b0: U8, b1: U8, b2: U8, b3: U8): U32 {
    b0 + b1 * 0x100 + b2 * 0x1_0000 + b3 * 0x100_0000
  }

  function LittleEndian(x: U32): (r: seq<U8>)
    ensures |r| == 4 && Fcc(r[0], r[1], r[2], r[3]) == x
  {
    var high := x / 0x100;
    [x % 0x100, high % 0x100, high / 0x100 % 0x100, high / 0x100 / 0x100]
  }

  /** The first byte is the least significant: the bytes of "RIFF" read 0x46464952. */
  lemma FccIsLittleEndian(b0: U8, b1: U8, b2: U8, b3: U8)
    ensures
      var x := Fcc(b0, b1, b2, b3);
      && x % 0x100 == b0 && x / 0x100 % 0x100 == b1
      && x / 0x100 / 0x100 % 0x100 == b2 && x / 0x100 / 0x100 / 0x100 == b3
    ensures Fcc(0x52, 0x49, 0x46, 0x46) == 0x4646_4952
  {
    var high := b2 + 0x100 * b3;
    var rest := b1 + 0x100 * high;
    LowByte(b2, b3);
    LowByte(b1, high);
    LowByte(b0, rest);
    assert Fcc(b0, b1, b2, b3) == b0 + 0x100 * rest;
  }

  lemma LowByte(b: U8, rest: nat)
    ensures (b + 0x100 * rest) % 0x100 == b && (b + 0x100 * rest) / 0x100 == rest
  {
  }

  /** `RIFFROUND` on a 32-bit size: the sum wraps for the one odd size that has no successor. */
  function Round(cb: U32): (r: U32)
    ensures r % 2 == 0
  {
    var sum := cb + cb % 2;
    if sum < 0x1_0000_0000 then sum else sum - 0x1_0000_0000
  }

  function SizeAt(file: seq<U8>, p: nat): U32
    requires p + HEADER <= |file|
  {
    Fcc(file[p + 4], file[p + 5], file[p + 6], file[p + 7])
  }

  /** `RIFFNEXT`: the address computation itself is not limited to 32 bits. */
  function Next(file: seq<U8>, p: nat): (q: nat)
    requires p + HEADER <= |file|
    ensures q >= p + HEADER
  {
    p + HEADER + Round(SizeAt(file, p))
  }

  /** On any bytes whatever a step advances, by an even amount of at least a header. */
  lemma NextAdvances(file: seq<U8>, p: nat)
    requires p + HEADER <= |file|
    ensures Next(file, p) >= p + HEADER && (Next(file, p) - p) % 2 == 0
  {
    EvenPlusEven(HEADER, Round(SizeAt(file, p)));
  }

  /** The offsets met by stepping from `p` while a whole header is left. */
  function Walk(file: seq<U8>, p: nat): seq<nat>
    decreases |file| - p
  {
    if p + HEADER <= |file| then [p] + Walk(file, Next(file, p)) else []
  }

  /** Where that stepping stops. */
  function WalkEnd(file: seq<U8>, p: nat): nat
    decreases |file| - p
  {
    if p + HEADER <= |file| then WalkEnd(file, Next(file, p)) else p
  }

  lemma WalkStep(file: seq<U8>, p: nat, q: nat)
    requires p + HEADER <= |file| && q == Next(file, p)
    ensures Walk(file, p) == [p] + Walk(file, q) && WalkEnd(file, p) == WalkEnd(file, q)
  {
  }

  /** The walk as a loop; it terminates on every input. */
  method WalkChunks(file: seq<U8>) returns (offsets: seq<nat>, end: nat)
    ensures offsets == Walk(file, 0) && end == WalkEnd(file, 0)
  {
    offsets, end := [], 0;
    while end + HEADER <= |file|
      invariant offsets + Walk(file, end) == Walk(file, 0) && WalkEnd(file, end) == WalkEnd(file, 0)
      decreases |file| - end
    {
      var next := Next(file, end);
      WalkStep(file, end, next);
      assert offsets + ([end] + Walk(file, next)) == (offsets + [end]) + Walk(file, next);
      offsets, end := offsets + [end], next;
    }
  }

  lemma EvenPlusEven(a: int, b: int)
    requires a % 2 == 0 && b % 2 == 0
    ensures (a + b) % 2 == 0
  {
  }

  /** A walk over arbitrary bytes reads only whole headers at even offsets. */
  lemma {:induction false} WalkReadsHeaders(file: seq<U8>, p: nat, i: nat)
    requires p % 2 == 0 && i < |Walk(file, p)|
    ensures Walk(file, p)[i] % 2 == 0 && p <= Walk(file, p)[i] <= |file| - HEADER
    decreases i
  {
    if i > 0 {
      var q := Next(file, p);
      NextAdvances(file, p);
      WalkStep(file, p, q);
      EvenPlusEven(p, q - p);
      WalkReadsHeaders(file, q, i - 1);
    }
  }

  /** It reads at most one header for every eight bytes. */
  lemma {:induction false} WalkIsShort(file: seq<U8>, p: nat)
    requires p <= |file|
    ensures |Walk(file, p)| * HEADER <= |file| - p
    decreases |file| - p
  {
    if p + HEADER <= |file| {
      var q := Next(file, p);
      NextAdvances(file, p);
      if q <= |file| { WalkIsShort(file, q); } else { assert Walk(file, q) == []; }
    }
  }

  // ---- Laid-out chunks ----

  /** Any payload whose size fits the size field. */
  datatype Chunk = Chunk(fcc: U32, payload: seq<U8>)

  predicate Sized(c: Chunk) {
    |c.payload| < 0x1_0000_0000
  }

  function Encode(c: Chunk): (r: seq<U8>)
    requires Sized(c)
    ensures |r| == HEADER + |c.payload| + |c.payload| % 2
  {
    LittleEndian(c.fcc) + LittleEndian(|c.payload|) + c.payload + if |c.payload| % 2 == 1 then [0] else []
  }

  function Layout(chunks: seq<Chunk>): seq<U8>
    requires forall c :: c in chunks ==> Sized(c)
  {
    if chunks == [] then [] else Encode(chunks[0]) + Layout(chunks[1..])
  }

  /** Where the chunks start, from `p` on. */
  function Starts(chunks: seq<Chunk>, p: nat): seq<nat>
    requires forall c :: c in chunks ==> Sized(c)
  {
    if chunks == [] then [] else [p] + Starts(chunks[1..], p + |Encode(chunks[0])|)
  }

  lemma SizeIsReadBack(before: seq<U8>, c: Chunk, after: seq<U8>)
    requires Sized(c)
    ensures
      var file := before + Encode(c) + after;
      |before| + HEADER <= |file| && SizeAt(file, |before|) == |c.payload|
  {
    var file := before + Encode(c) + after;
    var size := LittleEndian(|c.payload|);
    assert file[|before| + 4..|before| + 8] == size;
    assert forall k :: 0 <= k < 4 ==> file[|before| + 4 + k] == size[k];
    assert file[|before| + 4] == size[0] && file[|before| + 5] == size[1];
    assert file[|before| + 6] == size[2] && file[|before| + 7] == size[3];
  }

  lemma CodeIsReadBack(before: seq<U8>, c: Chunk, after: seq<U8>)
    requires Sized(c)
    ensures
      var file, p := before + Encode(c) + after, |before|;
      p + HEADER <= |file| && Fcc(file[p], file[p + 1], file[p + 2], file[p + 3]) == c.fcc
  {
    var file, p := before + Encode(c) + after, |before|;
    var code := LittleEndian(c.fcc);
    assert file[p..p + 4] == code;
    assert file[p] == file[p..p + 4][0] && file[p + 1] == file[p..p + 4][1];
    assert file[p + 2] == file[p..p + 4][2] && file[p + 3] == file[p..p + 4][3];
  }

  /** A step over a chunk lands on the next chunk if and only if the chunk is not the one whose
      odd size wraps when it is rounded up; from that one it lands right after the header. */
  lemma NextLandsOnTheNextChunk(before: seq<U8>, c: Chunk, after: seq<U8>)
    requires Sized(c)
    ensures
      var file := before + Encode(c) + after;
      && |before| + HEADER <= |file|
      && (Next(file, |before|) == |before| + |Encode(c)| <==> |c.payload| != 0xffff_ffff)
      && (|c.payload| == 0xffff_ffff ==> Next(file, |before|) == |before| + HEADER)
  {
    SizeIsReadBack(before, c, after);
  }

  predicate Walkable(chunks: seq<Chunk>) {
    forall c :: c in chunks ==> |c.payload| < 0xffff_ffff
  }

  /** From the start of any chunk on, the walk over a file goes from chunk to chunk if and only
      if it meets no chunk of the size that wraps; it then ends at the end. */
  lemma {:induction false} WalkFollowsLayout(file: seq<U8>, before: seq<U8>, chunks: seq<Chunk>)
    requires (forall c :: c in chunks ==> Sized(c)) && file == before + Layout(chunks)
    ensures Walk(file, |before|) == Starts(chunks, |before|) <==> Walkable(chunks)
    ensures Walkable(chunks) ==> WalkEnd(file, |before|) == |file|
    decreases |chunks|
  {
    if chunks != [] {
      LayoutSplits(before, chunks);
      LayoutStep(file, before, chunks);
      if |chunks[0].payload| < 0xffff_ffff {
        WalkFollowsLayout(file, before + Encode(chunks[0]), chunks[1..]);
      }
    }
  }

  lemma LayoutStep(file: seq<U8>, before: seq<U8>, chunks: seq<Chunk>)
    requires chunks != [] && (forall c :: c in chunks ==> Sized(c))
    requires file == before + Encode(chunks[0]) + Layout(chunks[1..])
    ensures
      var c, rest, q := chunks[0], chunks[1..], |before + Encode(chunks[0])|;
      && (Walkable(chunks) <==> |c.payload| < 0xffff_ffff && Walkable(rest))
      && (Walk(file, |before|) == Starts(chunks, |before|) <==> |c.payload| < 0xffff_ffff && Walk(file, q) == Starts(rest, q))
      && (|c.payload| < 0xffff_ffff ==> WalkEnd(file, |before|) == WalkEnd(file, q))
  {
    FirstChunkDecides(file, before, chunks[0], chunks[1..]);
    StartsSplit(chunks, |before|, |before + Encode(chunks[0])|);
    WalkableSplits(chunks);
  }

  /** The walk agrees with the layout if and only if it steps over the first chunk and agrees
      from there on. */
  lemma FirstChunkDecides(file: seq<U8>, before: seq<U8>, c: Chunk, rest: seq<Chunk>)
    requires Sized(c) && (forall d :: d in rest ==> Sized(d)) && file == before + Encode(c) + Layout(rest)
    ensures
      var p, q := |before|, |before + Encode(c)|;
      && (Walk(file, p) == [p] + Starts(rest, q) <==> |c.payload| < 0xffff_ffff && Walk(file, q) == Starts(rest, q))
      && (|c.payload| < 0xffff_ffff ==> WalkEnd(file, p) == WalkEnd(file, q))
  {
    var q := |before + Encode(c)|;
    if |c.payload| < 0xffff_ffff {
      ChunkStep(file, before, c, Layout(rest));
      TailsAgree(|before|, Walk(file, q), Starts(rest, q));
    } else {
      WrappingChunkIsReentered(file, before, c, Layout(rest));
      assert |Starts(rest, q)| > 0 ==> Starts(rest, q)[0] == q;
    }
  }

  lemma StartsSplit(chunks: seq<Chunk>, p: nat, q: nat)
    requires chunks != [] && (forall c :: c in chunks ==> Sized(c)) && q == p + |Encode(chunks[0])|
    ensures Starts(chunks, p) == [p] + Starts(chunks[1..], q)
  {
  }

  lemma WalkableSplits(chunks: seq<Chunk>)
    requires chunks != []
    ensures Walkable(chunks) <==> |chunks[0].payload| < 0xffff_ffff && Walkable(chunks[1..])
  {
    assert chunks == [chunks[0]] + chunks[1..];
  }

  lemma TailsAgree(p: nat, a: seq<nat>, b: seq<nat>)
    ensures [p] + a == [p] + b <==> a == b
  {
    assert ([p] + a)[1..] == a && ([p] + b)[1..] == b;
  }

  /** After the size that wraps, the walk goes on inside the payload. */
  lemma WrappingChunkIsReentered(file: seq<U8>, before: seq<U8>, c: Chunk, after: seq<U8>)
    requires |c.payload| == 0xffff_ffff && file == before + Encode(c) + after
    ensures |Walk(file, |before|)| > 1 && Walk(file, |before|)[1] == |before| + HEADER
  {
    NextLandsOnTheNextChunk(before, c, after);
    WalkStep(file, |before|, |before| + HEADER);
    WalkStep(file, |before| + HEADER, Next(file, |before| + HEADER));
  }

  lemma ChunkStep(file: seq<U8>, before: seq<U8>, c: Chunk, after: seq<U8>)
    requires |c.payload| < 0xffff_ffff && file == before + Encode(c) + after
    ensures |before| + HEADER <= |file|
    ensures
      var q := |before + Encode(c)|;
      Walk(file, |before|) == [|before|] + Walk(file, q) && WalkEnd(file, |before|) == WalkEnd(file, q)
  {
    NextLandsOnTheNextChunk(before, c, after);
    var q := |before + Encode(c)|;
    assert q == |before| + |Encode(c)|;
    WalkStep(file, |before|, q);
  }

  lemma LayoutSplits(before: seq<U8>, chunks: seq<Chunk>)
    requires chunks != [] && forall c :: c in chunks ==> Sized(c)
    ensures before + Layout(chunks) == before + Encode(chunks[0]) + Layout(chunks[1..])
  {
  }

  /** For any list of chunks laid out one after another, the walk visits exactly their starts
      if and only if no chunk has the size that wraps; it then ends at the end. */
  lemma WalkVisitsExactlyTheChunks(chunks: seq<Chunk>)
    requires forall c :: c in chunks ==> Sized(c)
    ensures Walk(Layout(chunks), 0) == Starts(chunks, 0) <==> Walkable(chunks)
    ensures Walkable(chunks) ==> WalkEnd(Layout(chunks), 0) == |Layout(chunks)|
  {
    assert [] + Layout(chunks) == Layout(chunks);
    WalkFollowsLayout(Layout(chunks), [], chunks);
  }
}
