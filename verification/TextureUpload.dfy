/** The row loop of `uploadTexture`: rows of a packed or strided image are copied into a mapped
    buffer at the pitch of the copy footprint.  Row offsets are 32-bit products. */
module TextureUpload {

  import opened Words

  const WRAP: nat := 0x1_0000_0000

  datatype Shape = Shape(offset: nat, rowPitch: nat, rows: nat, rowBytes: nat, sourceRowBytes: nat)

  /** What the caller and `GetCopyableFootprints` provide: 32-bit pitch and row count, and room
      for the last row in the buffer and in the image. */
  predicate Fits(f: Shape, size: nat, imageSize: nat) {
    && f.rowPitch < WRAP && f.rows < WRAP
    && (f.rows > 0 ==>
          && f.offset + (f.rows - 1) * f.rowPitch + f.rowBytes <= size
          && (f.rows - 1) * f.sourceRowBytes + f.rowBytes <= imageSize)
  }

  /** Where the loop writes row `y`, and where the row belongs. */
  function WrittenAt(f: Shape, y: nat): nat {
    f.offset + y * f.rowPitch % WRAP
  }

  function BelongsAt(f: Shape, y: nat): nat {
    f.offset + y * f.rowPitch
  }

  function Blit(buffer: seq<Byte>, at: nat, row: seq<Byte>): seq<Byte>
    requires at + |row| <= |buffer|
  {
    buffer[..at] + row + buffer[at + |row|..]
  }

  lemma RowsInBounds(f: Shape, size: nat, imageSize: nat, y: nat)
    requires Fits(f, size, imageSize) && y < f.rows
    ensures WrittenAt(f, y) <= BelongsAt(f, y) && BelongsAt(f, y) + f.rowBytes <= size
    ensures y * f.sourceRowBytes + f.rowBytes <= imageSize
  {
    Scale(f.rowPitch, y, f.rows - 1);
    Scale(f.sourceRowBytes, y, f.rows - 1);
    assert y * f.rowPitch >= 0;
  }

  lemma Scale(c: nat, a: nat, b: nat)
    requires a <= b
    ensures a * c <= b * c
  {
    assert b * c - a * c == (b - a) * c;
  }

  function SourceRow(f: Shape, pixels: seq<Byte>, y: nat): (row: seq<Byte>)
    requires y * f.sourceRowBytes + f.rowBytes <= |pixels|
    ensures |row| == f.rowBytes
  {
    pixels[y * f.sourceRowBytes..y * f.sourceRowBytes + f.rowBytes]
  }

  /** The buffer after the first `n` rows. */
  function Uploaded(f: Shape, buffer: seq<Byte>, pixels: seq<Byte>, n: nat): (r: seq<Byte>)
    requires Fits(f, |buffer|, |pixels|) && n <= f.rows
    ensures |r| == |buffer|
  {
    if n == 0 then buffer
    else
      RowsInBounds(f, |buffer|, |pixels|, n - 1);
      Blit(Uploaded(f, buffer, pixels, n - 1), WrittenAt(f, n - 1), SourceRow(f, pixels, n - 1))
  }

  method UploadRows(f: Shape, mapped: array<Byte>, pixels: seq<Byte>)
    requires Fits(f, mapped.Length, |pixels|)
    modifies mapped
    ensures mapped[..] == Uploaded(f, old(mapped[..]), pixels, f.rows)
  {
    ghost var before := mapped[..];
    for y := 0 to f.rows
      invariant mapped[..] == Uploaded(f, before, pixels, y)
    {
      RowsInBounds(f, mapped.Length, |pixels|, y);
      CopyBytes(mapped, WrittenAt(f, y), SourceRow(f, pixels, y));
    }
  }

  /** `memcpy`. */
  method CopyBytes(target: array<Byte>, at: nat, source: seq<Byte>)
    requires at + |source| <= target.Length
    modifies target
    ensures target[..] == Blit(old(target[..]), at, source)
  {
    ghost var before := target[..];
    for i := 0 to |source|
      invariant target[..at] == before[..at] && target[at..at + i] == source[..i]
      invariant target[at + i..] == before[at + i..]
    {
      target[at + i] := source[i];
      assert target[at..at + (i + 1)] == target[at..at + i] + [source[i]];
    }
    assert target[..] == target[..at] + target[at..at + |source|] + target[at + |source|..];
    assert source[..|source|] == source;
  }

  // ---- Exactness ----

  predicate NoWrap(f: Shape) {
    f.rows > 0 ==> (f.rows - 1) * f.rowPitch < WRAP
  }

  /** Byte `i` lies in row `y` of the footprint. */
  predicate InRow(f: Shape, y: nat, i: nat) {
    BelongsAt(f, y) <= i < BelongsAt(f, y) + f.rowBytes
  }

  /** Where byte `i` of row `y` comes from. */
  function PixelFor(f: Shape, y: nat, i: nat): int {
    y * f.sourceRowBytes + i - BelongsAt(f, y)
  }

  ghost predicate Placed(f: Shape, pixels: seq<Byte>, after: seq<Byte>, y: nat, i: nat)
    requires i < |after|
  {
    InRow(f, y, i) ==> 0 <= PixelFor(f, y, i) < |pixels| && after[i] == pixels[PixelFor(f, y, i)]
  }

  /** Every row is where it belongs and every other byte is as before. */
  ghost predicate Exact(f: Shape, before: seq<Byte>, pixels: seq<Byte>, after: seq<Byte>, n: nat)
    requires |after| == |before|
  {
    && (forall y: nat, i: nat :: y < n && i < |after| ==> Placed(f, pixels, after, y, i))
    && (forall i: nat :: i < |after| && (forall y: nat :: y < n ==> !InRow(f, y, i)) ==> after[i] == before[i])
  }

  lemma RowsAreDisjoint(f: Shape, y: nat, y': nat, i: nat)
    requires f.rowBytes <= f.rowPitch && y < y' && InRow(f, y, i)
    ensures !InRow(f, y', i)
  {
    Scale(f.rowPitch, y + 1, y');
    assert (y + 1) * f.rowPitch == y * f.rowPitch + f.rowPitch;
  }

  /** With a pitch of at least a row and no wrap, any number of rows is uploaded exactly. */
  lemma {:induction false} UploadIsExact(f: Shape, before: seq<Byte>, pixels: seq<Byte>, n: nat)
    requires Fits(f, |before|, |pixels|) && n <= f.rows && f.rowBytes <= f.rowPitch && NoWrap(f)
    ensures Exact(f, before, pixels, Uploaded(f, before, pixels, n), n)
  {
    if n > 0 {
      UploadIsExact(f, before, pixels, n - 1);
      var y := n - 1;
      RowsInBounds(f, |before|, |pixels|, y);
      WrittenWhereItBelongs(f, y);
      BlitIsExact(f, before, pixels, Uploaded(f, before, pixels, y), y);
    }
  }

  lemma WrittenWhereItBelongs(f: Shape, y: nat)
    requires NoWrap(f) && y < f.rows
    ensures WrittenAt(f, y) == BelongsAt(f, y)
  {
    Scale(f.rowPitch, y, f.rows - 1);
  }

  lemma BlitIsExact(f: Shape, before: seq<Byte>, pixels: seq<Byte>, soFar: seq<Byte>, y: nat)
    requires Fits(f, |before|, |pixels|) && y < f.rows && |soFar| == |before| && f.rowBytes <= f.rowPitch
    requires BelongsAt(f, y) + f.rowBytes <= |before| && y * f.sourceRowBytes + f.rowBytes <= |pixels|
    requires Exact(f, before, pixels, soFar, y)
    ensures Exact(f, before, pixels, Blit(soFar, BelongsAt(f, y), SourceRow(f, pixels, y)), y + 1)
  {
    var after := Blit(soFar, BelongsAt(f, y), SourceRow(f, pixels, y));
    forall z: nat, i: nat | z < y + 1 && i < |after|
      ensures Placed(f, pixels, after, z, i)
    {
      if z < y { assert Placed(f, pixels, soFar, z, i); }
      BlitPlaces(f, pixels, soFar, y, z, i);
    }
    forall i: nat | i < |after| && (forall z: nat :: z < y + 1 ==> !InRow(f, z, i))
      ensures after[i] == before[i]
    {
      BlitAt(soFar, BelongsAt(f, y), SourceRow(f, pixels, y), i);
      assert !InRow(f, y, i);
    }
  }

  /** Writing row `y` puts it in place and keeps the earlier rows in place. */
  lemma BlitPlaces(f: Shape, pixels: seq<Byte>, soFar: seq<Byte>, y: nat, z: nat, i: nat)
    requires f.rowBytes <= f.rowPitch && i < |soFar| && z <= y
    requires BelongsAt(f, y) + f.rowBytes <= |soFar| && y * f.sourceRowBytes + f.rowBytes <= |pixels|
    requires z < y ==> Placed(f, pixels, soFar, z, i)
    ensures Placed(f, pixels, Blit(soFar, BelongsAt(f, y), SourceRow(f, pixels, y)), z, i)
  {
    BlitAt(soFar, BelongsAt(f, y), SourceRow(f, pixels, y), i);
    if z < y && InRow(f, z, i) {
      RowsAreDisjoint(f, z, y, i);
    }
  }

  lemma BlitAt(buffer: seq<Byte>, at: nat, row: seq<Byte>, i: nat)
    requires at + |row| <= |buffer| && i < |buffer|
    ensures Blit(buffer, at, row)[i] == if at <= i < at + |row| then row[i - at] else buffer[i]
  {
  }

  /** The last byte of the last row is never written if the last offset does not fit 32 bits. */
  lemma {:induction false} LastByteIsMissed(f: Shape, before: seq<Byte>, pixels: seq<Byte>, n: nat)
    requires Fits(f, |before|, |pixels|) && n <= f.rows && f.rows > 0 && f.rowBytes > 0 && !NoWrap(f)
    ensures
      var last := BelongsAt(f, f.rows - 1) + f.rowBytes - 1;
      last < |before| && Uploaded(f, before, pixels, n)[last] == before[last]
  {
    RowsInBounds(f, |before|, |pixels|, f.rows - 1);
    if n > 0 {
      LastByteIsMissed(f, before, pixels, n - 1);
      RowsInBounds(f, |before|, |pixels|, n - 1);
      var last := BelongsAt(f, f.rows - 1) + f.rowBytes - 1;
      assert WrittenAt(f, n - 1) + f.rowBytes <= last;
      BlitAt(Uploaded(f, before, pixels, n - 1), WrittenAt(f, n - 1), SourceRow(f, pixels, n - 1), last);
    }
  }

  /** Every image arrives exactly in every buffer if and only if the last row's offset,
      (rows - 1) * RowPitch, fits the 32-bit product. */
  lemma ExactIffNoWrap(f: Shape, size: nat, imageSize: nat)
    requires Fits(f, size, imageSize) && 0 < f.rowBytes <= f.rowPitch
    ensures NoWrap(f) <==>
              forall before: seq<Byte>, pixels: seq<Byte> :: |before| == size && |pixels| == imageSize ==>
                Exact(f, before, pixels, Uploaded(f, before, pixels, f.rows), f.rows)
  {
    if NoWrap(f) {
      forall before: seq<Byte>, pixels: seq<Byte> | |before| == size && |pixels| == imageSize
        ensures Exact(f, before, pixels, Uploaded(f, before, pixels, f.rows), f.rows)
      {
        UploadIsExact(f, before, pixels, f.rows);
      }
    } else {
      var before, pixels := seq(size, i => 0 as Byte), seq(imageSize, i => 1 as Byte);
      LastByteIsMissed(f, before, pixels, f.rows);
      RowsInBounds(f, size, imageSize, f.rows - 1);
      var last := BelongsAt(f, f.rows - 1) + f.rowBytes - 1;
      assert InRow(f, f.rows - 1, last);
      assert !Placed(f, pixels, Uploaded(f, before, pixels, f.rows), f.rows - 1, last);
      assert !Exact(f, before, pixels, Uploaded(f, before, pixels, f.rows), f.rows);
    }
  }
}
