/** `KeyBytes`: the bytes of a pipeline key, in an inline buffer until they outgrow it and in a
    vector from then on.  An append may name bytes of the key itself as its source. */
module KeyBytes {

  import opened Words

  const INLINE_CAPACITY: nat := 1024
  const SIZE_MAX: nat := 0xffff_ffff_ffff_ffff

  /** Where the bytes of an append are: outside the object, in the inline buffer, or in the
      vector.  Only ranges of existing objects can be named. */
  datatype Source =
    | External(address: nat, bytes: seq<Byte>)
    | InlineRange(offset: nat, length: nat)
    | OverflowRange(offset: nat, length: nat)

  predicate Apart(a: nat, n: nat, b: nat, m: nat) {
    a + n <= b || b + m <= a
  }

  /** The address test of `append`. */
  predicate Aliases(source: nat, size: nat, current: nat, oldSize: nat) {
    source >= current && source - current <= oldSize && size <= oldSize - (source - current)
  }

  lemma SliceOfPrefix(s: seq<Byte>, n: nat, a: nat, b: nat)
    requires a <= b <= n <= |s|
    ensures s[..n][a..b] == s[a..b]
  {
  }

  class Buffer {
    const inlineAt: nat
    const inline_: array<Byte>
    var overflowAt: nat
    var overflow: seq<Byte>
    var size: nat

    ghost predicate Valid()
      reads this
    {
      && inline_.Length == INLINE_CAPACITY && size <= SIZE_MAX
      && (if size <= INLINE_CAPACITY then overflow == [] else |overflow| == size)
      && (overflow != [] ==> Apart(inlineAt, INLINE_CAPACITY, overflowAt, |overflow|))
    }

    /** The key: the first `size` bytes at `data()`. */
    ghost function Contents(): (r: seq<Byte>)
      requires Valid()
      reads this, inline_
      ensures |r| == size
    {
      if overflow == [] then inline_[..size] else overflow
    }

    constructor (inlineAt: nat)
      ensures Valid() && Contents() == [] && this.inlineAt == inlineAt && fresh(inline_)
    {
      this.inlineAt := inlineAt;
      inline_ := new Byte[INLINE_CAPACITY];
      overflowAt, overflow, size := 0, [], 0;
    }

    method Clear()
      requires Valid()
      modifies this
      ensures Valid() && Contents() == [] && overflow == []
    {
      size := 0;
      overflow := [];
    }

    ghost predicate Readable(source: Source)
      reads this
    {
      match source
      case External(address, bytes) =>
        && Apart(address, |bytes|, inlineAt, INLINE_CAPACITY)
        && (overflow != [] ==> Apart(address, |bytes|, overflowAt, |overflow|))
      case InlineRange(offset, length) => offset + length <= INLINE_CAPACITY
      case OverflowRange(offset, length) => overflow != [] && offset + length <= |overflow|
    }

    ghost function BytesOf(source: Source): seq<Byte>
      requires Valid() && Readable(source)
      reads this, inline_
    {
      match source
      case External(_, bytes) => bytes
      case InlineRange(offset, length) => inline_[offset..offset + length]
      case OverflowRange(offset, length) => overflow[offset..offset + length]
    }

    function AddressOf(source: Source): nat
      reads this
    {
      match source
      case External(address, _) => address
      case InlineRange(offset, _) => inlineAt + offset
      case OverflowRange(offset, _) => overflowAt + offset
    }

    static function LengthOf(source: Source): nat {
      match source
      case External(_, bytes) => |bytes|
      case InlineRange(_, length) => length
      case OverflowRange(_, length) => length
    }

    /** The address test holds exactly for ranges of the current contents. */
    lemma AliasTestIsExact(source: Source)
      requires Valid() && Readable(source) && LengthOf(source) > 0
      ensures
        var current := if overflow == [] then inlineAt else overflowAt;
        Aliases(AddressOf(source), LengthOf(source), current, size) <==>
        match source
        case External(_, _) => false
        case InlineRange(offset, length) => overflow == [] && offset + length <= size
        case OverflowRange(_, _) => true
    {
    }

    /** A range of the current contents holds the bytes at its offset from `data()`. */
    lemma AliasesContents(source: Source)
      requires Valid() && Readable(source)
      ensures source.InlineRange? && overflow == [] && source.offset + source.length <= size ==>
                BytesOf(source) == Contents()[source.offset..source.offset + source.length]
      ensures source.OverflowRange? ==> BytesOf(source) == Contents()[source.offset..source.offset + source.length]
    {
    }

    /** Appends the bytes the source held before the call, whatever it overlaps.  Growing the
        vector may move it to `grownAt`, after which a source inside it is no longer readable. */
    method Append(source: Source, grownAt: nat) returns (ok: bool)
      requires Valid() && Readable(source)
      requires Apart(inlineAt, INLINE_CAPACITY, grownAt, size + LengthOf(source))
      modifies this, inline_
      ensures Valid()
      ensures ok <==> old(size) + LengthOf(source) < 0x1_0000_0000_0000_0000
      ensures overflow == [] <==> |Contents()| <= 1024
      ensures Contents() == old(Contents()) + if ok then old(BytesOf(source)) else []
    {
      var length := LengthOf(source);
      if length == 0 {
        return true;
      }
      if length > SIZE_MAX - size {
        return false;
      }
      var oldSize, newSize := size, size + length;
      var current := if overflow == [] then inlineAt else overflowAt;
      var sourceAddress := AddressOf(source);
      AliasTestIsExact(source);
      AliasesContents(source);
      var aliases := Aliases(sourceAddress, length, current, oldSize);
      var sourceOffset := if aliases then sourceAddress - current else 0;
      if newSize <= INLINE_CAPACITY {
        AppendInline(source, newSize);
      } else {
        AppendOverflow(source, aliases, sourceOffset, newSize, grownAt);
      }
      return true;
    }

    method AppendInline(source: Source, newSize: nat)
      requires Valid() && Readable(source) && newSize == size + LengthOf(source) <= INLINE_CAPACITY
      modifies this, inline_
      ensures Valid() && Contents() == old(Contents()) + old(BytesOf(source))
    {
      var oldSize := size;
      var bytes := Read(source);
      CopyInline(oldSize, bytes);
      size := newSize;
    }

    method CopyInline(at: nat, bytes: seq<Byte>)
      requires at + |bytes| <= inline_.Length
      modifies inline_
      ensures inline_[..at + |bytes|] == old(inline_[..at]) + bytes
    {
      forall i | 0 <= i < |bytes| {
        inline_[at + i] := bytes[i];
      }
    }

    method AppendOverflow(source: Source, aliases: bool, sourceOffset: nat, newSize: nat, grownAt: nat)
      requires Valid() && Readable(source) && INLINE_CAPACITY < newSize == size + LengthOf(source) <= SIZE_MAX
      requires LengthOf(source) > 0 && Apart(inlineAt, INLINE_CAPACITY, grownAt, newSize)
      requires aliases ==> sourceOffset + LengthOf(source) <= size
                           && BytesOf(source) == Contents()[sourceOffset..sourceOffset + LengthOf(source)]
      requires !aliases ==> !source.OverflowRange?
      modifies this
      ensures Valid() && Contents() == old(Contents()) + old(BytesOf(source))
    {
      var oldSize, length := size, LengthOf(source);
      Grow(newSize, grownAt);
      var tail;
      if aliases {
        tail := overflow[sourceOffset..sourceOffset + length];
        SliceOfPrefix(overflow, oldSize, sourceOffset, sourceOffset + length);
      } else {
        tail := Read(source);
      }
      overflow := overflow[..oldSize] + tail;
      size := newSize;
    }

    /** What `memcpy` and `memmove` read from the source. */
    method Read(source: Source) returns (bytes: seq<Byte>)
      requires inline_.Length == INLINE_CAPACITY && !source.OverflowRange?
      requires source.InlineRange? ==> source.offset + source.length <= INLINE_CAPACITY
      ensures bytes == match source
                       case External(_, bytes) => bytes
                       case InlineRange(offset, length) => inline_[offset..offset + length]
    {
      match source
      case External(_, b) => bytes := b;
      case InlineRange(offset, length) => bytes := inline_[offset..offset + length];
    }

    /** `overflow_.resize(newSize)`, and the copy of the inline bytes on the first spill. */
    method Grow(newSize: nat, grownAt: nat)
      requires Valid() && newSize > size && newSize > INLINE_CAPACITY
      modifies this
      ensures size == old(size) && overflowAt == grownAt && |overflow| == newSize
      ensures overflow[..size] == old(Contents())
    {
      var firstSpill := overflow == [];
      overflowAt := grownAt;
      overflow := overflow + seq(newSize - |overflow|, _ => 0);
      if firstSpill {
        overflow := inline_[..size] + overflow[size..];
      }
    }
  }

  // ---- Any sequence of operations ----

  /** `AppendOwn` names bytes of the key itself; a range it does not have appends nothing. */
  datatype Operation = AppendBytes(bytes: seq<Byte>) | AppendOwn(offset: nat, length: nat) | Reset

  function Expected(key: seq<Byte>, operations: seq<Operation>): seq<Byte> {
    if operations == [] then key
    else
      var rest, last := operations[..|operations| - 1], operations[|operations| - 1];
      var before := Expected(key, rest);
      match last
      case AppendBytes(bytes) => if |bytes| <= SIZE_MAX - |before| then before + bytes else before
      case AppendOwn(offset, length) =>
        if offset + length <= |before| && length <= SIZE_MAX - |before| then before + before[offset..offset + length]
        else before
      case Reset => []
  }

  function Flatten(pieces: seq<seq<Byte>>): seq<Byte> {
    if pieces == [] then [] else Flatten(pieces[..|pieces| - 1]) + pieces[|pieces| - 1]
  }

  function Appends(pieces: seq<seq<Byte>>): (r: seq<Operation>)
    ensures |r| == |pieces|
  {
    if pieces == [] then [] else Appends(pieces[..|pieces| - 1]) + [AppendBytes(pieces[|pieces| - 1])]
  }

  /** What came before a clear does not matter, and what follows it is concatenated. */
  lemma {:induction false} ConcatenationSinceClear(key: seq<Byte>, before: seq<Operation>, pieces: seq<seq<Byte>>)
    requires |Flatten(pieces)| <= SIZE_MAX
    ensures Expected(key, before + [Reset] + Appends(pieces)) == Flatten(pieces)
  {
    var operations := before + [Reset] + Appends(pieces);
    if pieces == [] {
      assert operations == before + [Reset];
    } else {
      var fewer := pieces[..|pieces| - 1];
      ConcatenationSinceClear(key, before, fewer);
      assert operations[..|operations| - 1] == before + [Reset] + Appends(fewer);
      assert operations[|operations| - 1] == AppendBytes(pieces[|pieces| - 1]);
    }
  }

  /** After any sequence of appends and clears the key is the concatenation of what was
      appended since the last clear, across the move to the vector and back. */
  method Replay(key: Buffer, operations: seq<Operation>)
    requires key.Valid()
    modifies key, key.inline_
    ensures key.Valid() && key.Contents() == Expected(old(key.Contents()), operations)
  {
    ghost var start := key.Contents();
    for i := 0 to |operations|
      invariant key.Valid() && key.Contents() == Expected(start, operations[..i])
    {
      assert operations[..i + 1][..i] == operations[..i];
      var far := key.inlineAt + INLINE_CAPACITY;
      match operations[i]
      case AppendBytes(bytes) =>
        var outside := far + (if key.overflow == [] then 0 else key.overflowAt + |key.overflow|);
        var _ := key.Append(External(outside, bytes), far);
      case AppendOwn(offset, length) =>
        if offset + length <= key.size {
          var source := if key.overflow == [] then InlineRange(offset, length) else OverflowRange(offset, length);
          var _ := key.Append(source, far);
        }
      case Reset =>
        key.Clear();
    }
    assert operations[..|operations|] == operations;
  }
}
