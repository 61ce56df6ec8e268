/** Matching of short and long Bluetooth LE UUIDs (Bluetooth Core Specification, Vol 3 Part B
    section 2.5.1): a short UUID stands for the base UUID with its first field replaced. */
module BluetoothUuid {

  import opened Words

  datatype Guid = Guid(data1: U32, data2: U16, data3: U16, data4: seq<U8>)
  datatype Uuid = Short(value: U16) | Long(guid: Guid)

  predicate Valid(u: Uuid) {
    u.Long? ==> |u.guid.data4| == 8
  }

  const BASE: Guid := Guid(0, 0, 0x1000, [0x80, 0x00, 0x00, 0x80, 0x5f, 0x9b, 0x34, 0xfb])

  function Expand(u: Uuid): Guid {
    match u
    case Short(value) => BASE.(data1 := value)
    case Long(guid) => guid
  }

  function Bytes16(x: U16): (r: seq<U8>)
    ensures |r| == 2 && r[0] as int + r[1] as int * 0x100 == x
  {
    [x % 0x100, x / 0x100]
  }

  function Bytes32(x: U32): (r: seq<U8>)
    ensures |r| == 4 && r[0] as int + r[1] as int * 0x100 + (r[2] as int + r[3] as int * 0x100) * 0x1_0000 == x
  {
    Bytes16(x % 0x1_0000) + Bytes16(x / 0x1_0000)
  }

  /** The sixteen bytes `memcmp` sees. */
  function Memory(g: Guid): seq<U8> {
    Bytes32(g.data1) + Bytes16(g.data2) + Bytes16(g.data3) + g.data4
  }

  /** Comparing the memory of two GUIDs compares all of their fields. */
  lemma MemoryDeterminesGuid(g: Guid, h: Guid)
    requires Memory(g) == Memory(h)
    ensures g == h
  {
    var m, n := Memory(g), Memory(h);
    assert m[..4] == Bytes32(g.data1) && n[..4] == Bytes32(h.data1);
    assert m[4..6] == Bytes16(g.data2) && n[4..6] == Bytes16(h.data2);
    assert m[6..8] == Bytes16(g.data3) && n[6..8] == Bytes16(h.data3);
    assert m[8..] == g.data4 && n[8..] == h.data4;
  }

  /** A match is equality of the full UUIDs, whichever form they come in. */
  method IsMatch(u1: Uuid, u2: Uuid) returns (match_: bool)
    requires Valid(u1) && Valid(u2)
    ensures match_ <==> Expand(u1) == Expand(u2)
  {
    if u1.Short? && u2.Short? {
      return u1.value == u2.value;
    }
    var full1, full2;
    if u1.Short? {
      full1 := BASE;
      full1 := full1.(data1 := u1.value);
    } else {
      full1 := u1.guid;
    }
    if u2.Short? {
      full2 := BASE;
      full2 := full2.(data1 := u2.value);
    } else {
      full2 := u2.guid;
    }
    match_ := Memory(full1) == Memory(full2);
    if match_ {
      MemoryDeterminesGuid(full1, full2);
    }
  }

  /** Expansion is injective on short UUIDs, so a long UUID matches at most one of them. */
  lemma LongMatchesOneShort(long: Uuid, a: U16, b: U16)
    requires Expand(long) == Expand(Short(a)) && Expand(long) == Expand(Short(b))
    ensures a == b
  {
    assert Expand(Short(a)).data1 == a && Expand(Short(b)).data1 == b;
  }

  /** A short UUID stands for 0000xxxx-0000-1000-8000-00805f9b34fb. */
  lemma ShortIsWrittenOut(value: U16)
    ensures Expand(Short(value)) == Guid(value, 0x0000, 0x1000, [0x80, 0x00, 0x00, 0x80, 0x5f, 0x9b, 0x34, 0xfb])
    ensures
      Memory(Expand(Short(value))) ==
      [value % 0x100, value / 0x100, 0, 0, 0, 0, 0, 0x10, 0x80, 0x00, 0x00, 0x80, 0x5f, 0x9b, 0x34, 0xfb]
  {
  }
}
