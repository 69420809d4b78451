/**
  Byte-addressed memory with one tag per 32-bit word. Every data store clears the tag of the words it
  touches; only a capability store sets tags.
 */
module TaggedMemory {
  import opened CapTypes
  import opened Codecs

  datatype Mem = Mem(bytes: map<int, U8>, tags: set<int>)

  function ByteAt(m: Mem, x: int): U8 {
    if x in m.bytes then m.bytes[x] else 0
  }

  /** The 33-bit contents of word w. */
  function WordAt(m: Mem, w: int): U33 {
    TagWord(w in m.tags,
            ByteAt(m, 4 * w) + 0x100 * ByteAt(m, 4 * w + 1)
            + 0x1_0000 * ByteAt(m, 4 * w + 2) + 0x100_0000 * ByteAt(m, 4 * w + 3))
  }

  function DataByte(data: U32, k: int): U8
    requires 0 <= k < 4
  {
    if k == 0 then data % 0x100
    else if k == 1 then data / 0x100 % 0x100
    else if k == 2 then data / 0x1_0000 % 0x100
    else data / 0x100_0000
  }

  /** A data store of 1, 2 or 4 bytes: the tags of all touched words are cleared. */
  function StoreBytes(m: Mem, addr: int, n: nat, data: U32): Mem
    requires n in {1, 2, 4}
  {
    var b1 := m.bytes[addr := DataByte(data, 0)];
    var b2 := if n >= 2 then b1[addr + 1 := DataByte(data, 1)] else b1;
    var b4 := if n == 4 then b2[addr + 2 := DataByte(data, 2)][addr + 3 := DataByte(data, 3)] else b2;
    Mem(b4, m.tags - {addr / 4, (addr + n - 1) / 4})
  }

  /** One word of a capability store. */
  function WriteWord(m: Mem, w: int, v: U33): Mem {
    var s := StoreBytes(m, 4 * w, 4, DataOf(v));
    if TagOf(v) then s.(tags := s.tags + {w}) else s
  }

  function ClearTag(m: Mem, w: int): Mem {
    m.(tags := m.tags - {w})
  }

  lemma SplitBytes(data: U32)
    ensures DataByte(data, 0) + 0x100 * DataByte(data, 1) + 0x1_0000 * DataByte(data, 2)
         + 0x100_0000 * DataByte(data, 3) == data
  {
    hide DataByte;
    LowByte(data);
    SecondByte(data);
    ThirdByte(data);
  }

  lemma LowByte(data: U32)
    ensures data == DataByte(data, 0) + 0x100 * (data / 0x100)
  {
  }

  lemma SecondByte(data: U32)
    ensures data / 0x100 == DataByte(data, 1) + 0x100 * (data / 0x1_0000)
  {
  }

  lemma ThirdByte(data: U32)
    ensures data / 0x1_0000 == DataByte(data, 2) + 0x100 * DataByte(data, 3)
  {
  }

  lemma ReadBack(m: Mem, w: int, v: U33)
    ensures WordAt(WriteWord(m, w, v), w) == v
  {
    hide DataByte;
    SplitBytes(DataOf(v));
    var m' := WriteWord(m, w, v);
    assert ByteAt(m', 4 * w) == DataByte(DataOf(v), 0);
    assert ByteAt(m', 4 * w + 1) == DataByte(DataOf(v), 1);
    assert ByteAt(m', 4 * w + 2) == DataByte(DataOf(v), 2);
    assert ByteAt(m', 4 * w + 3) == DataByte(DataOf(v), 3);
  }

  lemma OtherWord(m: Mem, w: int, v: U33, w': int)
    requires w' != w
    ensures WordAt(WriteWord(m, w, v), w') == WordAt(m, w')
  {
  }

  lemma SameWord(m: Mem, m': Mem, w: int)
    requires w in m.tags <==> w in m'.tags
    requires forall x | 4 * w <= x < 4 * w + 4 :: ByteAt(m, x) == ByteAt(m', x)
    ensures WordAt(m, w) == WordAt(m', w)
  {
  }

  /** A word that still has its tag after a data store was not touched by it. */
  lemma TagSurvives(m: Mem, addr: int, n: nat, data: U32, w: int)
    requires n in {1, 2, 4} && w in StoreBytes(m, addr, n, data).tags
    ensures w in m.tags && WordAt(StoreBytes(m, addr, n, data), w) == WordAt(m, w)
  {
    var m' := StoreBytes(m, addr, n, data);
    forall x | 4 * w <= x < 4 * w + 4
      ensures ByteAt(m', x) == ByteAt(m, x)
    {
      assert x / 4 == w;
      if addr <= x < addr + n {
        StraddleAtMostTwo(addr, n, x);
      }
    }
    SameWord(m, m', w);
  }

  lemma StraddleAtMostTwo(addr: int, n: nat, x: int)
    requires 1 <= n <= 4 && addr <= x < addr + n
    ensures x / 4 == addr / 4 || x / 4 == (addr + n - 1) / 4
  {
  }

  /** Bytes and tags away from a store. */
  lemma StoreFrame(m: Mem, addr: int, n: nat, data: U32, x: int)
    requires n in {1, 2, 4} && !(addr <= x < addr + n)
    ensures ByteAt(StoreBytes(m, addr, n, data), x) == ByteAt(m, x)
  {
  }
}
