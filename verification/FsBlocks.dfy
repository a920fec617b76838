/** The block allocator: a free map with one bit per disk block. */
module FsBlocks {

  import opened FsBytes

  const BPB := 8192

  // Blocks below first are metadata: boot block, super block, log, inodes and the free map itself.
  datatype Geometry = Geometry(size: nat, bmapstart: nat, first: nat)

  type Data = map<nat, Blk>

  // The block, byte and bit of the free map that hold block b's bit.
  function MapBlock(g: Geometry, b: nat): nat { b / BPB + g.bmapstart }

  function MapByte(b: nat): (i: nat) ensures i < BSIZE { b % BPB / 8 }

  function MapBit(b: nat): (k: nat) ensures k < 8 { b % BPB % 8 }

  ghost predicate Layout(g: Geometry, data: Data) {
    && 0 < g.first <= g.size < 0x1_0000_0000 && MapBlock(g, g.size - 1) < g.first
    && forall b: nat :: b < g.size ==> b in data
  }

  lemma MapIsMetadata(g: Geometry, data: Data, b: nat)
    requires Layout(g, data) && b < g.size
    ensures MapBlock(g, b) < g.first && MapBlock(g, b) in data
  {
    assert b / BPB <= (g.size - 1) / BPB;
  }

  predicate Used(g: Geometry, data: Data, b: nat) {
    MapBlock(g, b) in data && BitOf(data[MapBlock(g, b)][MapByte(b)], MapBit(b))
  }

  lemma SameBit(b: nat, c: nat)
    requires b / BPB == c / BPB && MapByte(b) == MapByte(c) && MapBit(b) == MapBit(c)
    ensures b == c
  {
    assert b % BPB == 8 * MapByte(b) + MapBit(b);
  }

  // The data with block b's bit set, or cleared.
  function Mark(g: Geometry, data: Data, b: nat): Data
    requires MapBlock(g, b) in data && !Used(g, data, b)
  {
    var m := data[MapBlock(g, b)];
    data[MapBlock(g, b) := m[MapByte(b) := SetBit(m[MapByte(b)], MapBit(b))]]
  }

  function Unmark(g: Geometry, data: Data, b: nat): Data
    requires Used(g, data, b)
  {
    var m := data[MapBlock(g, b)];
    data[MapBlock(g, b) := m[MapByte(b) := ClearBit(m[MapByte(b)], MapBit(b))]]
  }

  /** Marking changes the one bit only. */
  lemma UsedAfterMark(g: Geometry, data: Data, b: nat, c: nat)
    requires MapBlock(g, b) in data && !Used(g, data, b)
    ensures Used(g, Mark(g, data, b), c) <==> c == b || Used(g, data, c)
  {
    var m := data[MapBlock(g, b)];
    SetBitAt(m[MapByte(b)], MapBit(b), MapBit(c));
    if b / BPB == c / BPB && MapByte(b) == MapByte(c) && MapBit(b) == MapBit(c) {
      SameBit(b, c);
    }
  }

  lemma UsedAfterUnmark(g: Geometry, data: Data, b: nat, c: nat)
    requires Used(g, data, b)
    ensures Used(g, Unmark(g, data, b), c) <==> c != b && Used(g, data, c)
  {
    var m := data[MapBlock(g, b)];
    ClearBitAt(m[MapByte(b)], MapBit(b), MapBit(c));
    if b / BPB == c / BPB && MapByte(b) == MapByte(c) && MapBit(b) == MapBit(c) {
      SameBit(b, c);
    }
  }

  /** The free map reads the same whatever happens to data blocks. */
  lemma UsedElsewhere(g: Geometry, data: Data, b: nat, blk: Blk, c: nat)
    requires Layout(g, data) && g.first <= b && c < g.size
    ensures Used(g, data[b := blk], c) == Used(g, data, c)
  {
    MapIsMetadata(g, data, c);
  }

  lemma InChunk(g: Geometry, b: nat, bi: nat)
    requires b % BPB == 0 && bi < BPB
    ensures MapBlock(g, b + bi) == b / BPB + g.bmapstart && MapByte(b + bi) == bi / 8 && MapBit(b + bi) == bi % 8
  {
    assert (b + bi) / BPB == b / BPB && (b + bi) % BPB == bi;
  }

  // ---------------------------------------------------------------- log_write

  predicate IsMapBlock(g: Geometry, b: nat) { g.bmapstart <= b < g.first }

  /** Of the blocks in l that are not in l0, those outside the free map are among `extra`. */
  ghost predicate Logs(g: Geometry, l0: set<nat>, l: set<nat>, extra: set<nat>) {
    l0 <= l && forall b :: b in l ==> b in l0 || b in extra || IsMapBlock(g, b)
  }

  class Disk {
    const g: Geometry
    var data: Data
    ghost var logged: set<nat>   // the blocks given to log_write since the operation began

    constructor (g: Geometry, data: Data)
      ensures this.g == g && this.data == data
    {
      this.g, this.data, this.logged := g, data, {};
    }

    /** The inner loop of balloc: the first clear bit of the free-map block that covers the blocks from b on. */
    method Scan(b: nat) returns (bi: nat)
      requires Layout(g, data) && b < g.size && b % BPB == 0
      ensures bi <= BPB && (bi < BPB && b + bi < g.size ==> !Used(g, data, b + bi))
      ensures forall c {:trigger Used(g, data, c)} :: b <= c < b + bi && c < g.size ==> Used(g, data, c)
      ensures bi == BPB || b + bi >= g.size || !Used(g, data, b + bi)
    {
      var bno := b / BPB + g.bmapstart;
      MapIsMetadata(g, data, b);
      bi := 0;
      while bi < BPB && b + bi < g.size
        invariant 0 <= bi <= BPB
        invariant forall c {:trigger Used(g, data, c)} :: b <= c < b + bi && c < g.size ==> Used(g, data, c)
      {
        InChunk(g, b, bi);
        assert Used(g, data, b + bi) <==> BitOf(data[bno][bi / 8], bi % 8);
        if !BitOf(data[bno][bi / 8], bi % 8) {
          return;
        }
        bi := bi + 1;
      }
    }

    /** The assignments of balloc once a clear bit is found. */
    method Claim(b: nat, bi: nat)
      requires Layout(g, data) && b % BPB == 0 && bi < BPB && b + bi < g.size && !Used(g, data, b + bi)
      modifies this
      ensures Layout(g, data) && MapBlock(g, b + bi) in old(data)
      ensures data == Mark(g, old(data), b + bi)[b + bi := Zero()]
      ensures Logs(g, old(logged), logged, {b + bi})
    {
      var bno: nat := b / BPB + g.bmapstart;
      InChunk(g, b, bi);
      MapIsMetadata(g, data, b + bi);
      data := data[bno := data[bno][bi / 8 := SetBit(data[bno][bi / 8], bi % 8)]];
      data := data[b + bi := Zero()];
      logged := logged + {bno, b + bi};
    }

    /** balloc: the lowest block whose bit is clear, now marked and zeroed; or 0 when every bit is set. */
    method Balloc() returns (r: nat)
      requires Layout(g, data) && Used(g, data, 0)
      modifies this
      ensures Layout(g, data)
      ensures r == 0 ==> data == old(data) && forall b {:trigger Used(g, data, b)} :: 0 <= b < g.size ==>
                  Used(g, data, b)
      ensures r != 0 ==> r < g.size && !old(Used(g, data, r))
      ensures r != 0 ==> forall b {:trigger old(Used(g, data, b))} :: 0 <= b < r ==> old(Used(g, data, b))
      ensures r != 0 ==> MapBlock(g, r) in old(data) && data == Mark(g, old(data), r)[r := Zero()]
      ensures Logs(g, old(logged), logged, {r} - {0})
    {
      var b := 0;
      while b < g.size
        invariant 0 <= b && b % BPB == 0 && data == old(data) && logged == old(logged)
        invariant forall c {:trigger Used(g, data, c)} :: 0 <= c < b && c < g.size ==> Used(g, data, c)
      {
        var bi := Scan(b);
        if bi < BPB && b + bi < g.size {
          Claim(b, bi);
          return b + bi;
        }
        b := b + BPB;
      }
      return 0;
    }

    /** bfree; "freeing free block" is its precondition. */
    method Bfree(b: nat)
      requires Layout(g, data) && b < g.size && Used(g, data, b)
      modifies this
      ensures Layout(g, data) && old(Used(g, data, b)) && data == Unmark(g, old(data), b)
      ensures Logs(g, old(logged), logged, {})
    {
      var bno: nat, bi: nat := b / BPB + g.bmapstart, b % BPB;
      MapIsMetadata(g, data, b);
      data := data[bno := data[bno][bi / 8 := ClearBit(data[bno][bi / 8], bi % 8)]];
      logged := logged + {bno};
    }
  }
}
