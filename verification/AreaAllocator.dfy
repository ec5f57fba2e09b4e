/**
 The area allocator of src/base/area_alloc.c run by one thread: a linked list of blocksets, each an
 array of blocks in ascending order, a bitmap for every block, and a hint block. The release build
 is modelled, in which elements have no debugging prefix. Results of malloc are parameters.
 */
module AreaAllocator {
  import opened Arithmetic
  import opened AreaPlacement
  import opened LockFreeBitmap
  import opened Wrappers

  /** A block and the entry taken from it. */
  datatype Taken = Taken(block: AreaBlock, entry: int)

  datatype Outcome = NoError | IllegalPointer

  /** Element sizes are rounded up to double words. */
  function AlignSize(size: nat): (r: nat)
    ensures r % 8 == 0 && size <= r < size + 8
  {
    var adjust := size % 8;
    if adjust != 0 then size + (8 - adjust) else size
  }

  /** LF_BITMAP_COUNT_ALIGN: entry counts are rounded up to whole words. */
  function AlignCount(count: nat): (r: nat)
    ensures r % 32 == 0 && count <= r < count + 32
  {
    (count + WORD_SIZE - 1) / WORD_SIZE * WORD_SIZE
  }

  class AreaBlock {
    const addr: nat
    const bitmap: Bitmap

    constructor (addr: nat, bitmap: Bitmap)
      ensures this.addr == addr && this.bitmap == bitmap
    {
      this.addr := addr;
      this.bitmap := bitmap;
    }
  }

  class Blockset {
    const items: array<AreaBlock?>
    var usedCount: nat
    var next: Blockset?

    constructor ()
      ensures fresh(items) && items.Length == BLOCKSET_SIZE && usedCount == 0 && next == null
    {
      items := new AreaBlock?[BLOCKSET_SIZE](_ => null);
      usedCount := 0;
      next := null;
    }

    ghost predicate Filled()
      reads this, items
    {
      && items.Length == BLOCKSET_SIZE && 1 <= usedCount <= BLOCKSET_SIZE
      && forall k :: 0 <= k < usedCount ==> items[k] != null
    }

    ghost function Blocks(): (r: seq<AreaBlock>)
      reads this, items
      requires Filled()
      ensures |r| == usedCount
      ensures forall k {:trigger r[k]} :: 0 <= k < usedCount ==> r[k] == items[k]
    {
      seq(usedCount, k requires 0 <= k < usedCount && Filled() reads this, items => items[k] as AreaBlock)
    }
  }

  ghost function Addresses(bs: seq<AreaBlock>): (r: seq<nat>)
    ensures |r| == |bs|
    ensures forall k {:trigger r[k]} :: 0 <= k < |bs| ==> r[k] == bs[k].addr
  {
    seq(|bs|, k requires 0 <= k < |bs| => bs[k].addr)
  }

  ghost function AllAddresses(sets: seq<seq<AreaBlock>>): (r: Blocksets)
    ensures |r| == |sets|
    ensures forall i {:trigger r[i]} :: 0 <= i < |sets| ==> r[i] == Addresses(sets[i])
  {
    seq(|sets|, i requires 0 <= i < |sets| => Addresses(sets[i]))
  }

  ghost predicate At(contents: seq<seq<AreaBlock>>, b: AreaBlock) {
    exists i, k :: 0 <= i < |contents| && 0 <= k < |contents[i]| && contents[i][k] == b
  }

  /** Blocksets are in order, and `blocks` are the blocks in them. */
  ghost predicate PlacedOf(l: Layout, contents: seq<seq<AreaBlock>>, blocks: set<AreaBlock>) {
    && l.Valid()
    && Shaped(AllAddresses(contents)) && Separate(l, AllAddresses(contents))
    && (forall b: AreaBlock :: b in blocks ==> At(contents, b))
    && (forall i, k :: 0 <= i < |contents| && 0 <= k < |contents[i]| ==> contents[i][k] in blocks)
  }

  ghost predicate Distinct(l: Layout, blocks: set<AreaBlock>) {
    forall a, b: AreaBlock :: a in blocks && b in blocks && a != b ==> a.bitmap != b.bitmap && l.Apart(a.addr, b.addr)
  }

  /** The usage threshold that a bitmap makes of a ratio. */
  function Clamped(ratio: real): real {
    if 0.0 <= ratio <= 1.0 then ratio else 1.0
  }

  ghost predicate Marks(l: Layout, ratio: real, bitmap: Bitmap, entries: set<int>)
    reads bitmap
  {
    && bitmap.Valid() && bitmap.Used() == entries
    && bitmap.entryCount == l.allocCount && bitmap.usageThreshold == Clamped(ratio)
  }

  /** The entries of a block that are in use. */
  ghost function EntriesOf(used: map<AreaBlock, set<int>>, b: AreaBlock): set<int> {
    if b in used then used[b] else {}
  }

  /** The entry was free, and is the one entry now in use besides those before. */
  ghost predicate TakenFrom(l: Layout, before: map<AreaBlock, set<int>>, t: Taken, after: map<AreaBlock, set<int>>) {
    && 0 <= t.entry < l.allocCount && t.entry !in EntriesOf(before, t.block)
    && after == before[t.block := EntriesOf(before, t.block) + {t.entry}]
  }

  /** The bitmap of a block with these entries in use counts as full. */
  ghost predicate Full(m: map<AreaBlock, set<int>>, b: AreaBlock) {
    |EntriesOf(m, b)| as real >= b.bitmap.usageThreshold * b.bitmap.entryCount as real
  }

  ghost predicate AllFull(m: map<AreaBlock, set<int>>) {
    forall b: AreaBlock :: b in m ==> Full(m, b)
  }

  ghost predicate SlotIn(l: Layout, blocks: set<AreaBlock>, ptr: int) {
    exists b: AreaBlock, e: int :: b in blocks && 0 <= e < l.allocCount && l.Slot(b.addr, e) == ptr
  }

  class Area {
    const layout: Layout
    const serverMode: bool
    const usageRatio: real
    var blocksetList: Blockset?
    var hintBlock: AreaBlock
    var nAllocs: nat
    var nFrees: nat

    ghost var chain: seq<Blockset>             // the linked list
    ghost var contents: seq<seq<AreaBlock>>    // the blocks of each blockset
    ghost var blocks: set<AreaBlock>           // all of them
    ghost var arrays: set<array<AreaBlock?>>   // the arrays of the blocksets
    ghost var bitmaps: set<Bitmap>             // the bitmaps of the blocks
    ghost var used: map<AreaBlock, set<int>>   // the entries in use
    ghost var strayFrees: nat                  // frees of slots that were free already

    ghost predicate Linked()
      reads this`chain, this`blocksetList, chain
    {
      && |chain| > 0 && blocksetList == chain[0]
      && (forall i {:trigger chain[i].next} :: 0 <= i < |chain| ==>
            chain[i].next == if i + 1 < |chain| then chain[i + 1] else null)
      && (forall i, j :: 0 <= i < j < |chain| ==> chain[i] != chain[j] && chain[i].items != chain[j].items)
    }

    ghost predicate Holds()
      reads this`chain, this`contents, this`arrays, chain, arrays
    {
      && |contents| == |chain| && (forall i :: 0 <= i < |chain| ==> chain[i].items in arrays)
      && (forall i {:trigger chain[i]} :: 0 <= i < |chain| ==> chain[i].Filled() && chain[i].Blocks() == contents[i])
    }

    ghost function Sets(): Blocksets
      reads this`contents
    {
      AllAddresses(contents)
    }

    ghost predicate Placed()
      reads this`contents, this`blocks, this`hintBlock
    {
      layout.Valid() && PlacedOf(layout, contents, blocks) && hintBlock in blocks
    }

    /** The list, the arrays and the addresses are in order. */
    ghost predicate Structured()
      reads this`chain, this`blocksetList, this`contents, this`arrays, this`blocks, this`hintBlock, chain, arrays
    {
      Linked() && Holds() && Placed()
    }

    /** Every block has its own bitmap, which marks the entries in use. */
    ghost predicate Mapped()
      reads this`used, this`blocks, this`bitmaps, bitmaps
    {
      used.Keys == blocks && Distinct(layout, blocks) && AllMarked()
    }

    ghost predicate AllMarked()
      reads this`used, this`bitmaps, bitmaps
    {
      forall b: AreaBlock :: b in used ==> b.bitmap in bitmaps && Marks(layout, usageRatio, b.bitmap, used[b])
    }

    /** The addresses handed out and not yet freed. */
    ghost function Live(): set<int>
      reads this`used
    {
      LiveOf(layout, used)
    }

    ghost predicate Valid()
      reads this, chain, arrays, bitmaps
    {
      && Structured() && Mapped() && usageRatio > 0.0
      && (!serverMode ==> nAllocs + strayFrees == nFrees + |Live()|)
    }

    /** Area creation, once malloc has given the first block. */
    constructor (header: nat, elementSize: nat, allocCount: nat, usageRatio: real, serverMode: bool, firstBlock: nat)
      requires header > 0 && elementSize > 0 && allocCount > 0 && 0.0 < usageRatio
      ensures Valid() && fresh(chain) && fresh(arrays) && fresh(bitmaps)
      ensures Live() == {} && |blocks| == 1 && hintBlock in blocks && hintBlock.addr == firstBlock
      ensures used == map[hintBlock := {}] && nAllocs == nFrees == 0
      ensures layout.header == header && this.serverMode == serverMode && this.usageRatio == usageRatio
      ensures strayFrees == 0
      ensures layout.elementSize % 8 == 0 && elementSize <= layout.elementSize < elementSize + 8
      ensures layout.allocCount % 32 == 0 && allocCount <= layout.allocCount < allocCount + 32
    {
      hide AlignSize, AlignCount, UsedOf, LockFreeBitmap.WellFormed, PlacedOf, LiveOf;
      var size, count := AlignSize(elementSize), AlignCount(allocCount);
      layout := Layout(header, size, count);
      this.serverMode := serverMode;
      this.usageRatio := usageRatio;
      nAllocs, nFrees, strayFrees := 0, 0, 0;
      var blockset := new Blockset();
      var bitmap := new Bitmap(count, usageRatio, serverMode);
      var block := new AreaBlock(firstBlock, bitmap);
      blockset.items[0] := block;
      blockset.usedCount := blockset.usedCount + 1;
      blocksetList, hintBlock := blockset, block;
      chain, contents, blocks := [blockset], [[block]], {block};
      arrays, bitmaps, used := {blockset.items}, {bitmap}, map[block := {}];
      new;
      assert Linked();
      assert Holds() by { assert blockset.Blocks() == [block]; }
      OneBlockPlaced(layout, block);
      assert Structured();
      hide Structured;
      assert Mapped();
      hide Mapped;
      NothingLive(layout, block);
    }

    /** Returns the block that contains the pointer, null if none does. */
    method FindBlock(ptr: nat) returns (block: AreaBlock?)
      requires Structured()
      ensures block != null ==> block in blocks && layout.Contains(block.addr, ptr)
      ensures block == null ==> forall b :: b in blocks ==> !layout.Contains(b.addr, ptr)
    {
      var blockset := blocksetList;
      ghost var j := 0;
      while blockset != null
        invariant 0 <= j <= |chain|
        invariant blockset == if j < |chain| then chain[j] else null
        invariant forall i, k :: 0 <= i < j && 0 <= k < |contents[i]| ==> !layout.Contains(contents[i][k].addr, ptr)
        decreases |chain| - j
      {
        assert blockset == chain[j] && blockset.Filled();
        var usedCount := blockset.usedCount;
        var found := FindInBlockset(blockset, usedCount, ptr, j);
        if found != null {
          return found;
        }
        blockset := blockset.next;
        j := j + 1;
      }
      block := null;
    }

    /** The test of the bounds and the binary search in one blockset. */
    method FindInBlockset(blockset: Blockset, usedCount: nat, ptr: nat, ghost j: nat) returns (block: AreaBlock?)
      requires Structured() && j < |chain| && blockset == chain[j] && usedCount == blockset.usedCount
      ensures block != null ==> block in blocks && layout.Contains(block.addr, ptr)
      ensures block == null ==> forall k :: 0 <= k < |contents[j]| ==> !layout.Contains(contents[j][k].addr, ptr)
    {
      ghost var bs := contents[j];
      assert blockset.Blocks() == bs;
      assert forall k :: 0 <= k < usedCount ==> blockset.items[k] == bs[k];
      assert Sets()[j] == Addresses(bs);
      assert Ascending(Addresses(bs));
      var first: AreaBlock := blockset.items[0];
      if ptr < layout.Data(first.addr) {
        NoneBelow(layout, bs, ptr);
        return null;
      }
      var last: AreaBlock := blockset.items[usedCount - 1];
      if layout.Limit(last.addr) <= ptr {
        NoneAbove(layout, bs, ptr);
        return null;
      }
      var left, right := 0, usedCount - 1;
      while left <= right
        invariant 0 <= left <= usedCount && -1 <= right < usedCount && left <= right + 1
        invariant left > 0 ==> layout.Data(bs[left - 1].addr) <= ptr
        invariant right + 1 < usedCount ==> ptr < layout.Data(bs[right + 1].addr)
      {
        var middle := (left + right) / 2;
        var b: AreaBlock := blockset.items[middle];
        if layout.Data(b.addr) > ptr {
          right := middle - 1;
        } else {
          left := middle + 1;
        }
      }
      var pos := right;
      assert pos >= 0;
      block := blockset.items[pos];
      OnlyAt(layout, Sets(), j, bs, ptr, pos);
      if !layout.Contains(block.addr, ptr) {
        block := null;
      }
    }

    /** Stores a block behind the last one of a blockset, then publishes it. */
    method Append(blockset: Blockset, newBlock: AreaBlock, ghost j: nat)
      requires Linked() && Holds() && j < |chain| && blockset == chain[j] && blockset.usedCount < BLOCKSET_SIZE
      modifies blockset`usedCount, blockset.items, this`contents, this`blocks
      ensures Linked() && Holds()
      ensures contents == old(contents)[j := old(contents)[j] + [newBlock]] && blocks == old(blocks) + {newBlock}
    {
      blockset.items[blockset.usedCount] := newBlock;
      blockset.usedCount := blockset.usedCount + 1;
      contents := contents[j := contents[j] + [newBlock]];
      blocks := blocks + {newBlock};
      forall i {:trigger chain[i]} | 0 <= i < |chain| ensures chain[i].Filled() && chain[i].Blocks() == contents[i] {
        if i == j {
          assert chain[j].Blocks() == contents[j];
        } else {
          assert chain[i] != chain[j] && chain[i].items != chain[j].items;
          assert old(chain[i].Blocks()) == contents[i];
        }
      }
    }

    /** Links a new blockset that holds one block behind the last one. */
    method Extend(last: Blockset, newBlock: AreaBlock)
      requires Linked() && Holds() && last == chain[|chain| - 1]
      modifies last`next, this`chain, this`contents, this`blocks, this`arrays
      ensures Linked() && Holds()
      ensures contents == old(contents) + [[newBlock]] && blocks == old(blocks) + {newBlock}
      ensures |chain| == |old(chain)| + 1 && chain[..|old(chain)|] == old(chain)
      ensures forall i :: 0 <= i < |chain| ==> chain[i] in old(chain) || fresh(chain[i])
      ensures fresh(arrays - old(arrays))
    {
      ghost var n := |chain|;
      var newBlockset := new Blockset();
      newBlockset.items[0] := newBlock;
      newBlockset.usedCount := newBlockset.usedCount + 1;
      last.next := newBlockset;
      chain, arrays := chain + [newBlockset], arrays + {newBlockset.items};
      contents, blocks := contents + [[newBlock]], blocks + {newBlock};
      forall i {:trigger chain[i]} | 0 <= i < |chain| ensures chain[i].Filled() && chain[i].Blocks() == contents[i] {
        if i == n {
          assert chain[n].Blocks() == [newBlock];
        } else {
          assert old(chain[i].Filled() && chain[i].Blocks() == contents[i]);
        }
      }
    }

    /** Adds a block to the first blockset with room below it, or to a new blockset at the end of the list. */
    method InsertBlock(newBlock: AreaBlock, mallocOk: bool) returns (ok: bool)
      requires Structured() && newBlock !in blocks && Fresh(layout, Sets(), newBlock.addr)
      modifies this`chain, this`contents, this`blocks, this`arrays, chain, arrays
      ensures Structured()
      ensures ok ==> Sets() == Inserted(old(Sets()), newBlock.addr) && blocks == old(blocks) + {newBlock}
      ensures !ok ==> !mallocOk && contents == old(contents) && blocks == old(blocks)
      ensures forall i :: 0 <= i < |chain| ==> chain[i] in old(chain) || fresh(chain[i])
      ensures fresh(arrays - old(arrays))
    {
      hide Shaped, Separate, Fresh, Inserted, At, Addresses, AllAddresses;
      ghost var sets := Sets();
      var last, blockset, j := FindRoom(newBlock.addr);
      if blockset != null {
        PlacedAppend(layout, contents, blocks, newBlock, j);
        Append(blockset, newBlock, j);
        return true;
      }
      if !mallocOk {
        return false;
      }
      PlacedExtend(layout, contents, blocks, newBlock);
      Extend(last, newBlock);
      ok := true;
    }

    /** The first blockset with room below the block, and the last one visited. */
    method FindRoom(addr: nat) returns (last: Blockset, blockset: Blockset?, ghost j: nat)
      requires Structured()
      ensures j <= |chain| && Skips(Sets(), addr, j)
      ensures blockset == if j < |chain| then chain[j] else null
      ensures j < |chain| ==> HasRoom(Sets()[j], addr) && blockset.usedCount < BLOCKSET_SIZE
      ensures j == |chain| ==> last == chain[|chain| - 1]
    {
      hide Shaped, Separate, Inserted, At, Addresses, AllAddresses;
      ghost var sets := Sets();
      last := blocksetList;
      blockset := blocksetList;
      j := 0;
      SkipNone(sets, addr);
      while blockset != null
        invariant 0 <= j <= |chain| && last == chain[if j == 0 then 0 else j - 1]
        invariant blockset == if j < |chain| then chain[j] else null
        invariant Skips(sets, addr, j)
        decreases |chain| - j
      {
        last := blockset;
        var usedCount := blockset.usedCount;
        assert chain[j].Filled() && chain[j].Blocks() == contents[j];
        assert sets[j] == Addresses(contents[j]);
        if usedCount != BLOCKSET_SIZE {
          var top: AreaBlock := blockset.items[usedCount - 1];
          assert sets[j][usedCount - 1] == top.addr;
          if top.addr < addr {
            return;
          }
        }
        SkipOne(sets, addr, j);
        blockset := blockset.next;
        j := j + 1;
      }
    }

    /** One request to the bitmap of a block. */
    method TryBlock(block: AreaBlock) returns (entry: int)
      requires Mapped() && block in blocks
      modifies block.bitmap, this`used
      ensures Mapped()
      ensures entry == -1 <==> Full(old(used), block)
      ensures entry == -1 ==> used == old(used)
      ensures entry != -1 ==> TakenFrom(layout, old(used), Taken(block, entry), used)
    {
      hide UsedOf, LockFreeBitmap.WellFormed, Bitmap.Valid;
      FullIs(block);
      entry := block.bitmap.GetEntry();
      if entry != -1 {
        used := used[block := used[block] + {entry}];
      }
    }

    lemma FullIs(b: AreaBlock)
      requires Mapped() && b in blocks
      ensures b.bitmap.IsFull() <==> Full(used, b)
    {
    }

    lemma OwnBitmap(b: AreaBlock)
      requires Mapped() && b in blocks
      ensures b.bitmap in bitmaps && Distinct(layout, blocks) && used.Keys == blocks
    {
    }

    /** The hint moves from a full block to one that is not. */
    method MoveHint(block: AreaBlock)
      requires hintBlock in blocks && block in blocks
      modifies this`hintBlock
      ensures hintBlock in blocks
      ensures hintBlock == if old(hintBlock).bitmap.IsFull() && !block.bitmap.IsFull() then block else old(hintBlock)
    {
      if hintBlock.bitmap.IsFull() && !block.bitmap.IsFull() {
        hintBlock := block;
      }
    }

    /** Asks every block of the list in turn. */
    method Scan() returns (r: Option<Taken>)
      requires Structured() && Mapped()
      modifies bitmaps, this`used
      ensures Structured() && Mapped()
      ensures r.None? ==> used == old(used) && AllFull(used)
      ensures r.Some? ==> r.value.block in blocks && TakenFrom(layout, old(used), r.value, used)
    {
      hide Mapped, PlacedOf, Full, AllFull, FullBefore, TakenFrom;
      FullNone(used, contents);
      var blockset := blocksetList;
      ghost var j := 0;
      while blockset != null
        invariant Structured() && Mapped() && used == old(used)
        invariant 0 <= j <= |chain| && blockset == if j < |chain| then chain[j] else null
        invariant FullBefore(used, contents, j, 0)
        decreases |chain| - j
      {
        r := ScanBlockset(blockset, j);
        if r.Some? {
          return;
        }
        blockset := blockset.next;
        j := j + 1;
      }
      OwnBitmap(hintBlock);
      SeenAll(layout, used, contents, blocks, j);
      r := None;
    }

    /** Asks the blocks of one blockset in turn. */
    method ScanBlockset(blockset: Blockset, ghost j: nat) returns (r: Option<Taken>)
      requires Structured() && Mapped() && j < |chain| && blockset == chain[j] && FullBefore(used, contents, j, 0)
      modifies bitmaps, this`used
      ensures Structured() && Mapped()
      ensures r.None? ==> used == old(used) && FullBefore(used, contents, j + 1, 0)
      ensures r.Some? ==> r.value.block in blocks && TakenFrom(layout, old(used), r.value, used)
    {
      hide Mapped, PlacedOf, Full, FullBefore, TakenFrom, Linked;
      assert chain[j].Filled() && chain[j].Blocks() == contents[j];
      var usedCount := blockset.usedCount;
      for i := 0 to usedCount
        invariant Structured() && Mapped() && used == old(used)
        invariant FullBefore(used, contents, j, i)
      {
        assert chain[j].Filled() && chain[j].Blocks() == contents[j];
        var block: AreaBlock := blockset.items[i];
        InContents(layout, contents, blocks, j, i);
        OwnBitmap(block);
        var entry := TryBlock(block);
        if entry != -1 {
          return Some(Taken(block, entry));
        }
        FullOne(used, contents, j, i);
      }
      FullSet(used, contents, j);
      r := None;
    }

    /** A new block, with one entry taken, becomes part of the area and its hint. */
    method Grow(addr: nat, mallocSet: bool) returns (r: Option<Taken>)
      requires Structured() && Mapped() && usageRatio > 0.0 && Fresh(layout, Sets(), addr)
      modifies this`chain, this`contents, this`blocks, this`arrays, this`bitmaps,
               this`hintBlock, this`used, chain, arrays
      ensures Structured() && Mapped()
      ensures r.None? ==> used == old(used) && contents == old(contents) && !mallocSet
      ensures r.Some? ==> r.value.block !in old(used) && r.value.block in blocks
                          && Sets() == Inserted(old(Sets()), addr)
      ensures r.Some? ==> TakenFrom(layout, old(used), r.value, used)
      ensures r.Some? ==> hintBlock == r.value.block && hintBlock.addr == addr
      ensures forall i :: 0 <= i < |chain| ==> chain[i] in old(chain) || fresh(chain[i])
      ensures fresh(arrays - old(arrays))
      ensures fresh(bitmaps - old(bitmaps))
    {
      hide AllMarked, Marks, Fresh, Inserted, AllAddresses, PlacedOf, Linked, Holds, TakenFrom;
      var newBlock, entry := NewAreaBlock(addr);
      FreshBlock(layout, contents, blocks, newBlock);
      TakenFirst(layout, used, newBlock, entry);
      var ok := InsertBlock(newBlock, mallocSet);
      if !ok {
        return None;
      }
      Adopt(newBlock, entry);
      r := Some(Taken(newBlock, entry));
    }

    /** A block just inserted becomes the hint; the model notes its bitmap and its first entry. */
    method Adopt(newBlock: AreaBlock, ghost entry: int)
      requires Structured() && newBlock !in used && blocks == used.Keys + {newBlock} && Distinct(layout, blocks)
      requires Marks(layout, usageRatio, newBlock.bitmap, {entry})
      requires AllMarked()
      modifies this`bitmaps, this`hintBlock, this`used
      ensures Structured() && Mapped() && hintBlock == newBlock && used == old(used)[newBlock := {entry}]
      ensures bitmaps == old(bitmaps) + {newBlock.bitmap}
    {
      hide Marks, PlacedOf, Linked, Holds, Distinct;
      hintBlock, bitmaps, used := newBlock, bitmaps + {newBlock.bitmap}, used[newBlock := {entry}];
    }

    /** Allocates a block and takes its first entry. */
    method NewAreaBlock(addr: nat) returns (block: AreaBlock, entry: int)
      requires layout.Valid() && usageRatio > 0.0
      ensures fresh(block) && fresh(block.bitmap) && block.addr == addr
      ensures 0 <= entry < layout.allocCount && Marks(layout, usageRatio, block.bitmap, {entry})
    {
      var bitmap := new Bitmap(layout.allocCount, usageRatio, serverMode);
      block := new AreaBlock(addr, bitmap);
      assert !bitmap.IsFull() by {
        NotFull(bitmap.usageThreshold, layout.allocCount as real);
      }
      entry := bitmap.GetEntry();
    }

    /** The three places an entry comes from: the hint block, any block, a new block. */
    method Take(mallocBlock: Option<nat>, mallocSet: bool) returns (r: Option<Taken>)
      requires Structured() && Mapped() && usageRatio > 0.0
      requires mallocBlock.Some? ==> Fresh(layout, Sets(), mallocBlock.value)
      modifies this`chain, this`contents, this`blocks, this`arrays, this`bitmaps,
               this`hintBlock, this`used, chain, arrays, bitmaps
      ensures Structured() && Mapped()
      ensures r.None? ==> used == old(used) && contents == old(contents)
                          && (mallocBlock.None? || !mallocSet) && AllFull(used)
      ensures r.Some? ==> r.value.block in blocks && TakenFrom(layout, old(used), r.value, used)
      ensures contents == old(contents)
              || (&& AllFull(old(used)) && mallocBlock.Some? && Sets() == Inserted(old(Sets()), mallocBlock.value)
                  && hintBlock.addr == mallocBlock.value)
      ensures !Full(old(used), old(hintBlock)) ==> r.Some? && r.value.block == old(hintBlock)
      ensures forall i :: 0 <= i < |chain| ==> chain[i] in old(chain) || fresh(chain[i])
      ensures fresh(arrays - old(arrays))
      ensures fresh(bitmaps - old(bitmaps))
    {
      hide Mapped, Inserted, Fresh, PlacedOf, AllAddresses, Linked, Holds, Sets, TakenFrom, Full, AllFull;
      OwnBitmap(hintBlock);
      var hint := hintBlock;
      var entry := TryBlock(hint);
      if entry != -1 {
        return Some(Taken(hint, entry));
      }
      r := Scan();
      if r.Some? {
        MoveHint(r.value.block);
        return;
      }
      if mallocBlock.Some? {
        r := Grow(mallocBlock.value, mallocSet);
      }
    }

    /**
     A new element. Only when all blocks are full is a block added, and only when malloc then fails is
     there no element.
     */
    method Alloc(mallocBlock: Option<nat>, mallocSet: bool) returns (r: Option<int>)
      requires Valid()
      requires mallocBlock.Some? ==> Fresh(layout, Sets(), mallocBlock.value)
      modifies this, chain, arrays, bitmaps
      ensures Valid() && nFrees == old(nFrees) && strayFrees == old(strayFrees)
      ensures r.Some? ==> r.value >= 0 && IsSlot(r.value) && r.value !in old(Live())
                          && Live() == old(Live()) + {r.value}
      ensures nAllocs == old(nAllocs) + if r.Some? && !serverMode then 1 else 0
      ensures r.None? ==> used == old(used) && contents == old(contents)
      ensures r.None? ==> (mallocBlock.None? || !mallocSet) && AllFull(used)
      ensures contents == old(contents)
              || (&& AllFull(old(used)) && mallocBlock.Some? && Sets() == Inserted(old(Sets()), mallocBlock.value)
                  && hintBlock.addr == mallocBlock.value)
      ensures !Full(old(used), old(hintBlock)) ==>
                r.Some? && SlotIn(layout, {old(hintBlock)}, r.value)
      ensures old(Roomy()) ==> r.Some? && contents == old(contents)
      ensures forall i :: 0 <= i < |chain| ==> chain[i] in old(chain) || fresh(chain[i])
      ensures fresh(arrays - old(arrays))
      ensures fresh(bitmaps - old(bitmaps))
    {
      hide AllFull, Full, Roomy, Structured, Mapped, LiveOf, Inserted, Fresh, Sets, TakenFrom, SlotIn, Slotted;
      ghost var m := used;
      UsedSlotted();
      if Roomy() {
        RoomyIsNotFull();
      }
      var t := Take(mallocBlock, mallocSet);
      if t.None? {
        return None;
      }
      UsedSlotted();
      TakenIsNew(layout, m, t.value, used);
      if !serverMode {
        nAllocs := nAllocs + 1;
      }
      r := Some(layout.Slot(t.value.block.addr, t.value.entry));
      MulMonotone(layout.elementSize, 0, t.value.entry);
      IsSlotOf(layout, blocks, t.value.block, t.value.entry);
      IsSlotOf(layout, {t.value.block}, t.value.block, t.value.entry);
    }

    lemma UsedSlotted()
      requires Structured() && Mapped()
      ensures Slotted(layout, used) && used.Keys == blocks
    {
      forall b: AreaBlock, e: int | b in used && e in used[b] ensures 0 <= e < layout.allocCount {
        assert e in b.bitmap.Used();
      }
    }

    /** Fewer elements are live than the blocks hold below their thresholds. */
    ghost predicate Roomy()
      reads this`used, this`blocks
    {
      |Live()| as real < |blocks| as real * (Clamped(usageRatio) * layout.allocCount as real)
    }

    lemma RoomyIsNotFull()
      requires Structured() && Mapped() && Roomy()
      ensures !AllFull(used)
    {
      hide Structured, Mapped, LiveOf, Slotted, Full;
      UsedSlotted();
      if AllFull(used) {
        forall b: AreaBlock | b in used
          ensures |used[b]| as real >= Clamped(usageRatio) * layout.allocCount as real
        {
          FullMeans(b);
        }
        assert |used.Keys| == |used|;
        LiveAtLeast(layout, used, Clamped(usageRatio) * layout.allocCount as real);
      }
    }

    lemma FullMeans(b: AreaBlock)
      requires Mapped() && b in used
      ensures Full(used, b) <==> |used[b]| as real >= Clamped(usageRatio) * layout.allocCount as real
    {
      hide UsedOf, LockFreeBitmap.WellFormed, Bitmap.Valid, Distinct;
      assert Marks(layout, usageRatio, b.bitmap, used[b]);
    }

    /** With a ratio of one, that is any entry free at all. */
    lemma RoomyWhenWhole()
      requires usageRatio == 1.0
      ensures Roomy() <==> |Live()| < |blocks| * layout.allocCount
    {
      RealProduct(|blocks|, layout.allocCount);
    }

    /** The pointer is the start of an element of a registered block. */
    ghost predicate IsSlot(ptr: int)
      reads this`blocks
    {
      SlotIn(layout, blocks, ptr)
    }

    /** The block and entry of an element start. */
    method Locate(ptr: nat) returns (r: Option<Taken>)
      requires Structured() && Mapped()
      ensures r.Some? <==> IsSlot(ptr)
      ensures r.Some? ==> r.value.block in blocks && 0 <= r.value.entry < layout.allocCount
                          && layout.Slot(r.value.block.addr, r.value.entry) == ptr
    {
      hide Mapped, PlacedOf, Linked, Holds, SlotIn, Distinct;
      if ptr == 0 {
        Outside(layout, blocks, ptr);
        return None;
      }
      var block := FindBlock(ptr);
      if block == null {
        Outside(layout, blocks, ptr);
        return None;
      }
      OwnBitmap(block);
      Inside(layout, blocks, block, ptr);
      var offset := ptr - layout.Data(block.addr);
      if offset % layout.elementSize != 0 {
        return None;
      }
      r := Some(Taken(block, offset / layout.elementSize));
    }

    /** Gives an element back. A pointer that is no element start is refused and changes nothing. */
    method Free(ptr: nat) returns (r: Outcome)
      requires Valid()
      modifies this`used, this`hintBlock, this`nFrees, this`strayFrees, bitmaps
      ensures Valid() && nAllocs == old(nAllocs)
      ensures r == NoError <==> IsSlot(ptr)
      ensures r == NoError ==> Live() == old(Live()) - {ptr}
      ensures r == NoError ==> strayFrees == old(strayFrees) + if ptr in old(Live()) then 0 else 1
      ensures nFrees == old(nFrees) + if r == NoError && !serverMode then 1 else 0
      ensures r == IllegalPointer ==> used == old(used) && hintBlock == old(hintBlock) && strayFrees == old(strayFrees)
    {
      hide Structured, Mapped, LiveOf, SlotIn, Slotted, Stray, EntriesOf;
      var t := Locate(ptr);
      if t.None? {
        return IllegalPointer;
      }
      UsedSlotted();
      OwnBitmap(t.value.block);
      Cleared(layout, used, t.value.block, t.value.entry);
      strayFrees := strayFrees + Stray(used, t.value.block, t.value.entry);
      Release(t.value.block, t.value.entry);
      if !serverMode {
        nFrees := nFrees + 1;
      }
      r := NoError;
    }

    /** The counters of a build that counts match the live slots exactly when no free slot was ever freed. */
    lemma CountersMatch()
      requires Valid() && !serverMode
      ensures nAllocs == nFrees + |Live()| <==> strayFrees == 0
    {
    }

    /** Clears an entry of a block, and makes the block the hint if the hint block is full. */
    method Release(block: AreaBlock, entry: nat)
      requires Structured() && Mapped() && block in blocks && entry < layout.allocCount
      modifies block.bitmap, this`used, this`hintBlock
      ensures Structured() && Mapped() && used == old(used)[block := EntriesOf(old(used), block) - {entry}]
    {
      hide Mapped, PlacedOf, Linked, Holds;
      Unmark(block, entry);
      MoveHint(block);
    }

    method Unmark(block: AreaBlock, entry: nat)
      requires Mapped() && block in blocks && entry < layout.allocCount
      modifies block.bitmap, this`used
      ensures Mapped() && used == old(used)[block := EntriesOf(old(used), block) - {entry}]
    {
      hide UsedOf, LockFreeBitmap.WellFormed, Bitmap.Valid;
      block.bitmap.FreeEntry(entry);
      used := used[block := used[block] - {entry}];
    }
  }

  /** Every block of the first j blocksets and the first i blocks of the next one are full. */
  ghost predicate FullBefore(m: map<AreaBlock, set<int>>, contents: seq<seq<AreaBlock>>, j: nat, i: nat) {
    forall a, k :: 0 <= a < |contents| && 0 <= k < |contents[a]| && (a < j || (a == j && k < i))
      ==> Full(m, contents[a][k])
  }

  lemma FullNone(m: map<AreaBlock, set<int>>, contents: seq<seq<AreaBlock>>)
    ensures FullBefore(m, contents, 0, 0)
  {
  }

  lemma FullOne(m: map<AreaBlock, set<int>>, contents: seq<seq<AreaBlock>>, j: nat, i: nat)
    requires FullBefore(m, contents, j, i) && j < |contents| && i < |contents[j]| && Full(m, contents[j][i])
    ensures FullBefore(m, contents, j, i + 1)
  {
  }

  lemma FullSet(m: map<AreaBlock, set<int>>, contents: seq<seq<AreaBlock>>, j: nat)
    requires j < |contents| && FullBefore(m, contents, j, |contents[j]|)
    ensures FullBefore(m, contents, j + 1, 0)
  {
  }

  lemma SeenAll(l: Layout, m: map<AreaBlock, set<int>>, contents: seq<seq<AreaBlock>>, blocks: set<AreaBlock>, j: nat)
    requires PlacedOf(l, contents, blocks) && m.Keys == blocks && FullBefore(m, contents, j, 0) && j >= |contents|
    ensures AllFull(m)
  {
    hide Full, Shaped, Separate;
    forall b: AreaBlock | b in m ensures Full(m, b) {
      assert At(contents, b);
    }
  }

  lemma TakenFirst(l: Layout, m: map<AreaBlock, set<int>>, b: AreaBlock, e: int)
    requires b !in m && 0 <= e < l.allocCount
    ensures TakenFrom(l, m, Taken(b, e), m[b := {e}])
  {
    assert {} + {e} == {e};
  }

  lemma IsSlotOf(l: Layout, blocks: set<AreaBlock>, b: AreaBlock, e: int)
    requires b in blocks && 0 <= e < l.allocCount
    ensures SlotIn(l, blocks, l.Slot(b.addr, e))
  {
  }

  lemma Outside(l: Layout, blocks: set<AreaBlock>, ptr: int)
    requires l.Valid() && forall b: AreaBlock :: b in blocks ==> !l.Contains(b.addr, ptr)
    ensures !SlotIn(l, blocks, ptr)
  {
    if SlotIn(l, blocks, ptr) {
      var b: AreaBlock, e: int :| b in blocks && 0 <= e < l.allocCount && l.Slot(b.addr, e) == ptr;
      SlotInside(l, b.addr, e);
    }
  }

  /** A pointer into a block is an element start exactly when its offset is a multiple of the element size. */
  lemma Inside(l: Layout, blocks: set<AreaBlock>, block: AreaBlock, ptr: int)
    requires l.Valid() && Distinct(l, blocks) && block in blocks && l.Contains(block.addr, ptr)
    ensures var offset := ptr - l.Data(block.addr);
            && (SlotIn(l, blocks, ptr) <==> offset % l.elementSize == 0)
            && (offset % l.elementSize == 0 ==>
                  0 <= offset / l.elementSize < l.allocCount && l.Slot(block.addr, offset / l.elementSize) == ptr)
  {
    var offset := ptr - l.Data(block.addr);
    if offset % l.elementSize == 0 {
      OffsetIsSlot(l, offset);
      assert l.Slot(block.addr, offset / l.elementSize) == ptr;
    }
    if SlotIn(l, blocks, ptr) {
      var b: AreaBlock, e: int :| b in blocks && 0 <= e < l.allocCount && l.Slot(b.addr, e) == ptr;
      SlotInside(l, b.addr, e);
      SlotIndex(l, b.addr, e);
      assert b == block;
    }
  }

  lemma OffsetIsSlot(l: Layout, offset: int)
    requires l.Valid() && 0 <= offset < l.BlockSize() && offset % l.elementSize == 0
    ensures 0 <= offset / l.elementSize < l.allocCount && l.elementSize * (offset / l.elementSize) == offset
  {
    var e := offset / l.elementSize;
    assert offset == l.elementSize * e;
    if e >= l.allocCount {
      MulMonotone(l.elementSize, l.allocCount, e);
    }
    if e < 0 {
      MulMonotone(l.elementSize, e, -1);
    }
  }

  lemma NotFull(ratio: real, count: real)
    requires ratio > 0.0 && count > 0.0
    ensures !(0.0 >= ratio * count)
  {
  }

  // ---------- Insertion ----------

  lemma OneBlockPlaced(l: Layout, b: AreaBlock)
    requires l.Valid()
    ensures PlacedOf(l, [[b]], {b})
  {
    assert [[b]][0][0] == b;
    assert AllAddresses([[b]])[0] == Addresses([b]) == [b.addr];
  }

  lemma PlacedAppend(l: Layout, contents: seq<seq<AreaBlock>>, blocks: set<AreaBlock>, b: AreaBlock, j: nat)
    requires PlacedOf(l, contents, blocks) && Fresh(l, AllAddresses(contents), b.addr)
    requires j < |contents| && Skips(AllAddresses(contents), b.addr, j) && HasRoom(AllAddresses(contents)[j], b.addr)
    ensures var grown := contents[j := contents[j] + [b]];
            PlacedOf(l, grown, blocks + {b}) && AllAddresses(grown) == Inserted(AllAddresses(contents), b.addr)
  {
    hide Shaped, Separate, Fresh, Addresses, AllAddresses;
    var sets := AllAddresses(contents);
    var grown := contents[j := contents[j] + [b]];
    InsertedKeeps(l, sets, b.addr);
    assert Addresses(contents[j] + [b]) == sets[j] + [b.addr];
    assert AllAddresses(grown) == sets[j := sets[j] + [b.addr]];
    assert sets[j..][0] == sets[j] && sets[j..][1..] == sets[j + 1..];
    assert sets[j := sets[j] + [b.addr]] == sets[..j] + ([sets[j] + [b.addr]] + sets[j + 1..]);
    Membership(contents, blocks, b, grown, j, |contents[j]|);
  }

  lemma PlacedExtend(l: Layout, contents: seq<seq<AreaBlock>>, blocks: set<AreaBlock>, b: AreaBlock)
    requires PlacedOf(l, contents, blocks) && Fresh(l, AllAddresses(contents), b.addr)
    requires Skips(AllAddresses(contents), b.addr, |contents|)
    ensures var grown := contents + [[b]];
            PlacedOf(l, grown, blocks + {b}) && AllAddresses(grown) == Inserted(AllAddresses(contents), b.addr)
  {
    hide Shaped, Separate, Fresh, Addresses, AllAddresses;
    var sets := AllAddresses(contents);
    var grown := contents + [[b]];
    InsertedKeeps(l, sets, b.addr);
    assert Addresses([b]) == [b.addr];
    assert AllAddresses(grown) == sets + [[b.addr]];
    assert sets[|sets|..] == [] && sets[..|sets|] == sets;
    Membership(contents, blocks, b, grown, |contents|, 0);
  }

  lemma FreshBlock(l: Layout, contents: seq<seq<AreaBlock>>, blocks: set<AreaBlock>, b: AreaBlock)
    requires PlacedOf(l, contents, blocks) && Fresh(l, AllAddresses(contents), b.addr)
    ensures b !in blocks && forall a: AreaBlock :: a in blocks ==> l.Apart(a.addr, b.addr)
  {
    forall a: AreaBlock | a in blocks ensures a != b && l.Apart(a.addr, b.addr) {
      var i, k :| 0 <= i < |contents| && 0 <= k < |contents[i]| && contents[i][k] == a;
      assert AllAddresses(contents)[i][k] == a.addr;
    }
  }

  lemma InContents(l: Layout, contents: seq<seq<AreaBlock>>, blocks: set<AreaBlock>, j: nat, i: nat)
    requires PlacedOf(l, contents, blocks) && j < |contents| && i < |contents[j]|
    ensures contents[j][i] in blocks
  {
  }

  lemma Membership(contents: seq<seq<AreaBlock>>, blocks: set<AreaBlock>, b: AreaBlock,
                   grown: seq<seq<AreaBlock>>, at: nat, k: nat)
    requires forall x: AreaBlock :: x in blocks ==> At(contents, x)
    requires forall i, m :: 0 <= i < |contents| && 0 <= m < |contents[i]| ==> contents[i][m] in blocks
    requires at < |grown| && k < |grown[at]| && grown[at][k] == b && |contents| <= |grown|
    requires forall i, m :: 0 <= i < |contents| && 0 <= m < |contents[i]| ==>
                              m < |grown[i]| && grown[i][m] == contents[i][m]
    requires forall i, m :: 0 <= i < |grown| && 0 <= m < |grown[i]| ==>
               (i, m) == (at, k) || (i < |contents| && m < |contents[i]|)
    ensures forall x: AreaBlock :: x in blocks + {b} ==> At(grown, x)
    ensures forall i, m :: 0 <= i < |grown| && 0 <= m < |grown[i]| ==> grown[i][m] in blocks + {b}
  {
    forall x: AreaBlock | x in blocks + {b} ensures At(grown, x) {
      if x != b {
        var i, m :| 0 <= i < |contents| && 0 <= m < |contents[i]| && contents[i][m] == x;
        assert grown[i][m] == x;
      }
    }
    forall i, m | 0 <= i < |grown| && 0 <= m < |grown[i]| ensures grown[i][m] in blocks + {b} {
      if (i, m) != (at, k) { assert grown[i][m] == contents[i][m]; }
    }
  }

  // ---------- Slots in use ----------

  ghost function LiveOf(l: Layout, m: map<AreaBlock, set<int>>): set<int> {
    set b: AreaBlock, e: int | b in m && e in m[b] :: l.Slot(b.addr, e)
  }

  ghost predicate Slotted(l: Layout, m: map<AreaBlock, set<int>>) {
    && l.Valid()
    && (forall b: AreaBlock, e: int :: b in m && e in m[b] ==> 0 <= e < l.allocCount)
    && (forall a, b: AreaBlock :: a in m && b in m && a != b ==> l.Apart(a.addr, b.addr))
  }

  lemma NothingLive(l: Layout, b: AreaBlock)
    ensures LiveOf(l, map[b := {}]) == {}
  {
  }

  /** A pointer in use belongs to one block and one entry. */
  lemma SlotIsUnique(l: Layout, m: map<AreaBlock, set<int>>, b: AreaBlock, e: int)
    requires Slotted(l, m) && b in m && 0 <= e < l.allocCount
    ensures l.Slot(b.addr, e) in LiveOf(l, m) <==> e in m[b]
  {
    if l.Slot(b.addr, e) in LiveOf(l, m) && e !in m[b] {
      var a: AreaBlock, d: int :| a in m && d in m[a] && l.Slot(a.addr, d) == l.Slot(b.addr, e);
      SlotsDisjoint(l, a.addr, d, b.addr, e);
    }
  }

  /** A pointer in use is an element behind the header of one block and before its end. */
  lemma LiveInside(l: Layout, m: map<AreaBlock, set<int>>, p: int)
    requires Slotted(l, m) && p in LiveOf(l, m)
    ensures exists b: AreaBlock :: b in m && InBlock(l, b, p)
  {
    var b: AreaBlock, e: int :| b in m && e in m[b] && l.Slot(b.addr, e) == p;
    SlotInside(l, b.addr, e);
  }

  /** An element at p lies between the header and the end of a block. */
  predicate InBlock(l: Layout, b: AreaBlock, p: int) {
    b.addr + l.header <= p && p + l.elementSize <= b.addr + l.header + l.elementSize * l.allocCount
  }

  lemma RealProduct(a: nat, b: nat)
    ensures (a * b) as real == a as real * b as real
  {
  }

  /** Blocks with at least c entries in use each have that many live addresses together. */
  lemma {:induction false} LiveAtLeast(l: Layout, m: map<AreaBlock, set<int>>, c: real)
    requires Slotted(l, m) && forall b: AreaBlock :: b in m ==> |m[b]| as real >= c
    ensures AtLeast(|LiveOf(l, m)|, |m|, c)
    decreases |m|
  {
    hide LiveOf, Slotted, AtLeast;
    if |m| == 0 {
      NoneAtLeast(|LiveOf(l, m)|, c);
    } else {
      var b: AreaBlock :| b in m;
      var rest := m - {b};
      WithoutBlock(l, m, b);
      LiveAtLeast(l, rest, c);
      LiveOfBlock(l, m, b);
      OneMore(|LiveOf(l, rest)|, |m[b]|, |rest|, c);
    }
  }

  lemma WithoutBlock(l: Layout, m: map<AreaBlock, set<int>>, b: AreaBlock)
    requires Slotted(l, m) && b in m
    ensures Slotted(l, m - {b}) && |m| == |m - {b}| + 1
  {
    var rest := m - {b};
    assert m.Keys == rest.Keys + {b} && |m.Keys| == |m| && |rest.Keys| == |rest|;
  }

  /** a is n times c or more. */
  predicate AtLeast(a: nat, n: nat, c: real) {
    a as real >= n as real * c
  }

  lemma NoneAtLeast(a: nat, c: real)
    ensures AtLeast(a, 0, c)
  {
  }

  lemma OneMore(a: nat, b: nat, n: nat, c: real)
    requires AtLeast(a, n, c) && b as real >= c
    ensures AtLeast(a + b, n + 1, c)
  {
    assert (n + 1) as real * c == n as real * c + c;
  }

  /** The live addresses of one block come on top of those of the others. */
  lemma LiveOfBlock(l: Layout, m: map<AreaBlock, set<int>>, b: AreaBlock)
    requires Slotted(l, m) && b in m
    ensures |LiveOf(l, m)| == |LiveOf(l, m - {b})| + |m[b]|
  {
    var rest, own := m - {b}, SlotsOf(l, b, m[b]);
    SlotCount(l, b, m[b]);
    forall p ensures p in LiveOf(l, m) <==> p in LiveOf(l, rest) || p in own {
      if p in LiveOf(l, m) {
        var a: AreaBlock, d: int :| a in m && d in m[a] && l.Slot(a.addr, d) == p;
        assert a != b ==> a in rest && d in rest[a];
      }
      if p in LiveOf(l, rest) {
        var a: AreaBlock, d: int :| a in rest && d in rest[a] && l.Slot(a.addr, d) == p;
        assert d in m[a];
      }
    }
    assert LiveOf(l, m) == LiveOf(l, rest) + own;
    forall p | p in own ensures p !in LiveOf(l, rest) {
      var e :| e in m[b] && l.Slot(b.addr, e) == p;
      if p in LiveOf(l, rest) {
        var a: AreaBlock, d: int :| a in rest && d in rest[a] && l.Slot(a.addr, d) == p;
        assert a in m && d in m[a] && a != b;
        SlotsDisjoint(l, a.addr, d, b.addr, e);
      }
    }
  }

  ghost function SlotsOf(l: Layout, b: AreaBlock, entries: set<int>): set<int> {
    set e | e in entries :: l.Slot(b.addr, e)
  }

  lemma SomeEntry<T>(entries: set<T>) returns (e: T)
    requires |entries| > 0
    ensures e in entries
  {
    e :| e in entries;
  }

  lemma {:induction false} SlotCount(l: Layout, b: AreaBlock, entries: set<int>)
    requires l.Valid() && forall e :: e in entries ==> 0 <= e < l.allocCount
    ensures |SlotsOf(l, b, entries)| == |entries|
  {
    if |entries| == 0 {
      assert SlotsOf(l, b, entries) == {};
    } else {
      var e := SomeEntry(entries);
      var rest := entries - {e};
      SlotCount(l, b, rest);
      assert entries == rest + {e};
      assert SlotsOf(l, b, entries) == SlotsOf(l, b, rest) + {l.Slot(b.addr, e)};
      forall d | d in rest ensures l.Slot(b.addr, d) != l.Slot(b.addr, e) {
        SlotsDisjoint(l, b.addr, d, b.addr, e);
      }
    }
  }

  /** Two pointers in use are elements that do not overlap. */
  lemma LivePointersDisjoint(l: Layout, m: map<AreaBlock, set<int>>, p: int, q: int)
    requires Slotted(l, m) && p in LiveOf(l, m) && q in LiveOf(l, m) && p != q
    ensures p + l.elementSize <= q || q + l.elementSize <= p
  {
    var a: AreaBlock, d: int :| a in m && d in m[a] && l.Slot(a.addr, d) == p;
    var b: AreaBlock, e: int :| b in m && e in m[b] && l.Slot(b.addr, e) == q;
    SlotsDisjoint(l, a.addr, d, b.addr, e);
  }

  lemma Marked(l: Layout, m: map<AreaBlock, set<int>>, b: AreaBlock, e: int)
    requires Slotted(l, m) && b in m && 0 <= e < l.allocCount && e !in m[b]
    ensures l.Slot(b.addr, e) !in LiveOf(l, m)
    ensures LiveOf(l, m[b := m[b] + {e}]) == LiveOf(l, m) + {l.Slot(b.addr, e)}
    ensures |LiveOf(l, m[b := m[b] + {e}])| == |LiveOf(l, m)| + 1
  {
    SlotIsUnique(l, m, b, e);
    var m' := m[b := m[b] + {e}];
    forall p ensures p in LiveOf(l, m') <==> p in LiveOf(l, m) || p == l.Slot(b.addr, e) {
      if p in LiveOf(l, m) {
        var a: AreaBlock, d: int :| a in m && d in m[a] && l.Slot(a.addr, d) == p;
        assert d in m'[a];
      }
      if p == l.Slot(b.addr, e) {
        assert e in m'[b];
      }
    }
  }

  lemma TakenIsNew(l: Layout, m: map<AreaBlock, set<int>>, t: Taken, m': map<AreaBlock, set<int>>)
    requires Slotted(l, m') && TakenFrom(l, m, t, m')
    ensures var p := l.Slot(t.block.addr, t.entry);
            0 <= t.entry < l.allocCount && p !in LiveOf(l, m)
            && LiveOf(l, m') == LiveOf(l, m) + {p} && |LiveOf(l, m')| == |LiveOf(l, m)| + 1
  {
    hide LiveOf, Slotted;
    var before := m[t.block := EntriesOf(m, t.block)];
    if t.block in m {
      assert before == m;
    } else {
      NewBlock(l, m, t.block);
    }
    assert before.Keys == m'.Keys;
    SlottedBefore(l, before, m');
    Marked(l, before, t.block, t.entry);
    assert before[t.block := before[t.block] + {t.entry}] == m';
  }

  lemma SlottedBefore(l: Layout, m: map<AreaBlock, set<int>>, m': map<AreaBlock, set<int>>)
    requires Slotted(l, m') && m.Keys == m'.Keys && forall b: AreaBlock :: b in m ==> m[b] <= m'[b]
    ensures Slotted(l, m)
  {
  }

  /** One if the entry is free already, zero if it is in use. */
  ghost function Stray(m: map<AreaBlock, set<int>>, b: AreaBlock, e: int): nat {
    if e in EntriesOf(m, b) then 0 else 1
  }

  lemma Cleared(l: Layout, m: map<AreaBlock, set<int>>, b: AreaBlock, e: int)
    requires Slotted(l, m) && b in m && 0 <= e < l.allocCount
    ensures var m' := m[b := EntriesOf(m, b) - {e}];
            && LiveOf(l, m') == LiveOf(l, m) - {l.Slot(b.addr, e)}
            && |LiveOf(l, m')| + 1 == |LiveOf(l, m)| + Stray(m, b, e)
    ensures Stray(m, b, e) == if l.Slot(b.addr, e) in LiveOf(l, m) then 0 else 1
  {
    SlotIsUnique(l, m, b, e);
    var m' := m[b := m[b] - {e}];
    assert Slotted(l, m');
    SlotIsUnique(l, m', b, e);
    forall p ensures p in LiveOf(l, m') <==> p in LiveOf(l, m) && p != l.Slot(b.addr, e) {
      if p in LiveOf(l, m') {
        var a: AreaBlock, d: int :| a in m' && d in m'[a] && l.Slot(a.addr, d) == p;
        assert d in m[a];
      }
      if p in LiveOf(l, m) && p != l.Slot(b.addr, e) {
        var a: AreaBlock, d: int :| a in m && d in m[a] && l.Slot(a.addr, d) == p;
        assert d in m'[a];
      }
    }
  }

  lemma NewBlock(l: Layout, m: map<AreaBlock, set<int>>, b: AreaBlock)
    requires b !in m
    ensures LiveOf(l, m[b := {}]) == LiveOf(l, m)
  {
    var m' := m[b := {}];
    forall p ensures p in LiveOf(l, m') <==> p in LiveOf(l, m) {
      if p in LiveOf(l, m) {
        var a: AreaBlock, d: int :| a in m && d in m[a] && l.Slot(a.addr, d) == p;
        assert d in m'[a];
      }
    }
  }

  // ---------- Search ----------

  lemma NoneBelow(l: Layout, bs: seq<AreaBlock>, ptr: nat)
    requires bs != [] && Ascending(Addresses(bs)) && ptr < l.Data(bs[0].addr)
    ensures forall k :: 0 <= k < |bs| ==> !l.Contains(bs[k].addr, ptr)
  {
    forall k | 0 <= k < |bs| ensures !l.Contains(bs[k].addr, ptr) {
      if k > 0 { assert Addresses(bs)[0] < Addresses(bs)[k]; }
    }
  }

  lemma NoneAbove(l: Layout, bs: seq<AreaBlock>, ptr: nat)
    requires bs != [] && Ascending(Addresses(bs)) && l.Limit(bs[|bs| - 1].addr) <= ptr
    ensures forall k :: 0 <= k < |bs| ==> !l.Contains(bs[k].addr, ptr)
  {
    forall k | 0 <= k < |bs| ensures !l.Contains(bs[k].addr, ptr) {
      if k < |bs| - 1 { assert Addresses(bs)[k] < Addresses(bs)[|bs| - 1]; }
    }
  }

  lemma OnlyAt(l: Layout, sets: Blocksets, j: nat, bs: seq<AreaBlock>, ptr: nat, pos: nat)
    requires j < |sets| && sets[j] == Addresses(bs) && Separate(l, sets) && Ascending(sets[j])
    requires pos < |bs| && l.Data(bs[pos].addr) <= ptr && (pos + 1 < |bs| ==> ptr < l.Data(bs[pos + 1].addr))
    ensures forall k :: 0 <= k < |bs| && k != pos ==> !l.Contains(bs[k].addr, ptr)
  {
    var s := sets[j];
    forall a, b | 0 <= a < |s| && 0 <= b < |s| && a != b ensures l.Apart(s[a], s[b]) {
      assert l.Apart(sets[j][a], sets[j][b]);
    }
    forall k | 0 <= k < |bs| && k != pos ensures !l.Contains(bs[k].addr, ptr) {
      if l.Contains(s[k], ptr) { LastBelow(l, s, ptr, k, pos); }
    }
  }
}
