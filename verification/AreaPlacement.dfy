/**
 Where the blocks of an area lie: the address layout of src/base/area_alloc.c and the blocksets,
 each a run of block addresses in ascending order.
 */
module AreaPlacement {
  import opened Arithmetic

  const BLOCKSET_SIZE: nat := 256

  /** Sizes fixed when the area is created. The header is the size of the block structure. */
  datatype Layout = Layout(header: nat, elementSize: nat, allocCount: nat) {
    predicate Valid() {
      header > 0 && elementSize > 0 && allocCount > 0
    }

    function BlockSize(): nat {
      elementSize * allocCount
    }

    /** The first data byte of a block. */
    function Data(block: int): int {
      block + header
    }

    /** One past the last byte of a block. */
    function Limit(block: int): int {
      block + header + BlockSize()
    }

    predicate Contains(block: int, ptr: int) {
      Data(block) <= ptr < Limit(block)
    }

    predicate Apart(a: int, b: int) {
      Limit(a) <= b || Limit(b) <= a
    }

    /** The address of entry e of a block. */
    function Slot(block: int, e: int): int {
      Data(block) + elementSize * e
    }
  }

  ghost predicate Ascending(s: seq<nat>) {
    forall i, j :: 0 <= i < j < |s| ==> s[i] < s[j]
  }

  type Blocksets = seq<seq<nat>>

  ghost predicate Registered(sets: Blocksets, block: nat) {
    exists i, k :: 0 <= i < |sets| && 0 <= k < |sets[i]| && sets[i][k] == block
  }

  /** Blocksets are not empty, at most 256 long and ascending. */
  ghost predicate Shaped(sets: Blocksets) {
    forall i :: 0 <= i < |sets| ==> 1 <= |sets[i]| <= BLOCKSET_SIZE && Ascending(sets[i])
  }

  /** No two positions hold overlapping blocks. */
  ghost predicate Separate(l: Layout, sets: Blocksets) {
    forall i, k, j, m :: 0 <= i < |sets| && 0 <= k < |sets[i]| && 0 <= j < |sets| && 0 <= m < |sets[j]|
        && (i, k) != (j, m)
      ==> l.Apart(sets[i][k], sets[j][m])
  }

  /** What malloc promises of a new block. */
  ghost predicate Fresh(l: Layout, sets: Blocksets, block: nat) {
    forall i, k :: 0 <= i < |sets| && 0 <= k < |sets[i]| ==> l.Apart(sets[i][k], block)
  }

  predicate HasRoom(s: seq<nat>, block: nat) {
    0 < |s| != BLOCKSET_SIZE && s[|s| - 1] < block
  }

  /** The first blockset with room whose last block lies below, or a new one at the end. */
  function Inserted(sets: Blocksets, block: nat): Blocksets {
    if sets == [] then [[block]]
    else if HasRoom(sets[0], block) then [sets[0] + [block]] + sets[1..]
    else [sets[0]] + Inserted(sets[1..], block)
  }

  /** A blockset that takes no further block, or not this one. */
  predicate NoPlace(s: seq<nat>, block: nat) {
    s == [] || |s| == 256 || s[|s| - 1] >= block
  }

  /** Insertion changes the first blockset with a place, at its end, or adds one if none has. */
  lemma {:induction false} InsertedWhere(sets: Blocksets, block: nat) returns (at: nat)
    ensures at <= |sets|
    ensures forall i :: 0 <= i < at ==> NoPlace(sets[i], block)
    ensures at < |sets| ==> !NoPlace(sets[at], block) && Inserted(sets, block) == sets[at := sets[at] + [block]]
    ensures at == |sets| ==> Inserted(sets, block) == sets + [[block]]
    ensures at < |sets| ==> HasRoom(sets[at], block)
  {
    if sets == [] {
      at := 0;
    } else if HasRoom(sets[0], block) {
      at := 0;
    } else {
      var k := InsertedWhere(sets[1..], block);
      at := k + 1;
      assert sets == [sets[0]] + sets[1..];
    }
  }

  /** A block at the end of blockset `at`, or in a new blockset behind the last one. */
  function Grown(sets: Blocksets, block: nat, at: nat): Blocksets
    requires at <= |sets|
  {
    if at < |sets| then sets[at := sets[at] + [block]] else sets + [[block]]
  }

  /** Insertion leaves the first j blocksets alone. */
  ghost predicate Skips(sets: Blocksets, addr: nat, j: nat) {
    j <= |sets| && Inserted(sets, addr) == sets[..j] + Inserted(sets[j..], addr)
  }

  lemma SkipNone(sets: Blocksets, addr: nat)
    ensures Skips(sets, addr, 0)
  {
    assert sets[0..] == sets;
  }

  lemma SkipOne(sets: Blocksets, addr: nat, j: nat)
    requires Skips(sets, addr, j) && j < |sets| && !HasRoom(sets[j], addr)
    ensures Skips(sets, addr, j + 1)
  {
    assert sets[j..][0] == sets[j] && sets[j..][1..] == sets[j + 1..];
    assert sets[..j] + [sets[j]] == sets[..j + 1];
  }

  /** Where the skipping ends, the block goes. */
  lemma SkippedTo(sets: Blocksets, block: nat, j: nat)
    requires Skips(sets, block, j) && (j < |sets| ==> HasRoom(sets[j], block))
    ensures Inserted(sets, block) == Grown(sets, block, j)
  {
    if j < |sets| {
      var t := sets[j..];
      assert t[0] == sets[j] && sets == sets[..j] + t;
      assert Inserted(t, block) == [t[0] + [block]] + t[1..];
    } else {
      assert sets[j..] == [] && sets[..j] == sets;
    }
  }

  /** Insertion registers exactly the new block and keeps every blockset sorted, bounded and apart. */
  lemma InsertedKeeps(l: Layout, sets: Blocksets, block: nat)
    requires Shaped(sets) && Separate(l, sets) && Fresh(l, sets, block)
    ensures Shaped(Inserted(sets, block)) && Separate(l, Inserted(sets, block))
    ensures forall b :: Registered(Inserted(sets, block), b) <==> Registered(sets, b) || b == block
  {
    hide Inserted, Registered, Shaped, Separate, Fresh;
    var at := InsertedWhere(sets, block);
    GrownKeeps(l, sets, block, at);
  }

  lemma GrownKeeps(l: Layout, sets: Blocksets, block: nat, at: nat)
    requires Shaped(sets) && Separate(l, sets) && Fresh(l, sets, block)
    requires at <= |sets| && (at < |sets| ==> HasRoom(sets[at], block))
    ensures Shaped(Grown(sets, block, at)) && Separate(l, Grown(sets, block, at))
    ensures forall b :: Registered(Grown(sets, block, at), b) <==> Registered(sets, b) || b == block
  {
    hide Registered, Separate, Fresh;
    var t := Grown(sets, block, at);
    forall i | 0 <= i < |t| ensures 1 <= |t[i]| <= BLOCKSET_SIZE && Ascending(t[i]) {
      if i == at < |sets| {
        assert Ascending(sets[at]);
      }
    }
    InsertedPositions(l, sets, block, at);
    InsertedRegisters(sets, block, at, t);
  }

  lemma InsertedPositions(l: Layout, sets: Blocksets, block: nat, at: nat)
    requires Separate(l, sets) && Fresh(l, sets, block) && at <= |sets|
    requires at < |sets| ==> |sets[at]| >= 1
    ensures Separate(l, Grown(sets, block, at))
  {
  }

  lemma InsertedRegisters(sets: Blocksets, block: nat, at: nat, t: Blocksets)
    requires at <= |sets| && t == Grown(sets, block, at)
    ensures forall b :: Registered(t, b) <==> Registered(sets, b) || b == block
  {
    var k := if at < |sets| then |sets[at]| else 0;
    assert t[at][k] == block;
    forall b ensures Registered(t, b) <==> Registered(sets, b) || b == block {
      if Registered(sets, b) {
        var i, m :| 0 <= i < |sets| && 0 <= m < |sets[i]| && sets[i][m] == b;
        assert t[i][m] == b;
      }
      if Registered(t, b) && b != block {
        var i, m :| 0 <= i < |t| && 0 <= m < |t[i]| && t[i][m] == b;
        assert sets[i][m] == b;
      }
    }
  }

  // ---------- Search in one blockset ----------

  /** In an ascending blockset of separate blocks, the block that contains a pointer is the last one below it. */
  lemma LastBelow(l: Layout, s: seq<nat>, ptr: nat, k: nat, pos: nat)
    requires Ascending(s) && k < |s| && l.Contains(s[k], ptr)
    requires forall i, j :: 0 <= i < |s| && 0 <= j < |s| && i != j ==> l.Apart(s[i], s[j])
    requires pos < |s| && l.Data(s[pos]) <= ptr && (pos + 1 < |s| ==> ptr < l.Data(s[pos + 1]))
    ensures k == pos
  {
  }

  // ---------- Slots ----------

  /** Slots of separate blocks, or different slots of one block, do not overlap. */
  lemma SlotsDisjoint(l: Layout, a: int, d: int, b: int, e: int)
    requires l.Valid() && 0 <= d < l.allocCount && 0 <= e < l.allocCount
    requires (a == b && d != e) || l.Apart(a, b)
    ensures l.Slot(a, d) + l.elementSize <= l.Slot(b, e) || l.Slot(b, e) + l.elementSize <= l.Slot(a, d)
    ensures l.Slot(a, d) != l.Slot(b, e)
  {
    SlotInside(l, a, d);
    SlotInside(l, b, e);
    if a == b {
      if d < e {
        MulMonotone(l.elementSize, d + 1, e);
      } else {
        MulMonotone(l.elementSize, e + 1, d);
      }
    }
  }

  /** A slot lies wholly inside its block. */
  lemma SlotInside(l: Layout, b: int, e: int)
    requires l.Valid() && 0 <= e < l.allocCount
    ensures l.Data(b) <= l.Slot(b, e) && l.Slot(b, e) + l.elementSize <= l.Limit(b)
    ensures l.Contains(b, l.Slot(b, e))
  {
    MulMonotone(l.elementSize, 0, e);
    MulMonotone(l.elementSize, e + 1, l.allocCount);
  }

  /** The entry index that area_free computes is the one the slot was made from. */
  lemma SlotIndex(l: Layout, b: int, e: int)
    requires l.Valid() && 0 <= e < l.allocCount
    ensures (l.Slot(b, e) - l.Data(b)) % l.elementSize == 0
    ensures (l.Slot(b, e) - l.Data(b)) / l.elementSize == e
  {
    MulMonotone(l.elementSize, 0, e);
    ModUnique(l.elementSize * e, l.elementSize, e, 0);
  }
}
