/**
 The bitmap of src/base/lockfree_bitmap.cpp in the style LIST_OF_CHUNKS that areas use, run by one
 thread at a time: a list of 32-bit words, one bit an entry, with a count of the entries in use.
 */
module LockFreeBitmap {
  import opened Words

  const WORD_SIZE: nat := 32

  /** CEIL_PTVDIV by the word size. */
  function ChunkCount(entries: nat): nat {
    if entries == 0 then 0 else (entries - 1) / WORD_SIZE + 1
  }

  /** Words of the right size, whose bits beyond the last entry are set. */
  ghost predicate WellFormed(bitfield: seq<Word>, entries: nat) {
    && |bitfield| == ChunkCount(entries)
    && (forall w :: 0 <= w < |bitfield| ==> |bitfield[w]| == WORD_SIZE)
    && (forall w, b :: 0 <= w < |bitfield| && 0 <= b < WORD_SIZE && entries <= w * WORD_SIZE + b ==> bitfield[w][b])
  }

  ghost function UsedOf(bitfield: seq<Word>, entries: nat): (r: set<int>)
    requires WellFormed(bitfield, entries)
    ensures forall e :: e in r <==> 0 <= e < entries && bitfield[e / WORD_SIZE][e % WORD_SIZE]
  {
    set e: int | 0 <= e < entries && bitfield[e / WORD_SIZE][e % WORD_SIZE]
  }

  function WithBit(bitfield: seq<Word>, w: nat, b: nat, value: bool): (r: seq<Word>)
    requires w < |bitfield| && b < |bitfield[w]|
    ensures |r| == |bitfield|
  {
    bitfield[w := bitfield[w][b := value]]
  }

  lemma SetBit(bitfield: seq<Word>, entries: nat, w: nat, b: nat, value: bool)
    requires WellFormed(bitfield, entries) && w < |bitfield| && b < WORD_SIZE && w * WORD_SIZE + b < entries
    ensures WellFormed(WithBit(bitfield, w, b, value), entries)
    ensures UsedOf(WithBit(bitfield, w, b, value), entries)
         == if value then UsedOf(bitfield, entries) + {w * WORD_SIZE + b}
            else UsedOf(bitfield, entries) - {w * WORD_SIZE + b}
  {
  }

  lemma {:induction false} AllEntries(entries: nat, used: set<int>)
    requires forall e :: e in used <==> 0 <= e < entries
    ensures |used| == entries
  {
    if entries == 0 {
      assert forall e: int :: e !in used;
      assert used == {};
    } else {
      AllEntries(entries - 1, used - {entries - 1});
    }
  }

  /** A bit map whose words are all ones has every entry in use. */
  lemma AllOnes(bitfield: seq<Word>, entries: nat)
    requires WellFormed(bitfield, entries)
    requires forall w, b :: 0 <= w < |bitfield| && 0 <= b < WORD_SIZE ==> bitfield[w][b]
    ensures |UsedOf(bitfield, entries)| == entries
  {
    AllEntries(entries, UsedOf(bitfield, entries));
  }

  predicate HasZero(w: Word) {
    exists b :: 0 <= b < |w| && !w[b]
  }

  /** The words in the first `steps` places from `from` on, round the list, have no free entry. */
  ghost predicate Searched(bitfield: seq<Word>, from: nat, steps: nat) {
    forall w :: 0 <= w < |bitfield| && (from <= w < from + steps || w < from + steps - |bitfield|)
      ==> !HasZero(bitfield[w])
  }

  lemma SearchedOne(bitfield: seq<Word>, from: nat, steps: nat, i: nat)
    requires Searched(bitfield, from, steps) && from < |bitfield| && steps < |bitfield|
    requires i == (if from + steps < |bitfield| then from + steps else from + steps - |bitfield|)
    requires !HasZero(bitfield[i])
    ensures Searched(bitfield, from, steps + 1)
  {
  }

  lemma SearchedNone(bitfield: seq<Word>, from: nat)
    requires from < |bitfield|
    ensures Searched(bitfield, from, 0)
  {
  }

  lemma SearchedAll(bitfield: seq<Word>, from: nat)
    requires Searched(bitfield, from, |bitfield|)
    ensures forall w :: 0 <= w < |bitfield| ==> !HasZero(bitfield[w])
  {
  }

  lemma Below(ratio: real, n: real)
    requires ratio <= 1.0 && n >= 0.0
    ensures ratio * n <= n
  {
  }

  /** A clear bit stands for an entry. */
  lemma FreeIsEntry(bitfield: seq<Word>, entries: nat, w: nat, b: nat)
    requires WellFormed(bitfield, entries) && w < |bitfield| && b < WORD_SIZE
    ensures |bitfield[w]| == WORD_SIZE
    ensures !bitfield[w][b] ==> w * WORD_SIZE + b < entries && w * WORD_SIZE + b !in UsedOf(bitfield, entries)
  {
    assert (w * WORD_SIZE + b) / WORD_SIZE == w && (w * WORD_SIZE + b) % WORD_SIZE == b;
  }

  class Bitmap {
    const entryCount: nat
    const usageThreshold: real
    const serverMode: bool
    var bitfield: seq<Word>
    var inUse: nat
    var startIdx: nat

    ghost predicate Valid()
      reads this
    {
      && entryCount > 0 && 0.0 <= usageThreshold <= 1.0
      && WellFormed(bitfield, entryCount)
      && inUse == |Used()|
      && (!serverMode ==> startIdx < ChunkCount(entryCount))
    }

    ghost function Used(): set<int>
      reads this
      requires WellFormed(bitfield, entryCount)
    {
      UsedOf(bitfield, entryCount)
    }

    predicate IsFull()
      reads this
    {
      inUse as real >= usageThreshold * entryCount as real
    }

    constructor (entries: nat, usageRatio: real, serverMode: bool)
      requires entries > 0
      ensures Valid() && Used() == {} && entryCount == entries && this.serverMode == serverMode
      ensures usageThreshold == if 0.0 <= usageRatio <= 1.0 then usageRatio else 1.0
    {
      entryCount := entries;
      usageThreshold := if 0.0 <= usageRatio <= 1.0 then usageRatio else 1.0;
      this.serverMode := serverMode;
      inUse := 0;
      startIdx := 0;
      var field := seq(ChunkCount(entries), _ => Zero(WORD_SIZE));
      if entries % WORD_SIZE != 0 {
        // pad out the rest of the last word with ones
        var chunk := Zero(WORD_SIZE);
        for i := entries % WORD_SIZE to WORD_SIZE
          invariant |chunk| == WORD_SIZE
          invariant forall b :: 0 <= b < WORD_SIZE ==> (chunk[b] <==> entries % WORD_SIZE <= b < i)
        {
          chunk := chunk[i := true];
        }
        field := field[|field| - 1 := chunk];
      }
      bitfield := field;
      new;
      assert Used() == {};
    }

    /** The first word from `from` on, round the list, that has a free entry; -1 if none has. */
    method FindChunk(from: nat) returns (chunkIdx: int)
      requires Valid() && from < ChunkCount(entryCount)
      ensures -1 <= chunkIdx < |bitfield|
      ensures chunkIdx >= 0 ==> HasZero(bitfield[chunkIdx])
      ensures chunkIdx < 0 ==> forall w :: 0 <= w < |bitfield| ==> !HasZero(bitfield[w])
    {
      hide HasZero, Searched, UsedOf;
      var i := from;
      ghost var steps := 0;
      assert Searched(bitfield, from, 0) by { SearchedNone(bitfield, from); }
      while true
        invariant i < |bitfield| && 0 <= steps < |bitfield|
        invariant i == if from + steps < |bitfield| then from + steps else from + steps - |bitfield|
        invariant Searched(bitfield, from, steps)
        decreases |bitfield| - steps
      {
        if HasZero(bitfield[i]) {
          return i;
        }
        SearchedOne(bitfield, from, steps, i);
        i := i + 1;
        if i >= |bitfield| {
          i := 0;
        }
        steps := steps + 1;
        if i == from {
          SearchedAll(bitfield, from);
          return -1;
        }
      }
    }

    /** The lowest free entry of a word that has one. */
    method FindSlot(chunkIdx: nat) returns (slotIdx: nat)
      requires Valid() && chunkIdx < |bitfield| && HasZero(bitfield[chunkIdx])
      ensures slotIdx < WORD_SIZE && !bitfield[chunkIdx][slotIdx]
              && forall b :: 0 <= b < slotIdx ==> bitfield[chunkIdx][b]
    {
      hide UsedOf;
      slotIdx := 0;
      while bitfield[chunkIdx][slotIdx]
        invariant slotIdx < WORD_SIZE
        invariant forall b :: 0 <= b < slotIdx ==> bitfield[chunkIdx][b]
        decreases WORD_SIZE - slotIdx
      {
        slotIdx := slotIdx + 1;
      }
    }

    /** Marks a free entry, unless the bitmap counts as full. */
    method GetEntry() returns (entry: int)
      requires Valid()
      modifies this
      ensures Valid()
      ensures entry == -1 <==> old(IsFull())
      ensures entry == -1 ==> Used() == old(Used()) && inUse == old(inUse)
      ensures entry != -1 ==> 0 <= entry < entryCount && entry !in old(Used()) && Used() == old(Used()) + {entry}
    {
      hide UsedOf, HasZero, WellFormed;
      if IsFull() {
        return -1;
      }
      var from := startIdx;
      if serverMode {
        startIdx := startIdx + 1;
        from := from % ChunkCount(entryCount);
      }
      var chunkIdx := FindChunk(from);
      if chunkIdx == -1 {
        NotAllOnes();
        assert false;
      }
      var slotIdx := FindSlot(chunkIdx);
      FreeIsEntry(bitfield, entryCount, chunkIdx, slotIdx);
      SetBit(bitfield, entryCount, chunkIdx, slotIdx, true);
      bitfield := WithBit(bitfield, chunkIdx, slotIdx, true);
      inUse := inUse + 1;
      if !serverMode {
        startIdx := chunkIdx;
      }
      entry := chunkIdx * WORD_SIZE + slotIdx;
    }

    /** A bitmap that does not count as full has a word with a free entry. */
    lemma NotAllOnes()
      requires Valid() && !IsFull()
      ensures exists w :: 0 <= w < |bitfield| && HasZero(bitfield[w])
    {
      hide UsedOf;
      if forall w :: 0 <= w < |bitfield| ==> !HasZero(bitfield[w]) {
        forall w, b | 0 <= w < |bitfield| && 0 <= b < WORD_SIZE ensures bitfield[w][b] {
          assert !HasZero(bitfield[w]);
        }
        AllOnes(bitfield, entryCount);
        Below(usageThreshold, entryCount as real);
      }
    }

    /** Clears an entry; an entry that is free already stays as it is. */
    method FreeEntry(entry: nat)
      requires Valid() && entry < entryCount
      modifies this
      ensures Valid() && Used() == old(Used()) - {entry}
    {
      var pos := entry / WORD_SIZE;
      var bit := entry % WORD_SIZE;
      if !bitfield[pos][bit] {
        return;
      }
      SetBit(bitfield, entryCount, pos, bit, false);
      bitfield := WithBit(bitfield, pos, bit, false);
      inUse := inUse - 1;
      if !serverMode {
        startIdx := pos;
      }
    }
  }
}
