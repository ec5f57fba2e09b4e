/**
 The binary max-heap of src/base/binaryheap.c: in-place sifts over a fixed array, a state flag,
 lazy building, bounded insertion and in-place sorting.
 */
module BinaryHeap {

  datatype Comparison = Lt | Eq | Gt

  type Comparator<!T> = (T, T) -> Comparison

  ghost predicate TotalPreorder<T(!new)>(cmp: Comparator<T>) {
    && (forall a, b :: cmp(a, b) == Lt <==> cmp(b, a) == Gt)
    && (forall a, b, c :: cmp(a, b) != Gt && cmp(b, c) != Gt ==> cmp(a, c) != Gt)
  }

  function Leq<T>(cmp: Comparator<T>, a: T, b: T): bool {
    cmp(a, b) != Gt
  }

  function Parent(i: nat): nat
    requires i > 0
  {
    (i - 1) / 2
  }

  function Left(i: nat): nat { 2 * i + 1 }

  function Right(i: nat): nat { 2 * i + 2 }

  /** Every element whose parent is at `from` or later is at most its parent. */
  ghost predicate HeapFrom<T>(cmp: Comparator<T>, s: seq<T>, from: nat) {
    forall k {:trigger Parent(k)} :: 0 < k < |s| && from <= Parent(k) ==> Leq(cmp, s[k], s[Parent(k)])
  }

  ghost predicate IsHeap<T>(cmp: Comparator<T>, s: seq<T>) {
    HeapFrom(cmp, s, 0)
  }

  ghost predicate Sorted<T>(cmp: Comparator<T>, s: seq<T>) {
    forall i, j :: 0 <= i < j < |s| ==> Leq(cmp, s[i], s[j])
  }

  lemma {:induction false} RootIsMax<T(!new)>(cmp: Comparator<T>, s: seq<T>, i: nat)
    requires TotalPreorder(cmp) && IsHeap(cmp, s) && i < |s|
    ensures Leq(cmp, s[i], s[0])
  {
    if i > 0 {
      RootIsMax(cmp, s, Parent(i));
    }
  }

  // ---------- Sifts on sequences ----------

  function Swapped<T>(s: seq<T>, i: nat, j: nat): (r: seq<T>)
    requires i < |s| && j < |s|
    ensures |r| == |s|
  {
    s[i := s[j]][j := s[i]]
  }

  lemma SwapKeeps<T>(s: seq<T>, i: nat, j: nat)
    requires i < |s| && j < |s|
    ensures multiset(Swapped(s, i, j)) == multiset(s)
  {
  }

  /** The index that bh_down_heap settles on among a node and its children. */
  function Largest<T>(cmp: Comparator<T>, s: seq<T>, i: nat): (k: nat)
    requires i < |s|
    ensures k < |s| && (k == i || k == Left(i) || k == Right(i))
  {
    var l := if Left(i) < |s| && cmp(s[Left(i)], s[i]) == Gt then Left(i) else i;
    if Right(i) < |s| && cmp(s[Right(i)], s[l]) == Gt then Right(i) else l
  }

  function SiftDown<T>(cmp: Comparator<T>, s: seq<T>, i: nat): (r: seq<T>)
    requires i < |s|
    ensures |r| == |s|
    decreases |s| - i
  {
    var k := Largest(cmp, s, i);
    if k == i then s else SiftDown(cmp, Swapped(s, i, k), k)
  }

  function SiftUp<T>(cmp: Comparator<T>, s: seq<T>, i: nat): (r: seq<T>)
    requires i < |s|
    ensures |r| == |s|
    decreases i
  {
    if i == 0 || cmp(s[Parent(i)], s[i]) != Lt then s
    else SiftUp(cmp, Swapped(s, i, Parent(i)), Parent(i))
  }

  lemma {:induction false} SiftDownKeeps<T>(cmp: Comparator<T>, s: seq<T>, i: nat)
    requires i < |s|
    ensures multiset(SiftDown(cmp, s, i)) == multiset(s)
    decreases |s| - i
  {
    var k := Largest(cmp, s, i);
    if k != i {
      SwapKeeps(s, i, k);
      SiftDownKeeps(cmp, Swapped(s, i, k), k);
    }
  }

  lemma {:induction false} SiftUpKeeps<T>(cmp: Comparator<T>, s: seq<T>, i: nat)
    requires i < |s|
    ensures multiset(SiftUp(cmp, s, i)) == multiset(s)
    decreases i
  {
    if i != 0 && cmp(s[Parent(i)], s[i]) == Lt {
      SwapKeeps(s, i, Parent(i));
      SiftUpKeeps(cmp, Swapped(s, i, Parent(i)), Parent(i));
    }
  }

  /** The heap order from `from` on holds except below i, and i's children are at most i's parent. */
  ghost predicate HeapExceptBelow<T>(cmp: Comparator<T>, s: seq<T>, from: nat, i: nat) {
    && i < |s|
    && (forall k {:trigger Parent(k)} :: 0 < k < |s| && from <= Parent(k) && Parent(k) != i
              ==> Leq(cmp, s[k], s[Parent(k)]))
    && (i > 0 && from <= Parent(i) ==>
          forall k {:trigger Parent(k)} :: 0 < k < |s| && Parent(k) == i ==> Leq(cmp, s[k], s[Parent(i)]))
  }

  lemma LargestIsMax<T(!new)>(cmp: Comparator<T>, s: seq<T>, i: nat)
    requires TotalPreorder(cmp) && i < |s|
    ensures var k := Largest(cmp, s, i);
            Leq(cmp, s[i], s[k])
            && (forall c {:trigger Parent(c)} :: 0 < c < |s| && Parent(c) == i ==> Leq(cmp, s[c], s[k]))
  {
    forall c | 0 < c < |s| && Parent(c) == i ensures c == Left(i) || c == Right(i) {}
  }

  lemma {:induction false} SiftDownRestores<T(!new)>(cmp: Comparator<T>, s: seq<T>, from: nat, i: nat)
    requires TotalPreorder(cmp)
    requires from <= i && HeapExceptBelow(cmp, s, from, i)
    ensures HeapFrom(cmp, SiftDown(cmp, s, i), from)
    decreases |s| - i
  {
    var k := Largest(cmp, s, i);
    LargestIsMax(cmp, s, i);
    if k != i {
      assert Parent(k) == i;
      SwapDown(cmp, s, from, i, k);
      SiftDownRestores(cmp, Swapped(s, i, k), from, k);
    }
  }

  lemma SwapDown<T(!new)>(cmp: Comparator<T>, s: seq<T>, from: nat, i: nat, k: nat)
    requires TotalPreorder(cmp)
    requires from <= i && HeapExceptBelow(cmp, s, from, i)
    requires 0 < k < |s| && Parent(k) == i
    requires Leq(cmp, s[i], s[k])
    requires forall c {:trigger Parent(c)} :: 0 < c < |s| && Parent(c) == i ==> Leq(cmp, s[c], s[k])
    ensures HeapExceptBelow(cmp, Swapped(s, i, k), from, k)
  {
  }

  /** The heap order holds except between i and its parent, and i's children are at most i's parent. */
  ghost predicate HeapExceptAbove<T>(cmp: Comparator<T>, s: seq<T>, i: nat) {
    && i < |s|
    && (forall k {:trigger Parent(k)} :: 0 < k < |s| && k != i ==> Leq(cmp, s[k], s[Parent(k)]))
    && (i > 0 ==> forall k {:trigger Parent(k)} :: 0 < k < |s| && Parent(k) == i ==> Leq(cmp, s[k], s[Parent(i)]))
  }

  lemma {:induction false} SiftUpRestores<T(!new)>(cmp: Comparator<T>, s: seq<T>, i: nat)
    requires TotalPreorder(cmp) && HeapExceptAbove(cmp, s, i)
    ensures IsHeap(cmp, SiftUp(cmp, s, i))
    decreases i
  {
    if i != 0 && cmp(s[Parent(i)], s[i]) == Lt {
      SwapUp(cmp, s, i);
      SiftUpRestores(cmp, Swapped(s, i, Parent(i)), Parent(i));
    }
  }

  lemma SwapUp<T(!new)>(cmp: Comparator<T>, s: seq<T>, i: nat)
    requires TotalPreorder(cmp) && HeapExceptAbove(cmp, s, i)
    requires i != 0 && cmp(s[Parent(i)], s[i]) == Lt
    ensures HeapExceptAbove(cmp, Swapped(s, i, Parent(i)), Parent(i))
  {
  }

  lemma ReplacedRoot<T(!new)>(cmp: Comparator<T>, s: seq<T>, e: T)
    requires TotalPreorder(cmp) && IsHeap(cmp, s) && s != []
    ensures IsHeap(cmp, SiftDown(cmp, s[0 := e], 0))
    ensures multiset(SiftDown(cmp, s[0 := e], 0)) == multiset(s) - multiset{s[0]} + multiset{e}
  {
    SiftDownRestores(cmp, s[0 := e], 0, 0);
    SiftDownKeeps(cmp, s[0 := e], 0);
  }

  lemma HeapPrefix<T>(cmp: Comparator<T>, s: seq<T>, n: nat)
    requires IsHeap(cmp, s) && n <= |s|
    ensures IsHeap(cmp, s[..n])
  {
    forall k {:trigger Parent(k)} | 0 < k < n ensures Leq(cmp, s[..n][k], s[..n][Parent(k)]) {
      assert Leq(cmp, s[k], s[Parent(k)]);
    }
  }

  lemma RootIsMaximum<T(!new)>(cmp: Comparator<T>, s: seq<T>)
    requires TotalPreorder(cmp) && IsHeap(cmp, s) && s != []
    ensures IsMax(cmp, multiset(s), s[0])
  {
    forall y | y in multiset(s) ensures Leq(cmp, y, s[0]) {
      var i :| 0 <= i < |s| && s[i] == y;
      RootIsMax(cmp, s, i);
    }
  }

  /** What is left of a heap once its root is taken out. */
  function WithoutRoot<T>(cmp: Comparator<T>, s: seq<T>): seq<T>
    requires s != []
  {
    var n := |s| - 1;
    if n == 0 then [] else SiftDown(cmp, s[..n][0 := s[n]], 0)
  }

  lemma WithoutRootKeeps<T(!new)>(cmp: Comparator<T>, s: seq<T>)
    requires TotalPreorder(cmp) && s != []
    ensures multiset(WithoutRoot(cmp, s)) + multiset{s[0]} == multiset(s)
    ensures IsHeap(cmp, s) ==> IsHeap(cmp, WithoutRoot(cmp, s))
  {
    var n := |s| - 1;
    assert s == s[..n] + [s[n]];
    if n > 0 {
      var t := s[..n];
      SiftDownKeeps(cmp, t[0 := s[n]], 0);
      if IsHeap(cmp, s) {
        HeapPrefix(cmp, s, n);
        ReplacedRoot(cmp, t, s[n]);
      }
    }
  }

  // ---------- Bounded insertion: the k smallest ----------

  datatype InsertResult = Rejected | Accepted | Replaced

  /** One call of bh_try_insert: what was offered, the answer, and the element given up for it. */
  datatype Offer<T> = Offer(elem: T, result: InsertResult, replaced: T)

  ghost predicate IsMax<T>(cmp: Comparator<T>, m: multiset<T>, x: T) {
    x in m && forall y :: y in m ==> Leq(cmp, y, x)
  }

  /** What one call does to the elements kept, when the heap order holds. */
  ghost predicate Offered<T(!new)>(cmp: Comparator<T>, capacity: nat, before: multiset<T>,
                                  o: Offer<T>, after: multiset<T>) {
    match o.result
    case Accepted => |before| < capacity && after == before + multiset{o.elem}
    case Replaced =>
      && |before| == capacity && IsMax(cmp, before, o.replaced) && cmp(o.replaced, o.elem) == Gt
      && after == before - multiset{o.replaced} + multiset{o.elem}
    case Rejected =>
      && |before| == capacity && after == before
      && exists root :: IsMax(cmp, before, root) && cmp(root, o.elem) != Gt
  }

  /** A run of calls from the empty heap, with the elements kept before and after each. */
  ghost predicate OfferRun<T(!new)>(cmp: Comparator<T>, capacity: nat, offers: seq<Offer<T>>, kept: seq<multiset<T>>) {
    && |kept| == |offers| + 1 && kept[0] == multiset{}
    && forall i {:trigger offers[i]} :: 0 <= i < |offers| ==> Offered(cmp, capacity, kept[i], offers[i], kept[i + 1])
  }

  ghost function Inputs<T>(offers: seq<Offer<T>>): multiset<T> {
    if offers == [] then multiset{}
    else Inputs(offers[..|offers| - 1]) + multiset{offers[|offers| - 1].elem}
  }

  /** The element that a call rejects or replaces. */
  ghost function Lost<T>(o: Offer<T>): multiset<T> {
    match o.result
    case Accepted => multiset{}
    case Rejected => multiset{o.elem}
    case Replaced => multiset{o.replaced}
  }

  ghost function GivenUp<T>(offers: seq<Offer<T>>): multiset<T> {
    if offers == [] then multiset{}
    else GivenUp(offers[..|offers| - 1]) + Lost(offers[|offers| - 1])
  }

  /**
   After any run of bounded insertions from the empty heap, what is kept and what was given up make
   up the inputs, at most `capacity` are kept and nothing is given up before, and no kept element
   exceeds one given up: the kept ones are the smallest.
   */
  lemma {:induction false} KeepsTheSmallest<T(!new)>(cmp: Comparator<T>, capacity: nat, offers: seq<Offer<T>>,
                                                     kept: seq<multiset<T>>, n: nat)
    requires TotalPreorder(cmp) && OfferRun(cmp, capacity, offers, kept) && n <= |offers|
    ensures kept[n] + GivenUp(offers[..n]) == Inputs(offers[..n])
    ensures |kept[n]| == if n < capacity then n else capacity
    ensures n <= capacity ==> GivenUp(offers[..n]) == multiset{}
    ensures forall x, d :: x in kept[n] && d in GivenUp(offers[..n]) ==> Leq(cmp, x, d)
  {
    hide TotalPreorder, Offered, Lost, GivenUp, Inputs;
    if n == 0 {
      NothingOffered(offers);
    } else {
      KeepsTheSmallest(cmp, capacity, offers, kept, n - 1);
      var o, before, g := offers[n - 1], kept[n - 1], GivenUp(offers[..n - 1]);
      assert Offered(cmp, capacity, before, o, kept[n]);
      LastOffer(offers, n);
      OfferAccounts(cmp, capacity, before, o, kept[n]);
      Regroup(kept[n], Lost(o), before, multiset{o.elem}, g);
      OfferKeepsOrder(cmp, capacity, before, o, kept[n], g);
    }
  }

  lemma Regroup<T>(a: multiset<T>, l: multiset<T>, b: multiset<T>, e: multiset<T>, g: multiset<T>)
    requires a + l == b + e
    ensures a + (g + l) == (b + g) + e
  {
    assert a + (g + l) == (a + l) + g;
  }

  lemma NothingOffered<T>(offers: seq<Offer<T>>)
    ensures GivenUp(offers[..0]) == Inputs(offers[..0]) == multiset{}
  {
  }

  lemma LastOffer<T>(offers: seq<Offer<T>>, n: nat)
    requires 0 < n <= |offers|
    ensures GivenUp(offers[..n]) == GivenUp(offers[..n - 1]) + Lost(offers[n - 1])
    ensures Inputs(offers[..n]) == Inputs(offers[..n - 1]) + multiset{offers[n - 1].elem}
  {
    assert offers[..n][..n - 1] == offers[..n - 1];
  }

  lemma OfferAccounts<T(!new)>(cmp: Comparator<T>, capacity: nat, before: multiset<T>, o: Offer<T>, kept: multiset<T>)
    requires Offered(cmp, capacity, before, o, kept)
    ensures kept + Lost(o) == before + multiset{o.elem}
    ensures |before| < capacity <==> Lost(o) == multiset{}
    ensures |kept| == if |before| < capacity then |before| + 1 else capacity
  {
  }

  lemma OfferKeepsOrder<T(!new)>(cmp: Comparator<T>, capacity: nat, before: multiset<T>, o: Offer<T>, kept: multiset<T>,
                                 givenUp: multiset<T>)
    requires TotalPreorder(cmp) && Offered(cmp, capacity, before, o, kept)
    requires forall x, d :: x in before && d in givenUp ==> Leq(cmp, x, d)
    requires |before| < capacity ==> givenUp == multiset{}
    ensures forall x, d :: x in kept && d in givenUp + Lost(o) ==> Leq(cmp, x, d)
  {
    match o.result
    case Accepted =>
    case Rejected =>
      var root :| IsMax(cmp, before, root) && cmp(root, o.elem) != Gt;
      forall x | x in kept ensures Leq(cmp, x, o.elem) {
        assert Leq(cmp, x, root);
      }
    case Replaced =>
      assert cmp(o.elem, o.replaced) == Lt;
      forall x, d | x in kept && d in givenUp + Lost(o) ensures Leq(cmp, x, d) {
        assert x in before || x == o.elem;
        assert d in givenUp || d == o.replaced;
        assert Leq(cmp, o.replaced, d);
      }
  }

  // ---------- Heapsort ----------

  /** A heap in front, then a sorted part whose elements are no smaller than any in the heap. */
  ghost predicate Partitioned<T>(cmp: Comparator<T>, s: seq<T>, n: nat) {
    && n <= |s| && IsHeap(cmp, s[..n]) && Sorted(cmp, s[n..])
    && forall i, j :: 0 <= i < n <= j < |s| ==> Leq(cmp, s[i], s[j])
  }

  /** Moving the root behind the heap keeps the elements, and the partition. */
  lemma SortStep<T(!new)>(cmp: Comparator<T>, s: seq<T>, n: nat, t: seq<T>)
    requires TotalPreorder(cmp) && 1 < n <= |s| == |t|
    requires t[..n - 1] == WithoutRoot(cmp, s[..n]) && t[n - 1..] == [s[0]] + s[n..]
    ensures multiset(t) == multiset(s)
    ensures Partitioned(cmp, s, n) ==> Partitioned(cmp, t, n - 1)
  {
    WithoutRootKeeps(cmp, s[..n]);
    assert s == s[..n] + s[n..];
    assert t == t[..n - 1] + t[n - 1..];
    if Partitioned(cmp, s, n) {
      RootIsMaximum(cmp, s[..n]);
      SortStepOrder(cmp, s, n, t);
    }
  }

  lemma SortStepOrder<T(!new)>(cmp: Comparator<T>, s: seq<T>, n: nat, t: seq<T>)
    requires TotalPreorder(cmp) && 1 < n <= |s| == |t| && Partitioned(cmp, s, n)
    requires IsMax(cmp, multiset(s[..n]), s[0]) && IsHeap(cmp, t[..n - 1])
    requires multiset(t[..n - 1]) + multiset{s[0]} == multiset(s[..n]) && t[n - 1..] == [s[0]] + s[n..]
    ensures Partitioned(cmp, t, n - 1)
  {
    forall j | n <= j < |t| ensures t[j] == s[j] {
      assert t[n - 1..][j - n + 1] == s[n..][j - n];
    }
    assert t[n - 1] == t[n - 1..][0] == s[0];
    forall i | 0 <= i < n - 1 ensures exists k :: 0 <= k < n && s[k] == t[i] {
      assert t[..n - 1][i] in multiset(t[..n - 1]);
      assert t[i] in multiset(s[..n]);
      var k :| 0 <= k < n && s[..n][k] == t[i];
    }
    forall i, j | 0 <= i < n - 1 <= j < |t| ensures Leq(cmp, t[i], t[j]) {
      var k :| 0 <= k < n && s[k] == t[i];
      assert s[..n][k] in multiset(s[..n]);
    }
    var u := t[n - 1..];
    forall i, j | 0 <= i < j < |u| ensures Leq(cmp, u[i], u[j]) {
      assert u[j] == s[n..][j - 1];
      if i > 0 { assert u[i] == s[n..][i - 1]; }
    }
  }

  lemma HeapIsPartitioned<T>(cmp: Comparator<T>, s: seq<T>)
    requires IsHeap(cmp, s)
    ensures Partitioned(cmp, s, |s|)
  {
    assert s[..|s|] == s;
  }

  /** The first n cells before and after a round of the sort. */
  lemma Slices<T>(a: seq<T>, b: seq<T>, m: nat, n: nat)
    requires 0 < m <= n <= |a| == |b| && b[m - 1..] == [a[0]] + a[m..]
    ensures a[..n][..m] == a[..m] && b[..n][..m - 1] == b[..m - 1] && b[..n][m - 1..] == [a[..n][0]] + a[..n][m..]
  {
    assert b[..n][m - 1..] == b[m - 1..][..n - m + 1];
  }

  /** Swapping the root to the end and sifting down takes the root out. */
  lemma SwapOut<T>(cmp: Comparator<T>, s: seq<T>)
    requires |s| > 1
    ensures SiftDown(cmp, Swapped(s, 0, |s| - 1)[..|s| - 1], 0) == WithoutRoot(cmp, s)
  {
    assert Swapped(s, 0, |s| - 1)[..|s| - 1] == s[..|s| - 1][0 := s[|s| - 1]];
  }

  lemma PartitionedIsSorted<T>(cmp: Comparator<T>, s: seq<T>, n: nat)
    requires Partitioned(cmp, s, n) && n <= 1
    ensures Sorted(cmp, s)
  {
    forall i, j | 0 <= i < j < |s| ensures Leq(cmp, s[i], s[j]) {
      if i >= n {
        assert s[n..][i - n] == s[i] && s[n..][j - n] == s[j];
      }
    }
  }

  // ---------- The heap object ----------

  datatype HeapState = Inconsistent | Consistent | SortedArray

  datatype Outcome = NoError | OutOfRange

  class Heap<T(!new, 0)> {
    const cmp: Comparator<T>
    const members: array<T>
    var count: nat
    var state: HeapState

    ghost predicate Valid()
      reads this, members
    {
      && TotalPreorder(cmp) && members.Length > 0 && count <= members.Length
      && (state == Consistent ==> IsHeap(cmp, Elements()))
    }

    ghost function Elements(): seq<T>
      reads this, members
      requires count <= members.Length
    {
      members[..count]
    }

    constructor (maxCapacity: nat, cmp: Comparator<T>)
      requires TotalPreorder(cmp) && maxCapacity > 0
      ensures Valid() && fresh(members) && members.Length == maxCapacity && this.cmp == cmp
      ensures Elements() == [] && state == Consistent
    {
      this.cmp := cmp;
      members := new T[maxCapacity];
      count := 0;
      state := Consistent;
    }

    method Swap(i: nat, j: nat)
      requires i < count <= members.Length && j < count
      modifies members
      ensures Elements() == Swapped(old(Elements()), i, j)
      ensures members[count..] == old(members[count..])
    {
      members[i], members[j] := members[j], members[i];
    }

    method UpHeap(index: nat)
      requires index < count <= members.Length
      modifies members
      ensures Elements() == SiftUp(cmp, old(Elements()), index)
      ensures members[count..] == old(members[count..])
      decreases index
    {
      if index == 0 {
        return;
      }
      if cmp(members[Parent(index)], members[index]) == Lt {
        Swap(index, Parent(index));
        UpHeap(Parent(index));
      }
    }

    method DownHeap(index: nat)
      requires index < count <= members.Length
      modifies members
      ensures Elements() == SiftDown(cmp, old(Elements()), index)
      ensures members[count..] == old(members[count..])
      decreases count - index
    {
      var left := Left(index);
      var right := Right(index);
      var largest := index;
      if left <= count - 1 && cmp(members[left], members[largest]) == Gt {
        largest := left;
      }
      if right <= count - 1 && cmp(members[right], members[largest]) == Gt {
        largest := right;
      }
      assert largest == Largest(cmp, Elements(), index);
      if largest != index {
        Swap(index, largest);
        DownHeap(largest);
      }
    }

    /** The state becomes inconsistent even when the heap is full. */
    method Add(elem: T) returns (r: Outcome)
      requires Valid()
      modifies this, members
      ensures Valid() && state == Inconsistent
      ensures r == OutOfRange <==> old(count) == members.Length
      ensures Elements() == if r == NoError then old(Elements()) + [elem] else old(Elements())
    {
      state := Inconsistent;
      if count >= members.Length {
        return OutOfRange;
      }
      members[count] := elem;
      count := count + 1;
      r := NoError;
    }

    method Insert(elem: T) returns (r: Outcome)
      requires Valid() && (count != 0 ==> state == Consistent)
      modifies this, members
      ensures Valid() && state == Consistent
      ensures r == OutOfRange <==> old(count) == members.Length
      ensures r == OutOfRange ==> Elements() == old(Elements())
      ensures r == NoError ==> multiset(Elements()) == old(multiset(Elements())) + multiset{elem}
    {
      if count == 0 {
        state := Consistent;
      }
      if count >= members.Length {
        return OutOfRange;
      }
      ghost var s := Elements();
      members[count] := elem;
      count := count + 1;
      assert Elements() == s + [elem];
      SiftUpRestores(cmp, s + [elem], count - 1);
      SiftUpKeeps(cmp, s + [elem], count - 1);
      UpHeap(count - 1);
      r := NoError;
    }

    method ReplaceMax(elem: T)
      requires Valid() && count > 0
      modifies members
      ensures Valid()
      ensures Elements() == SiftDown(cmp, old(Elements())[0 := elem], 0)
      ensures multiset(Elements()) == old(multiset(Elements())) - multiset{old(Elements())[0]} + multiset{elem}
    {
      ghost var s := Elements();
      members[0] := elem;
      assert Elements() == s[0 := elem];
      SiftDownKeeps(cmp, s[0 := elem], 0);
      if state == Consistent {
        ReplacedRoot(cmp, s, elem);
      }
      DownHeap(0);
    }

    method TryInsert(elem: T) returns (o: Offer<T>)
      requires Valid() && (count < members.Length && count != 0 ==> state == Consistent)
      modifies this, members
      ensures Valid() && o.elem == elem
      ensures old(state) == Consistent ==> state == Consistent
      ensures o.result == Accepted <==> old(count) < members.Length
      ensures old(state) == Consistent ==>
                Offered(cmp, members.Length, old(multiset(Elements())), o, multiset(Elements()))
    {
      o := Offer(elem, Rejected, elem);
      ghost var s := Elements();
      if count < members.Length {
        var r := Insert(elem);
        return o.(result := Accepted);
      }
      if state == Consistent {
        RootIsMaximum(cmp, s);
      }
      if cmp(members[0], elem) == Gt {
        o := Offer(elem, Replaced, members[0]);
        ReplaceMax(elem);
      }
    }

    method BuildHeap()
      requires Valid()
      modifies this, members
      ensures Valid() && state == Consistent
      ensures multiset(Elements()) == old(multiset(Elements()))
      ensures old(state) == Consistent ==> Elements() == old(Elements())
    {
      if state == Consistent {
        return;
      }
      // Division in C truncates, so one element gives index 0 and none gives -1.
      var i: int := if count == 0 then -1 else if count == 1 then 0 else (count - 2) / 2;
      while i >= 0
        invariant -1 <= i && 2 * i + 1 <= count && (i >= 0 ==> i < count) && count == old(count)
        invariant HeapFrom(cmp, Elements(), i + 1)
        invariant multiset(Elements()) == old(multiset(Elements()))
        invariant state == old(state)
      {
        SiftDownRestores(cmp, Elements(), i, i);
        SiftDownKeeps(cmp, Elements(), i);
        DownHeap(i);
        i := i - 1;
      }
      state := Consistent;
    }

    method ExtractMax() returns (ok: bool, elem: T)
      requires Valid()
      modifies this, members
      ensures Valid() && state == old(state)
      ensures ok <==> old(count) > 0
      ensures ok ==> count == old(count) - 1 && elem == old(members[0])
      ensures ok ==> multiset(Elements()) + multiset{elem} == old(multiset(Elements()))
      ensures ok && state == Consistent ==> IsMax(cmp, old(multiset(Elements())), elem)
      ensures !ok ==> Elements() == old(Elements())
    {
      hide WithoutRoot, TotalPreorder, IsHeap, IsMax;
      ghost var s := Elements();
      elem := members[0];
      if count <= 0 {
        return false, elem;
      }
      WithoutRootKeeps(cmp, s);
      if state == Consistent {
        RootIsMaximum(cmp, s);
      }
      RemoveRoot();
      ok := true;
    }

    /** The last element takes the place of the root and sinks. */
    method RemoveRoot()
      requires 0 < count <= members.Length
      modifies this`count, members
      ensures count == old(count) - 1 && Elements() == WithoutRoot(cmp, old(Elements()))
    {
      hide SiftDown;
      ghost var s := Elements();
      count := count - 1;
      if count > 0 {
        members[0] := members[count];
        assert Elements() == s[..count][0 := s[count]];
        DownHeap(0);
      }
    }

    method PeekMax() returns (ok: bool, elem: T)
      requires Valid()
      ensures ok <==> count > 0
      ensures ok ==> elem == members[0]
      ensures ok && state == Consistent ==> IsMax(cmp, multiset(Elements()), elem)
    {
      elem := members[0];
      ok := count != 0;
      if ok && state == Consistent {
        RootIsMaximum(cmp, Elements());
      }
    }

    /** One round of the sort: the root goes behind the heap. */
    method MoveRootBack()
      requires 1 < count <= members.Length
      modifies this`count, members
      ensures count == old(count) - 1
      ensures Elements() == WithoutRoot(cmp, old(Elements()))
      ensures members[count..] == [old(members[0])] + old(members[count..])
    {
      hide SiftDown, WithoutRoot;
      ghost var s, back := Elements(), members[count..];
      Swap(0, count - 1);
      assert members[count - 1] == Elements()[count - 1];
      assert members[count - 1..] == [s[0]] + back;
      count := count - 1;
      assert Elements() == Swapped(s, 0, |s| - 1)[..|s| - 1];
      DownHeap(0);
      SwapOut(cmp, s);
    }

    /** Sorts in place; on a heap the result is ascending. */
    method ToSortedArray()
      requires Valid()
      modifies this, members
      ensures Valid() && state == SortedArray && count == old(count)
      ensures multiset(Elements()) == old(multiset(Elements()))
      ensures old(IsHeap(cmp, Elements())) ==> Sorted(cmp, Elements())
    {
      hide SiftDown, TotalPreorder, IsHeap, Partitioned, Sorted, WithoutRoot, Swapped;
      var n := count;
      ghost var s := Elements();
      ghost var wasHeap := IsHeap(cmp, s);
      state := SortedArray;
      if wasHeap { HeapIsPartitioned(cmp, s); }
      while count > 1
        invariant count <= n <= members.Length && state == SortedArray
        invariant multiset(members[..n]) == multiset(s)
        invariant wasHeap ==> Partitioned(cmp, members[..n], count)
      {
        ghost var a, m := members[..], count;
        MoveRootBack();
        Slices(a, members[..], m, n);
        SortStep(cmp, a[..n], m, members[..][..n]);
        assert members[..][..n] == members[..n];
      }
      if wasHeap { PartitionedIsSorted(cmp, members[..n], count); }
      count := n;
    }
  }

  // ---------- A caller that keeps the k smallest ----------

  /** What the calls were offered is what they got. */
  lemma {:induction false} InputsAre<T>(offers: seq<Offer<T>>, xs: seq<T>)
    requires |offers| == |xs| && forall i :: 0 <= i < |xs| ==> offers[i].elem == xs[i]
    ensures Inputs(offers) == multiset(xs)
  {
    if xs != [] {
      var n := |xs| - 1;
      InputsAre(offers[..n], xs[..n]);
      assert xs == xs[..n] + [xs[n]];
    }
  }

  lemma OfferRunGrows<T(!new)>(cmp: Comparator<T>, capacity: nat, offers: seq<Offer<T>>, kept: seq<multiset<T>>,
                               o: Offer<T>, after: multiset<T>)
    requires OfferRun(cmp, capacity, offers, kept) && Offered(cmp, capacity, kept[|offers|], o, after)
    ensures OfferRun(cmp, capacity, offers + [o], kept + [after])
  {
    hide Offered;
    var more, all := offers + [o], kept + [after];
    forall i {:trigger more[i]} | 0 <= i < |more| ensures Offered(cmp, capacity, all[i], more[i], all[i + 1]) {
      if i < |offers| {
        assert more[i] == offers[i] && all[i] == kept[i] && all[i + 1] == kept[i + 1];
      }
    }
  }

  /** bh_try_insert of every element, from a new heap: the k smallest stay, the rest is given up. */
  method KeepSmallest<T(!new, 0)>(k: nat, cmp: Comparator<T>, xs: seq<T>)
    returns (heap: Heap<T>, ghost givenUp: multiset<T>)
    requires TotalPreorder(cmp) && k > 0
    ensures fresh(heap) && heap.Valid() && heap.state == Consistent && heap.cmp == cmp
    ensures heap.count == if |xs| < k then |xs| else k
    ensures multiset(heap.Elements()) + givenUp == multiset(xs)
    ensures forall x, d :: x in multiset(heap.Elements()) && d in givenUp ==> Leq(cmp, x, d)
  {
    hide TotalPreorder, Offered, OfferRun, Inputs, GivenUp, IsHeap;
    heap := new Heap(k, cmp);
    ghost var offers: seq<Offer<T>>, kept := [], [multiset{}];
    NoOffers(cmp, k);
    for i := 0 to |xs|
      invariant fresh(heap) && fresh(heap.members) && heap.Valid() && heap.state == Consistent
      invariant heap.cmp == cmp && heap.members.Length == k
      invariant |offers| == i && |kept| == i + 1 && kept[i] == multiset(heap.Elements())
      invariant forall j :: 0 <= j < i ==> offers[j].elem == xs[j]
      invariant OfferRun(cmp, k, offers, kept)
    {
      var o := heap.TryInsert(xs[i]);
      OfferRunGrows(cmp, k, offers, kept, o, multiset(heap.Elements()));
      offers, kept := offers + [o], kept + [multiset(heap.Elements())];
    }
    KeepsTheSmallest(cmp, k, offers, kept, |xs|);
    assert offers[..|xs|] == offers;
    InputsAre(offers, xs);
    givenUp := GivenUp(offers);
  }

  lemma NoOffers<T(!new)>(cmp: Comparator<T>, capacity: nat)
    ensures OfferRun(cmp, capacity, [], [multiset{}])
  {
  }
}
