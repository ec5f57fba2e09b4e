/**
 The ring memory pool of src/base/DMRBMemoryPool.cpp over the double-mapped buffer of
 src/base/DMRB.hpp. Offsets grow from zero and are placed modulo the capacity by a mask; spans come
 back in any order and are parked in an ordered map until the one at the tail returns.
 */
module MemoryPool {
  import opened Arithmetic

  const TWO_64: nat := 0x1_0000_0000_0000_0000

  /** Unsigned 64-bit arithmetic. */
  function U64(x: int): nat {
    x % TWO_64
  }

  predicate IsPowerOfTwo(n: nat) {
    n == 1 || (n > 0 && n % 2 == 0 && IsPowerOfTwo(n / 2))
  }

  // ---------- Masked placement ----------

  /** Under a power of two, masking is taking the remainder. */
  lemma {:induction false} MaskIsMod(x: nat, size: nat)
    requires IsPowerOfTwo(size)
    ensures BitAnd(x, size - 1) == x % size
  {
    if size > 1 && x > 0 {
      var h := size / 2;
      MaskIsMod(x / 2, h);
      MaskHalf(x, h);
      ModDouble(x, h);
    }
  }

  lemma MaskHalf(x: nat, h: nat)
    requires h > 0
    ensures BitAnd(x, 2 * h - 1) == x % 2 + 2 * BitAnd(x / 2, h - 1)
  {
    assert (2 * h - 1) / 2 == h - 1;
  }

  lemma ModDouble(x: nat, h: nat)
    requires h > 0
    ensures x % (2 * h) == x % 2 + 2 * ((x / 2) % h)
  {
    var q, r := (x / 2) / h, (x / 2) % h;
    assert x == (2 * h) * q + (2 * r + x % 2);
    ModUnique(x, 2 * h, q, 2 * r + x % 2);
  }

  lemma {:induction false} MaskCollides(size: nat) returns (x: nat)
    requires size > 0 && !IsPowerOfTwo(size)
    ensures 0 < x < size && BitAnd(x, size - 1) == 0
  {
    if size % 2 == 1 {
      x := 1;
      assert BitAnd(1, size - 1) == 2 * BitAnd(0, (size - 1) / 2);
    } else {
      var y := MaskCollides(size / 2);
      x := 2 * y;
      assert (size - 1) / 2 == size / 2 - 1;
    }
  }

  /** Where the mask of a buffer of the given size puts an offset. */
  function Masked(x: nat, size: nat): nat
    requires size > 0
  {
    BitAnd(x, size - 1)
  }

  /** The mask gives the offsets of one capacity different cells exactly when the capacity is a power of two. */
  lemma PlacementNeedsPowerOfTwo(size: nat)
    requires size > 0
    ensures (forall x: nat, y: nat :: x < size && y < size && Masked(x, size) == Masked(y, size) ==> x == y)
       <==> IsPowerOfTwo(size)
  {
    if IsPowerOfTwo(size) {
      forall x: nat, y: nat | x < size && y < size && Masked(x, size) == Masked(y, size) ensures x == y {
        MaskKeepsSmall(x, size);
        MaskKeepsSmall(y, size);
      }
    } else {
      var x := MaskCollides(size);
      MaskZero(size);
      assert Masked(0, size) == Masked(x, size);
    }
  }

  /** Three pages pass the size check of prepare, and offsets 0 and 4096 share a cell. */
  lemma ThreePagesCollide()
    ensures 12288 % 4096 == 0 && Masked(4096, 12288) == Masked(0, 12288)
  {
    ShiftedOut(12, 1, 2);
    assert BitAnd(1, 2) == 0;
    MaskZero(12288);
    assert Doubled(12, 1) == 4096 && Filled(12, 2) == 12287 by {
      assert Doubled(6, 1) == 64 && Doubled(6, 64) == 4096;
      assert Filled(6, 2) == 191 && Filled(6, 191) == 12287;
      DoubledTwice(6, 6, 1, 2);
    }
  }

  /** k doublings of x, and of y with a one bit added each time. */
  function Doubled(k: nat, x: nat): nat {
    if k == 0 then x else Doubled(k - 1, 2 * x)
  }

  function Filled(k: nat, y: nat): nat {
    if k == 0 then y else Filled(k - 1, 2 * y + 1)
  }

  lemma {:induction false} DoubledTwice(j: nat, k: nat, x: nat, y: nat)
    ensures Doubled(j + k, x) == Doubled(k, Doubled(j, x)) && Filled(j + k, y) == Filled(k, Filled(j, y))
  {
    if j > 0 {
      DoubledTwice(j - 1, k, 2 * x, 2 * y + 1);
    }
  }

  lemma {:induction false} ShiftedOut(k: nat, x: nat, y: nat)
    requires BitAnd(x, y) == 0
    ensures BitAnd(Doubled(k, x), Filled(k, y)) == 0
  {
    if k > 0 {
      assert BitAnd(2 * x, 2 * y + 1) == 2 * BitAnd(x, y);
      ShiftedOut(k - 1, 2 * x, 2 * y + 1);
    }
  }

  lemma MaskKeepsSmall(x: nat, size: nat)
    requires IsPowerOfTwo(size) && x < size
    ensures Masked(x, size) == x
  {
    MaskIsMod(x, size);
    ModUnique(x, size, 0, x);
  }

  lemma MaskZero(size: nat)
    requires size > 0
    ensures BitAnd(0, size - 1) == 0
  {
  }

  /** The region mapped twice: m_base and m_size, with m_mask one less than the size. */
  datatype Region = Region(base: nat, size: nat) {
    predicate Valid() {
      IsPowerOfTwo(size) && base + 2 * size <= TWO_64
    }

    function Mask(): nat
      requires size > 0
    {
      size - 1
    }

    /** The physical cell of a logical offset. */
    function Cell(x: nat): nat
      requires size > 0
    {
      x % size
    }

    /** The physical cell that an address means. */
    function CellAt(address: nat): nat
      requires size > 0 && base <= address
    {
      Cell(address - base)
    }
  }

  datatype Span = Span(data: nat, size: nat)

  /** The span starts at the cell of a logical offset, through either mapping. */
  predicate StartsAt(g: Region, mem: Span, offset: nat)
    requires g.size > 0
  {
    g.base <= mem.data < g.base + 2 * g.size && g.Cell(mem.data - g.base) == g.Cell(offset)
  }

  function OrderOf(g: Region, tail: nat, mem: Span): nat
    requires g.size > 0
  {
    var distance := BitAnd(U64(U64(g.size - BitAnd(tail, g.Mask()))
                            + BitAnd(U64(mem.data - g.base), g.Mask())), g.Mask());
    U64(tail + distance)
  }

  /** The address arithmetic of restore inverts placement for every offset within one capacity of the tail. */
  lemma OrderInvertsPlacement(g: Region, tail: nat, offset: nat, mem: Span)
    requires g.Valid()
    requires tail <= offset < tail + g.size && offset < TWO_64
    requires StartsAt(g, mem, offset)
    ensures OrderOf(g, tail, mem) == offset
  {
    hide BitAnd, IsPowerOfTwo, U64;
    var s := g.size;
    assert s > 0 by { PowerPositive(s); }
    var t, o := tail % s, offset % s;
    MaskIsMod(tail, s);
    U64Identity(s - t);
    U64Identity(mem.data - g.base);
    MaskIsMod(mem.data - g.base, s);
    U64Identity(s - t + o);
    MaskIsMod(s - t + o, s);
    DistanceAhead(tail, offset, s);
    U64Identity(offset);
  }

  /** Restore gives back the offset that buffer placed. */
  ghost predicate Recovers(g: Region, tail: nat, offset: nat)
    requires g.size > 0
  {
    OrderOf(g, tail, Span(g.base + Masked(offset, g.size), 0)) == offset
  }

  /** The arithmetic of restore inverts that of buffer if and only if the capacity is a power of two. */
  lemma RestoreNeedsPowerOfTwo(g: Region)
    requires g.size > 0 && g.base + 2 * g.size <= TWO_64
    ensures (forall tail: nat, offset: nat :: tail <= offset < tail + g.size && offset < TWO_64
               ==> Recovers(g, tail, offset))
       <==> IsPowerOfTwo(g.size)
  {
    hide BitAnd, OrderOf;
    if IsPowerOfTwo(g.size) {
      forall tail: nat, offset: nat | tail <= offset < tail + g.size && offset < TWO_64
        ensures Recovers(g, tail, offset)
      {
        MaskIsMod(offset, g.size);
        ModUnique(offset % g.size, g.size, 0, offset % g.size);
        OrderInvertsPlacement(g, tail, offset, Span(g.base + Masked(offset, g.size), 0));
      }
    } else {
      var x := MaskCollides(g.size);
      MaskZero(g.size);
      assert !Recovers(g, 0, 0) || !Recovers(g, 0, x);
    }
  }

  lemma U64Identity(x: nat)
    requires x < TWO_64
    ensures U64(x) == x
  {
  }

  lemma PowerPositive(n: nat)
    requires IsPowerOfTwo(n)
    ensures n > 0
  {
  }

  lemma DistanceAhead(tail: nat, offset: nat, s: nat)
    requires s > 0 && tail <= offset < tail + s
    ensures (s - tail % s + offset % s) % s == offset - tail
  {
    var a, t := tail / s, tail % s;
    var b, o := offset / s, offset % s;
    assert s - t + o == s * (1 + a - b) + (offset - tail);
    ModUnique(s - t + o, s, 1 + a - b, offset - tail);
  }

  // ---------- The pool ----------

  datatype State = State(head: nat, tail: nat, free: map<nat, nat>)

  lemma {:induction false} LeastKey(keys: set<nat>) returns (k: nat)
    requires keys != {}
    ensures k in keys && forall x :: x in keys ==> k <= x
  {
    k :| k in keys;
    if y :| y in keys && y < k {
      var rest := set x | x in keys && x < k;
      assert y in rest && k !in rest;
      var least := LeastKey(rest);
      forall x | x in keys ensures least <= x {
        assert x < k ==> x in rest;
      }
      k := least;
    }
  }

  /** The key that iteration over the ordered map meets first. */
  function Begin(m: map<nat, nat>): (k: nat)
    requires m != map[]
    ensures k in m && forall x :: x in m ==> k <= x
  {
    BeginExists(m);
    var k :| k in m && forall x :: x in m ==> k <= x;
    k
  }

  lemma BeginExists(m: map<nat, nat>)
    requires m != map[]
    ensures exists k :: k in m && forall x :: x in m ==> k <= x
  {
    var k := LeastKey(m.Keys);
    assert k in m && forall x :: x in m ==> k <= x;
  }

  /** Absorb the parked spans that continue at `next`. */
  function Coalesce(free: map<nat, nat>, next: nat): (r: (nat, map<nat, nat>))
    decreases |free|
  {
    if free != map[] && Begin(free) == next then
      assert |free - {next}| < |free| by { assert free.Keys == (free - {next}).Keys + {next}; }
      Coalesce(free - {next}, next + free[next])
    else (next, free)
  }

  lemma CoalesceUnfold(free: map<nat, nat>, next: nat)
    ensures free == map[] || Begin(free) != next ==> Coalesce(free, next) == (next, free)
    ensures free != map[] && Begin(free) == next ==>
              && |free - {next}| < |free|
              && Coalesce(free, next) == Coalesce(free - {next}, next + free[next])
  {
    if free != map[] {
      assert free.Keys == (free - {Begin(free)}).Keys + {Begin(free)};
    }
  }

  function Committed(s: State, length: nat): State {
    s.(head := s.head + length)
  }

  /** std::map::emplace keeps an entry that is already there. */
  function Emplace(free: map<nat, nat>, key: nat, value: nat): map<nat, nat> {
    if key in free then free else free[key := value]
  }

  function Restored(g: Region, s: State, mem: Span): State
    requires g.size > 0
  {
    var order := OrderOf(g, s.tail, mem);
    if order != s.tail then s.(free := Emplace(s.free, order, mem.size))
    else
      var (next, free) := Coalesce(s.free, order + mem.size);
      s.(tail := next, free := free)
  }

  /** The overlap checks of the debug build. */
  predicate NoOverlap(free: map<nat, nat>, order: nat, size: nat) {
    forall k :: k in free ==> if k < order then k + free[k] <= order else order + size <= k
  }

  // ---------- The ledger: what was committed and what came back ----------

  datatype Segment = Segment(start: nat, size: nat)

  datatype Ledger = Ledger(segments: seq<Segment>, returned: set<nat>) {
    /** Where segment i starts; one past the last segment, where it ends. */
    function Offset(i: nat): nat
      requires i <= |segments|
    {
      if i < |segments| then segments[i].start
      else if segments == [] then 0
      else segments[|segments| - 1].start + segments[|segments| - 1].size
    }

    function End(): nat {
      Offset(|segments|)
    }

    /** Where segment i ends. */
    function After(i: nat): nat
      requires i < |segments|
    {
      segments[i].start + segments[i].size
    }

    /** Segments are not empty and lie end to end from offset zero. */
    predicate Valid() {
      && Offset(0) == 0
      && (forall i :: 0 <= i < |segments| ==> segments[i].size > 0)
      && (forall i {:trigger After(i)} :: 0 <= i < |segments| ==> After(i) == Offset(i + 1))
      && (forall i :: i in returned ==> i < |segments|)
    }

    /** The first segment from i on that has not come back. */
    function FirstLive(i: nat): (k: nat)
      requires i <= |segments|
      ensures i <= k <= |segments|
      ensures forall j :: i <= j < k ==> j in returned
      ensures k < |segments| ==> k !in returned
      decreases |segments| - i
    {
      if i < |segments| && i in returned then FirstLive(i + 1) else i
    }

    function First(): nat {
      FirstLive(0)
    }

    function Commit(length: nat): Ledger {
      if length == 0 then this else Ledger(segments + [Segment(End(), length)], returned)
    }

    function Return(i: nat): Ledger {
      Ledger(segments, returned + {i})
    }

    predicate Live(i: nat) {
      i < |segments| && i !in returned
    }
  }

  /** The map holds exactly the returned segments from index j on. */
  ghost predicate Parked(free: map<nat, nat>, l: Ledger, j: nat) {
    && (forall i :: j <= i < |l.segments| && i in l.returned ==>
          l.segments[i].start in free && free[l.segments[i].start] == l.segments[i].size)
    && (forall k :: k in free ==> exists i :: j <= i < |l.segments| && i in l.returned && l.segments[i].start == k)
  }

  /** The pool's fields are what the ledger says they are. */
  ghost predicate Refines(g: Region, s: State, l: Ledger) {
    && l.Valid()
    && s.head == l.End() < TWO_64
    && s.tail == l.Offset(l.First())
    && Parked(s.free, l, l.First())
    && s.head - s.tail <= g.size
  }

  lemma {:induction false} OffsetsGrow(l: Ledger, i: nat, j: nat)
    requires l.Valid() && i < j <= |l.segments|
    ensures l.After(i) <= l.Offset(j)
    decreases j
  {
    if j > i + 1 {
      OffsetsGrow(l, i, j - 1);
      assert l.After(j - 1) == l.Offset(j);
    }
  }

  lemma {:induction false} CoalesceFollowsLedger(l: Ledger, free: map<nat, nat>, j: nat)
    requires l.Valid() && j <= |l.segments|
    requires Parked(free, l, j)
    ensures var (next, rest) := Coalesce(free, l.Offset(j));
            next == l.Offset(l.FirstLive(j)) && Parked(rest, l, l.FirstLive(j))
    decreases |l.segments| - j
  {
    hide Begin, Coalesce, Parked;
    CoalesceUnfold(free, l.Offset(j));
    if j < |l.segments| && j in l.returned {
      ParkedFromHere(l, free, j);
      assert l.After(j) == l.Offset(j + 1);
      CoalesceFollowsLedger(l, free - {l.Offset(j)}, j + 1);
    } else {
      ParkedBeyond(l, free, j);
    }
  }

  lemma ParkedFromHere(l: Ledger, free: map<nat, nat>, j: nat)
    requires l.Valid() && j < |l.segments| && j in l.returned
    requires Parked(free, l, j)
    ensures free != map[] && Begin(free) == l.Offset(j)
    ensures free[l.Offset(j)] == l.segments[j].size
    ensures Parked(free - {l.Offset(j)}, l, j + 1)
  {
    hide Begin;
    var next := l.Offset(j);
    forall k | k in free ensures next <= k {
      var i :| j <= i < |l.segments| && i in l.returned && l.segments[i].start == k;
      if i > j { OffsetsGrow(l, j, i); }
    }
    forall i | j + 1 <= i < |l.segments| ensures l.segments[i].start != next {
      OffsetsGrow(l, j, i);
    }
  }

  lemma ParkedBeyond(l: Ledger, free: map<nat, nat>, j: nat)
    requires l.Valid() && j <= |l.segments| && j !in l.returned
    requires Parked(free, l, j)
    ensures l.Offset(j) !in free
  {
    var next := l.Offset(j);
    if next in free {
      var i :| j <= i < |l.segments| && i in l.returned && l.segments[i].start == next;
      OffsetsGrow(l, j, i);
    }
  }

  // ---------- Each operation keeps the refinement ----------

  const EMPTY: State := State(0, 0, map[])
  const BLANK: Ledger := Ledger([], {})

  lemma FirstUnique(l: Ledger, k: nat)
    requires k <= |l.segments|
    requires forall j :: 0 <= j < k ==> j in l.returned
    requires k < |l.segments| ==> k !in l.returned
    ensures l.First() == k
  {
  }

  lemma CommitRefines(g: Region, s: State, l: Ledger, length: nat)
    requires Refines(g, s, l)
    requires s.head - s.tail + length <= g.size && s.head + length < TWO_64
    ensures Refines(g, Committed(s, length), l.Commit(length))
  {
    if length > 0 {
      var m := l.Commit(length);
      FirstUnique(m, l.First());
      forall i {:trigger m.After(i)} | 0 <= i < |m.segments| ensures m.After(i) == m.Offset(i + 1) {
        if i < |l.segments| {
          assert l.After(i) == l.Offset(i + 1);
        }
      }
    }
  }

  /** A segment that is still out lies between tail and head, and meets no parked segment. */
  lemma LiveSegment(g: Region, s: State, l: Ledger, i: nat)
    requires Refines(g, s, l) && l.Live(i)
    ensures l.First() <= i
    ensures s.tail <= l.segments[i].start && l.After(i) <= s.head
    ensures s.tail == l.segments[i].start <==> l.First() == i
    ensures NoOverlap(s.free, l.segments[i].start, l.segments[i].size)
    ensures l.segments[i].start !in s.free
  {
    var f := l.First();
    if f < i { OffsetsGrow(l, f, i); }
    OffsetsGrow(l, i, |l.segments|);
    forall k | k in s.free
      ensures k != l.segments[i].start
      ensures if k < l.segments[i].start then k + s.free[k] <= l.segments[i].start else l.After(i) <= k
    {
      var j :| f <= j < |l.segments| && j in l.returned && l.segments[j].start == k;
      if j < i {
        OffsetsGrow(l, j, i);
        assert l.After(j) == k + s.free[k];
      } else {
        OffsetsGrow(l, i, j);
      }
    }
  }

  ghost predicate IsSegment(g: Region, l: Ledger, i: nat, mem: Span)
    requires g.size > 0
  {
    l.Live(i) && mem.size == l.segments[i].size && StartsAt(g, mem, l.segments[i].start)
  }

  lemma OrderIsStart(g: Region, s: State, l: Ledger, i: nat, mem: Span)
    requires g.Valid() && Refines(g, s, l) && IsSegment(g, l, i, mem)
    ensures OrderOf(g, s.tail, mem) == l.segments[i].start
  {
    hide OrderOf;
    LiveSegment(g, s, l, i);
    OrderInvertsPlacement(g, s.tail, l.segments[i].start, mem);
  }

  lemma ReturnRefines(g: Region, s: State, l: Ledger, i: nat, mem: Span)
    requires g.Valid() && Refines(g, s, l) && IsSegment(g, l, i, mem)
    ensures Refines(g, Restored(g, s, mem), l.Return(i))
  {
    hide OrderOf, Coalesce;
    LiveSegment(g, s, l, i);
    OrderIsStart(g, s, l, i, mem);
    var m := l.Return(i);
    SameTiling(l, m);
    if l.First() < i {
      FirstUnique(m, l.First());
      ParkOne(l, s.free, i);
    } else {
      ReturnFirst(l, s.free, i);
      TailGrows(l, i);
    }
  }

  lemma SameTiling(l: Ledger, m: Ledger)
    requires l.Valid() && m.segments == l.segments && forall i :: i in m.returned ==> i < |m.segments|
    ensures m.Valid() && forall i :: 0 <= i <= |l.segments| ==> m.Offset(i) == l.Offset(i)
  {
    forall i {:trigger m.After(i)} | 0 <= i < |m.segments| ensures m.After(i) == m.Offset(i + 1) {
      assert l.After(i) == l.Offset(i + 1);
    }
  }

  lemma ParkOne(l: Ledger, free: map<nat, nat>, i: nat)
    requires l.Valid() && l.Live(i) && l.First() <= i
    requires Parked(free, l, l.First()) && l.segments[i].start !in free
    ensures Parked(Emplace(free, l.segments[i].start, l.segments[i].size), l.Return(i), l.First())
  {
    var start, m := l.segments[i].start, l.Return(i);
    var grown := Emplace(free, start, l.segments[i].size);
    forall k | k in grown
      ensures exists j :: l.First() <= j < |m.segments| && j in m.returned && m.segments[j].start == k
    {
      if k == start {
        assert i in m.returned;
      } else {
        var j :| l.First() <= j < |l.segments| && j in l.returned && l.segments[j].start == k;
        assert j in m.returned;
      }
    }
  }

  lemma ReturnFirst(l: Ledger, free: map<nat, nat>, i: nat)
    requires l.Valid() && l.Live(i) && l.First() == i && Parked(free, l, i)
    ensures var m := l.Return(i);
            var (next, rest) := Coalesce(free, l.After(i));
            m.Valid() && next == m.Offset(m.First()) && Parked(rest, m, m.First()) && i < m.First()
  {
    hide Coalesce;
    var m := l.Return(i);
    SameTiling(l, m);
    assert l.After(i) == l.Offset(i + 1);
    FirstUnique(m, m.FirstLive(i + 1));
    forall k | k in free
      ensures exists j :: i + 1 <= j < |m.segments| && j in m.returned && m.segments[j].start == k
    {
      var j :| i <= j < |l.segments| && j in l.returned && l.segments[j].start == k;
      assert j in m.returned;
    }
    CoalesceFollowsLedger(m, free, i + 1);
  }

  // ---------- Every run ----------

  datatype Event = Commit(length: nat) | Restore(index: nat, mem: Span) | Reset

  /** What a caller may do: commit what is available, return a segment that is out. */
  ghost predicate Allowed(g: Region, l: Ledger, e: Event)
    requires g.size > 0
  {
    match e
    case Commit(length) => l.End() - l.Offset(l.First()) + length <= g.size && l.End() + length < TWO_64
    case Restore(i, mem) => IsSegment(g, l, i, mem)
    case Reset => true
  }

  function Apply(g: Region, s: State, e: Event): State
    requires g.size > 0
  {
    match e
    case Commit(length) => Committed(s, length)
    case Restore(_, mem) => Restored(g, s, mem)
    case Reset => EMPTY
  }

  function Record(l: Ledger, e: Event): Ledger {
    match e
    case Commit(length) => l.Commit(length)
    case Restore(i, _) => l.Return(i)
    case Reset => BLANK
  }

  /** The assertions in commit, restore and consume. */
  predicate AssertsHold(g: Region, s: State, e: Event)
    requires g.size > 0
  {
    match e
    case Commit(length) => s.tail <= s.head && s.head - s.tail + length <= g.size
    case Restore(_, mem) =>
      && NoOverlap(s.free, OrderOf(g, s.tail, mem), mem.size)
      && s.tail <= Restored(g, s, mem).tail <= s.head
    case Reset => true
  }

  ghost predicate LegalRun(g: Region, l: Ledger, events: seq<Event>)
    requires g.size > 0
    decreases events
  {
    events != [] ==> Allowed(g, l, events[0]) && LegalRun(g, Record(l, events[0]), events[1..])
  }

  /** Along a run: the state refines the ledger and the assertions hold, before and after every event. */
  ghost predicate RunIsSafe(g: Region, s: State, l: Ledger, events: seq<Event>)
    requires g.size > 0
    decreases events
  {
    && Refines(g, s, l)
    && (events != [] ==>
          AssertsHold(g, s, events[0]) && RunIsSafe(g, Apply(g, s, events[0]), Record(l, events[0]), events[1..]))
  }

  lemma StepIsSafe(g: Region, s: State, l: Ledger, e: Event)
    requires g.Valid() && Refines(g, s, l) && Allowed(g, l, e)
    ensures AssertsHold(g, s, e) && Refines(g, Apply(g, s, e), Record(l, e))
  {
    hide OrderOf, Coalesce;
    TailBelowHead(g, s, l);
    match e
    case Commit(length) => CommitRefines(g, s, l, length);
    case Restore(i, mem) =>
      ReturnRefines(g, s, l, i, mem);
      OrderIsStart(g, s, l, i, mem);
      LiveSegment(g, s, l, i);
      TailBelowHead(g, Restored(g, s, mem), l.Return(i));
      TailGrows(l, i);
    case Reset => FirstUnique(BLANK, 0);
  }

  lemma TailBelowHead(g: Region, s: State, l: Ledger)
    requires Refines(g, s, l)
    ensures s.tail <= s.head
  {
    if l.First() < |l.segments| { OffsetsGrow(l, l.First(), |l.segments|); }
  }

  lemma TailGrows(l: Ledger, i: nat)
    requires l.Valid() && l.Live(i)
    ensures l.Offset(l.First()) <= l.Return(i).Offset(l.Return(i).First())
  {
    var m := l.Return(i);
    var f, h := l.First(), m.First();
    SameTiling(l, m);
    assert f <= h;
    if f < h { OffsetsGrow(l, f, h); }
  }

  /** From every state that refines a ledger, as the empty pool does, every legal run in any order is safe. */
  lemma {:induction false} EveryRunIsSafe(g: Region, s: State, l: Ledger, events: seq<Event>)
    requires g.Valid() && Refines(g, s, l) && LegalRun(g, l, events)
    ensures RunIsSafe(g, s, l, events)
    decreases events
  {
    hide Refines, AssertsHold, Apply, Record, Allowed;
    if events != [] {
      StepIsSafe(g, s, l, events[0]);
      EveryRunIsSafe(g, Apply(g, s, events[0]), Record(l, events[0]), events[1..]);
    }
  }

  lemma EmptyPoolRefines(g: Region)
    ensures Refines(g, EMPTY, BLANK)
  {
    FirstUnique(BLANK, 0);
  }

  /** Once every segment is back, in whatever order, the pool is empty again. */
  lemma DrainedPool(g: Region, s: State, l: Ledger)
    requires Refines(g, s, l)
    ensures (forall i :: 0 <= i < |l.segments| ==> i in l.returned) <==> s.tail == s.head
    ensures s.tail == s.head ==> s.free == map[]
  {
    var f := l.First();
    if f < |l.segments| {
      OffsetsGrow(l, f, |l.segments|);
    }
  }

  /** Every parked span lies beyond the tail. */
  lemma ParkedBeyondTail(g: Region, s: State, l: Ledger)
    requires Refines(g, s, l)
    ensures forall k :: k in s.free ==> s.tail < k < s.head
  {
    forall k | k in s.free ensures s.tail < k < s.head {
      var i :| l.First() <= i < |l.segments| && i in l.returned && l.segments[i].start == k;
      OffsetsGrow(l, l.First(), i);
      OffsetsGrow(l, i, |l.segments|);
    }
  }

  // ---------- The writable span ----------

  function BufferOf(g: Region, s: State): Span
    requires g.size > 0 && s.tail <= s.head <= s.tail + g.size
  {
    Span(g.base + BitAnd(s.head, g.Mask()), g.size - (s.head - s.tail))
  }

  /** Some segment that is out or parked covers the cell. */
  ghost predicate Occupied(g: Region, l: Ledger, cell: nat)
    requires g.size > 0
  {
    exists i, x :: l.First() <= i < |l.segments| && l.segments[i].start <= x < l.After(i) && g.Cell(x) == cell
  }

  /** The span covers the cell, through one mapping or the other. */
  ghost predicate Covers(g: Region, mem: Span, cell: nat)
    requires g.size > 0 && g.base <= mem.data
  {
    exists address: nat :: mem.data <= address < mem.data + mem.size && g.CellAt(address) == cell
  }

  lemma CellsDiffer(x: nat, y: nat, s: nat)
    requires s > 0 && x < y < x + s
    ensures x % s != y % s
  {
    var d := y / s - x / s;
    assert s * (y / s) - s * (x / s) == s * d;
    if d >= 1 {
      MulAtLeast(s, d);
    }
  }

  lemma CellAhead(tail: nat, cell: nat, s: nat) returns (y: nat)
    requires cell < s
    ensures tail <= y < tail + s && y % s == cell
  {
    var a, t := tail / s, tail % s;
    if t <= cell {
      y := s * a + cell;
      ModUnique(y, s, a, cell);
    } else {
      y := s * (a + 1) + cell;
      assert s * (a + 1) == s * a + s;
      ModUnique(y, s, a + 1, cell);
    }
  }

  lemma ModShift(x: nat, j: nat, s: nat)
    requires s > 0
    ensures (x % s + j) % s == (x + j) % s
  {
    var q, r := (x % s + j) / s, (x % s + j) % s;
    assert x + j == s * (x / s) + s * q + r;
    assert s * (x / s) + s * q == s * (x / s + q);
    ModUnique(x + j, s, x / s + q, r);
  }

  lemma {:induction false} SegmentAt(l: Ledger, f: nat, x: nat) returns (i: nat)
    requires l.Valid() && f <= |l.segments| && l.Offset(f) <= x < l.End()
    ensures f <= i < |l.segments| && l.segments[i].start <= x < l.After(i)
    decreases |l.segments| - f
  {
    assert l.After(f) == l.Offset(f + 1);
    if x < l.After(f) {
      i := f;
    } else {
      i := SegmentAt(l, f + 1, x);
    }
  }

  /** The buffer lies inside the double mapping, and covers no cell of a segment that is out or parked. */
  lemma BufferIsClear(g: Region, s: State, l: Ledger, cell: nat)
    requires g.Valid() && Refines(g, s, l) && s.tail <= s.head
    ensures var mem := BufferOf(g, s);
            && g.base <= mem.data && mem.data + mem.size <= g.base + 2 * g.size
            && StartsAt(g, mem, s.head)
            && !(Covers(g, mem, cell) && Occupied(g, l, cell))
  {
    hide BitAnd, IsPowerOfTwo;
    assert g.size > 0 by { PowerPositive(g.size); }
    var mem := BufferOf(g, s);
    MaskIsMod(s.head, g.size);
    ModShift(s.head, 0, g.size);
    if Covers(g, mem, cell) && Occupied(g, l, cell) {
      var address: nat :| mem.data <= address < mem.data + mem.size && g.CellAt(address) == cell;
      var i, x :| l.First() <= i < |l.segments| && l.segments[i].start <= x < l.After(i) && g.Cell(x) == cell;
      var j := address - mem.data;
      ModShift(s.head, j, g.size);
      if l.First() < i { OffsetsGrow(l, l.First(), i); }
      OffsetsGrow(l, i, |l.segments|);
      CellsDiffer(x, s.head + j, g.size);
    }
  }

  /** Every cell that no segment covers is in the buffer: together with BufferIsClear, exactly those. */
  lemma BufferIsComplete(g: Region, s: State, l: Ledger, cell: nat)
    requires g.Valid() && Refines(g, s, l) && s.tail <= s.head && cell < g.size
    ensures g.base <= BufferOf(g, s).data
    ensures Covers(g, BufferOf(g, s), cell) || Occupied(g, l, cell)
  {
    hide BitAnd, IsPowerOfTwo;
    var mem := BufferOf(g, s);
    var y := CellAhead(s.tail, cell, g.size);
    if y < s.head {
      var i := SegmentAt(l, l.First(), y);
      assert g.Cell(y) == cell;
    } else {
      var j := y - s.head;
      MaskIsMod(s.head, g.size);
      ModShift(s.head, j, g.size);
      assert g.CellAt(mem.data + j) == cell;
    }
  }

  // ---------- The class ----------

  class DMRBMemoryPool {
    var head: nat
    var tail: nat
    var free: map<nat, nat>
    const region: Region
    ghost var ledger: Ledger

    ghost function Now(): State
      reads this
    {
      State(head, tail, free)
    }

    ghost predicate Valid()
      reads this
    {
      region.Valid() && Refines(region, Now(), ledger)
    }

    /**
     A capacity that is no power of two is accepted here. Valid excludes it: by PlacementNeedsPowerOfTwo two
     offsets then share a cell, and by RestoreNeedsPowerOfTwo restore does not recover every offset.
     */
    constructor (base: nat, capacity: nat)
      requires capacity > 0 && base + 2 * capacity <= TWO_64
      ensures region == Region(base, capacity) && Now() == EMPTY && ledger == BLANK
      ensures Valid() <==> IsPowerOfTwo(capacity)
    {
      head, tail, free := 0, 0, map[];
      region := Region(base, capacity);
      ledger := BLANK;
      EmptyPoolRefines(Region(base, capacity));
    }

    method Reset()
      requires Valid()
      modifies this
      ensures Valid() && Now() == EMPTY && ledger == BLANK
    {
      head := 0;
      tail := 0;
      free := map[];
      ledger := BLANK;
      EmptyPoolRefines(region);
    }

    function Readable(): nat
      reads this
      requires Valid()
    {
      TailBelowHead(region, Now(), ledger);
      head - tail
    }

    function Available(): (r: nat)
      reads this
      requires Valid()
      ensures r + Readable() == region.size
    {
      region.size - Readable()
    }

    method Buffer() returns (mem: Span)
      requires Valid()
      ensures mem.size == Available() && region.base <= mem.data && mem.data + mem.size <= region.base + 2 * region.size
      ensures StartsAt(region, mem, head)
      ensures forall cell: nat :: cell < region.size ==>
                (Covers(region, mem, cell) <==> !Occupied(region, ledger, cell))
    {
      TailBelowHead(region, Now(), ledger);
      mem := Span(region.base + BitAnd(head, region.Mask()), region.size - (head - tail));
      BufferIsClear(region, Now(), ledger, 0);
      forall cell: nat | cell < region.size ensures Covers(region, mem, cell) <==> !Occupied(region, ledger, cell) {
        BufferIsClear(region, Now(), ledger, cell);
        BufferIsComplete(region, Now(), ledger, cell);
      }
    }

    method Commit(length: nat)
      requires Valid() && length <= Available() && head + length < TWO_64
      modifies this
      ensures Valid() && ledger == old(ledger.Commit(length))
      ensures Now() == Committed(old(Now()), length)
      ensures head == old(head) + length && tail == old(tail) && free == old(free)
      ensures length > 0 ==> ledger.segments == old(ledger.segments) + [Segment(old(head), length)]
    {
      TailBelowHead(region, Now(), ledger);
      assert tail <= head && head - tail + length <= region.size;
      CommitRefines(region, Now(), ledger, length);
      head := head + length;
      ledger := ledger.Commit(length);
    }

    method Consume(length: nat)
      requires tail <= head && length <= head - tail
      modifies this`tail
      ensures tail == old(tail) + length
    {
      tail := tail + length;
    }

    /** Takes back segment i of the ledger, which must be out. */
    method Restore(mem: Span, ghost i: nat)
      requires Valid() && IsSegment(region, ledger, i, mem)
      modifies this
      ensures Valid() && ledger == old(ledger.Return(i))
      ensures Now() == Restored(region, old(Now()), mem)
      ensures head == old(head) && ledger.segments == old(ledger.segments)
      ensures ledger.returned == old(ledger.returned) + {i}
    {
      hide OrderOf, Refines, Begin, Coalesce;
      ghost var s := Now();
      StepIsSafe(region, s, ledger, Event.Restore(i, mem));
      var order := OrderOf(region, tail, mem);
      assert NoOverlap(free, order, mem.size);
      ledger := ledger.Return(i);
      if order != tail {
        free := Emplace(free, order, mem.size);
        return;
      }
      var size := Absorb(order, mem.size);
      Consume(size);
    }

    /** Extends a returned span by the parked spans that follow it without a gap, and unparks them. */
    method Absorb(order: nat, first: nat) returns (size: nat)
      modifies this`free
      ensures size >= first && (order + size, free) == Coalesce(old(free), order + first)
    {
      hide Begin, Coalesce;
      size := first;
      while free != map[]
        invariant size >= first && Coalesce(free, order + size) == Coalesce(old(free), order + first)
        decreases |free|
      {
        CoalesceUnfold(free, order + size);
        var it := Begin(free);
        if it != order + size {
          break;
        }
        size := size + free[it];
        free := free - {it};
      }
      CoalesceUnfold(free, order + size);
    }

    method IsIn(address: nat) returns (inside: bool)
      ensures inside <==> region.base <= address < region.base + 2 * region.size
    {
      inside := address >= region.base && address < region.base + region.size * 2;
    }
  }
}
