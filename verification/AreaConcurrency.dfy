/**
 The area allocator of src/base/area_alloc.c under interleaving: any number of threads allocate, free
 and look up pointers, one access to shared memory a step, and only the holder of the mutex adds blocks.
 A request to a bitmap is one step, as its compare-and-swap is; memory is sequentially consistent.
 */
module AreaConcurrency {
  import opened AreaPlacement
  import opened Wrappers

  /** A blockset: its 256 cells, of which the first `used` are published. */
  datatype Blockset = Blockset(items: seq<nat>, used: nat)

  datatype Shared = Shared(sets: seq<Blockset>, hint: nat, marks: map<nat, set<int>>, lock: Option<nat>)

  /** An entry of a block. */
  datatype Entry = Entry(block: nat, index: int)

  datatype Position = Position(set_: nat, item: nat)

  /**
   A lookup: the pointer, the position of the block that contained it when the lookup began, if one
   did, and the entry to be freed if the caller is area_free.
   */
  datatype Query = Query(ptr: int, target: Option<Position>, freeing: Option<Entry>)

  /** Where a thread stands, with its local variables. */
  datatype Pc =
    | Idle
    // area_find_block
    | FindUsed(q: Query, j: nat)
    | FindFirst(q: Query, j: nat, u: nat)
    | FindLast(q: Query, j: nat, u: nat)
    | FindLoop(q: Query, j: nat, u: nat, left: int, right: int)
    | FindCheck(q: Query, j: nat, pos: nat)
    | FindNext(q: Query, j: nat)
    | FindDone(q: Query, found: Option<nat>)
    // area_free
    | ClearEntry(q: Query, b: nat)
    | ReadHintAfterFree(b: nat)
    | MoveHintAfterFree(b: nat, h: nat)
    // area_alloc
    | ReadHint
    | TryHint(h: nat)
    | ScanUsed(h: nat, j: nat)
    | ScanItem(h: nat, j: nat, u: nat, i: nat)
    | ScanTry(h: nat, j: nat, u: nat, i: nat, b: nat)
    | ReadHintAfterScan(taken: Entry)
    | MoveHintAfterScan(taken: Entry, h: nat)
    | WantLock(h: nat)
    | Recheck(h: nat)
    | RereadHint
    | RetryHint(b: nat)
    | MakeBlock
    | InsertUsed(taken: Entry, j: nat)
    | InsertTop(taken: Entry, j: nat, u: nat)
    | InsertWrite(taken: Entry, j: nat, u: nat)
    | InsertPublish(taken: Entry, j: nat, u: nat)
    | InsertNext(taken: Entry, j: nat)
    | InsertLink(taken: Entry)
    | SetHint(taken: Entry)
    | Unlock(outcome: Option<Entry>)
    | Return(taken: Entry)

  ghost function Published(sets: seq<Blockset>): (p: Blocksets)
    requires forall j :: 0 <= j < |sets| ==> sets[j].used <= |sets[j].items|
    ensures |p| == |sets|
    ensures forall j {:trigger p[j]} :: 0 <= j < |sets| ==> p[j] == sets[j].items[..sets[j].used]
  {
    seq(|sets|, j requires 0 <= j < |sets| => sets[j].items[..sets[j].used])
  }

  ghost predicate Cells(sets: seq<Blockset>) {
    forall j :: 0 <= j < |sets| ==> |sets[j].items| == BLOCKSET_SIZE && sets[j].used <= BLOCKSET_SIZE
  }

  /** What holds of shared memory at all times. */
  ghost predicate SharedOk(l: Layout, s: Shared) {
    && l.Valid() && |s.sets| > 0 && Cells(s.sets)
    && Shaped(Published(s.sets)) && Separate(l, Published(s.sets))
    && Registered(Published(s.sets), s.hint)
    && (forall b :: Registered(Published(s.sets), b) ==> b in s.marks)
  }

  /** Published cells stay, and stay in place. */
  ghost predicate Grows(p: Blocksets, p': Blocksets) {
    |p| <= |p'| && forall j :: 0 <= j < |p| ==> p[j] <= p'[j]
  }

  // ---------- The steps ----------

  /** get_entry on a block: marks an entry that was free. */
  ghost predicate Takes(l: Layout, s: Shared, e: Entry, s': Shared) {
    && e.block in s.marks && 0 <= e.index < l.allocCount && e.index !in s.marks[e.block]
    && s' == s.(marks := s.marks[e.block := s.marks[e.block] + {e.index}])
  }

  ghost predicate Targets(l: Layout, p: Blocksets, q: Query) {
    match q.target
    case Some(t) => t.set_ < |p| && t.item < |p[t.set_]| && l.Contains(p[t.set_][t.item], q.ptr)
    case None => forall b: nat :: Registered(p, b) ==> !l.Contains(b, q.ptr)
  }

  /** A call starts: an allocation, the validation of any pointer, or the freeing of an element in use. */
  ghost predicate Starts(l: Layout, s: Shared, live: set<Entry>, pc': Pc)
    requires Cells(s.sets)
  {
    || pc' == ReadHint
    || (&& pc'.FindUsed? && pc'.j == 0 && Targets(l, Published(s.sets), pc'.q)
        && match pc'.q.freeing
           case None => true
           case Some(e) => e in live && pc'.q.ptr == l.Slot(e.block, e.index))
  }

  ghost predicate FindStep(l: Layout, s: Shared, pc: Pc, pc': Pc)
    requires Cells(s.sets)
  {
    match pc
    case FindUsed(q, j) => j < |s.sets| && pc' == FindFirst(q, j, s.sets[j].used)
    case FindFirst(q, j, u) =>
      && j < |s.sets|
      && pc' == if q.ptr < l.Data(s.sets[j].items[0]) then FindNext(q, j) else FindLast(q, j, u)
    case FindLast(q, j, u) =>
      && j < |s.sets| && 1 <= u <= BLOCKSET_SIZE
      && pc' == if l.Limit(s.sets[j].items[u - 1]) <= q.ptr then FindNext(q, j) else FindLoop(q, j, u, 0, u - 1)
    case FindLoop(q, j, u, left, right) =>
      if left <= right then
        var middle := (left + right) / 2;
        && j < |s.sets| && 0 <= middle < BLOCKSET_SIZE
        && pc' == if l.Data(s.sets[j].items[middle]) > q.ptr then FindLoop(q, j, u, left, middle - 1)
                  else FindLoop(q, j, u, middle + 1, right)
      else pc' == if right < 0 || right >= BLOCKSET_SIZE then FindDone(q, None) else FindCheck(q, j, right)
    case FindCheck(q, j, pos) =>
      && j < |s.sets| && pos < BLOCKSET_SIZE
      && pc' == if l.Contains(s.sets[j].items[pos], q.ptr) then FindDone(q, Some(s.sets[j].items[pos]))
                else FindNext(q, j)
    case FindNext(q, j) =>
      pc' == if j + 1 < |s.sets| then FindUsed(q, j + 1) else FindDone(q, None)
    case _ => false
  }

  ghost predicate FreeStep(l: Layout, s: Shared, pc: Pc, s': Shared, pc': Pc) {
    match pc
    case FindDone(q, r) =>
      s' == s && pc' == if q.freeing.Some? && r.Some? then ClearEntry(q, r.value) else Idle
    case ClearEntry(q, b) =>
      && b in s.marks && l.elementSize > 0
      && (var index := (q.ptr - l.Data(b)) / l.elementSize;
          s' == s.(marks := s.marks[b := s.marks[b] - {index}]))
      && pc' == ReadHintAfterFree(b)
    case ReadHintAfterFree(b) => s' == s && pc' == MoveHintAfterFree(b, s.hint)
    case MoveHintAfterFree(b, h) =>
      && pc' == Idle
      && (s' == s || (s.hint == h && s' == s.(hint := b)))
    case _ => false
  }

  ghost predicate ScanStep(l: Layout, t: nat, s: Shared, pc: Pc, s': Shared, pc': Pc)
    requires Cells(s.sets)
  {
    match pc
    case ReadHint => s' == s && pc' == TryHint(s.hint)
    case TryHint(h) =>
      || (s' == s && pc' == ScanUsed(h, 0))
      || (pc'.Return? && pc'.taken.block == h && Takes(l, s, pc'.taken, s'))
    case ScanUsed(h, j) => j < |s.sets| && s' == s && pc' == ScanItem(h, j, s.sets[j].used, 0)
    case ScanItem(h, j, u, i) =>
      && s' == s
      && if i < u then j < |s.sets| && i < BLOCKSET_SIZE && pc' == ScanTry(h, j, u, i, s.sets[j].items[i])
         else pc' == if j + 1 < |s.sets| then ScanUsed(h, j + 1) else WantLock(h)
    case ScanTry(h, j, u, i, b) =>
      || (s' == s && pc' == ScanItem(h, j, u, i + 1))
      || (pc'.ReadHintAfterScan? && pc'.taken.block == b && Takes(l, s, pc'.taken, s'))
    case ReadHintAfterScan(e) => s' == s && pc' == MoveHintAfterScan(e, s.hint)
    case MoveHintAfterScan(e, h) =>
      && pc' == Return(e)
      && (s' == s || (s.hint == h && s' == s.(hint := e.block)))
    case WantLock(h) => s.lock == None && s' == s.(lock := Some(t)) && pc' == Recheck(h)
    case Recheck(h) => s' == s && pc' == if s.hint != h then RereadHint else MakeBlock
    case RereadHint => s' == s && pc' == RetryHint(s.hint)
    case RetryHint(b) =>
      || (s' == s && pc' == MakeBlock)
      || (pc'.Unlock? && pc'.outcome.Some? && pc'.outcome.value.block == b && Takes(l, s, pc'.outcome.value, s'))
    case _ => false
  }

  /** The mutex holder adds a block. malloc gives one that overlaps no other, or fails. */
  ghost predicate InsertStep(l: Layout, s: Shared, pc: Pc, s': Shared, pc': Pc)
    requires Cells(s.sets)
  {
    match pc
    case MakeBlock =>
      || (s' == s && pc' == Unlock(None))
      || (&& pc'.InsertUsed? && pc'.j == 0
          && Fresh(l, Published(s.sets), pc'.taken.block) && 0 <= pc'.taken.index < l.allocCount
          && s' == s.(marks := s.marks[pc'.taken.block := {pc'.taken.index}]))
    case InsertUsed(e, j) =>
      && s' == s && j < |s.sets|
      && pc' == if s.sets[j].used == BLOCKSET_SIZE then InsertNext(e, j) else InsertTop(e, j, s.sets[j].used)
    case InsertTop(e, j, u) =>
      && s' == s && j < |s.sets| && 1 <= u <= BLOCKSET_SIZE
      && pc' == if s.sets[j].items[u - 1] < e.block then InsertWrite(e, j, u) else InsertNext(e, j)
    case InsertWrite(e, j, u) =>
      && j < |s.sets| && u < BLOCKSET_SIZE
      && s' == s.(sets := s.sets[j := s.sets[j].(items := s.sets[j].items[u := e.block])])
      && pc' == InsertPublish(e, j, u)
    case InsertPublish(e, j, u) =>
      && j < |s.sets|
      && s' == s.(sets := s.sets[j := s.sets[j].(used := s.sets[j].used + 1)])
      && pc' == SetHint(e)
    case InsertNext(e, j) =>
      s' == s && pc' == if j + 1 < |s.sets| then InsertUsed(e, j + 1) else InsertLink(e)
    case InsertLink(e) =>
      || (s' == s && pc' == Unlock(None))
      || (exists cells: seq<nat> ::
            && |cells| == BLOCKSET_SIZE && cells[0] == e.block
            && s' == s.(sets := s.sets + [Blockset(cells, 1)]) && pc' == SetHint(e))
    case SetHint(e) => s' == s.(hint := e.block) && pc' == Unlock(Some(e))
    case Unlock(r) =>
      && s' == s.(lock := None)
      && pc' == match r { case Some(e) => Return(e) case None => Idle }
    case _ => false
  }

  // ---------- What holds of each thread ----------

  /** The entry a thread has reserved: taken and not yet returned, or being freed. */
  function Held(pc: Pc): Option<Entry> {
    match pc
    case FindUsed(q, _) => q.freeing
    case FindFirst(q, _, _) => q.freeing
    case FindLast(q, _, _) => q.freeing
    case FindLoop(q, _, _, _, _) => q.freeing
    case FindCheck(q, _, _) => q.freeing
    case FindNext(q, _) => q.freeing
    case FindDone(q, _) => q.freeing
    case ClearEntry(q, _) => q.freeing
    case ReadHintAfterScan(e) => Some(e)
    case MoveHintAfterScan(e, _) => Some(e)
    case InsertUsed(e, _) => Some(e)
    case InsertTop(e, _, _) => Some(e)
    case InsertWrite(e, _, _) => Some(e)
    case InsertPublish(e, _, _) => Some(e)
    case InsertNext(e, _) => Some(e)
    case InsertLink(e) => Some(e)
    case SetHint(e) => Some(e)
    case Unlock(r) => r
    case Return(e) => Some(e)
    case _ => None
  }

  predicate Locks(pc: Pc) {
    || pc.Recheck? || pc.RereadHint? || pc.RetryHint? || pc.MakeBlock?
    || pc.InsertUsed? || pc.InsertTop? || pc.InsertWrite?
    || pc.InsertPublish? || pc.InsertNext? || pc.InsertLink? || pc.SetHint? || pc.Unlock?
  }

  /** The lookup's target is still where it was; a lookup for area_free has one. */
  ghost predicate QueryOk(l: Layout, p: Blocksets, q: Query) {
    && (q.target.Some? ==>
          q.target.value.set_ < |p| && q.target.value.item < |p[q.target.value.set_]|
          && l.Contains(p[q.target.value.set_][q.target.value.item], q.ptr))
    && (q.freeing.Some? ==>
          && q.target.Some? && 0 <= q.freeing.value.index < l.allocCount
          && q.ptr == l.Slot(q.freeing.value.block, q.freeing.value.index)
          && p[q.target.value.set_][q.target.value.item] == q.freeing.value.block)
  }

  /** The lookup has not passed its target. */
  ghost predicate NotPast(q: Query, j: nat) {
    q.target.Some? ==> j <= q.target.value.set_
  }

  /** If blockset j holds the target, it is among the first u items. */
  ghost predicate Sees(q: Query, j: nat, u: nat) {
    q.target.Some? && q.target.value.set_ == j ==> q.target.value.item < u
  }

  ghost predicate FindOk(l: Layout, p: Blocksets, pc: Pc) {
    match pc
    case FindUsed(q, j) => QueryOk(l, p, q) && j < |p| && NotPast(q, j)
    case FindFirst(q, j, u) => QueryOk(l, p, q) && j < |p| && NotPast(q, j) && 1 <= u <= |p[j]| && Sees(q, j, u)
    case FindLast(q, j, u) =>
      QueryOk(l, p, q) && j < |p| && NotPast(q, j) && 1 <= u <= |p[j]| && Sees(q, j, u) && l.Data(p[j][0]) <= q.ptr
    case FindLoop(q, j, u, left, right) =>
      && QueryOk(l, p, q) && j < |p| && NotPast(q, j) && 1 <= u <= |p[j]| && Sees(q, j, u) && l.Data(p[j][0]) <= q.ptr
      && 0 <= left <= u && -1 <= right < u && left <= right + 1
      && (left > 0 ==> l.Data(p[j][left - 1]) <= q.ptr) && (right + 1 < u ==> q.ptr < l.Data(p[j][right + 1]))
    case FindCheck(q, j, pos) =>
      && QueryOk(l, p, q) && j < |p| && NotPast(q, j) && pos < |p[j]|
      && (q.target.Some? && q.target.value.set_ == j ==> pos == q.target.value.item)
    case FindNext(q, j) => QueryOk(l, p, q) && j < |p| && NotPast(q, j + 1)
    case FindDone(q, r) =>
      && QueryOk(l, p, q)
      && (r.Some? ==> Registered(p, r.value) && l.Contains(r.value, q.ptr))
      && (q.target.Some? ==> r == Some(p[q.target.value.set_][q.target.value.item]))
    case ClearEntry(q, b) => QueryOk(l, p, q) && Registered(p, b) && q.freeing.Some? && q.freeing.value.block == b
    case _ => true
  }

  /** The new block is nobody else's, one entry of it is taken, and the first j blocksets have no place for it. */
  ghost predicate Inserting(l: Layout, s: Shared, e: Entry, j: nat)
    requires Cells(s.sets)
  {
    && Fresh(l, Published(s.sets), e.block) && Skips(Published(s.sets), e.block, j)
    && e.block in s.marks && s.marks[e.block] == {e.index}
  }

  ghost predicate WorkOk(l: Layout, s: Shared, pc: Pc)
    requires Cells(s.sets)
  {
    var p := Published(s.sets);
    match pc
    case ReadHintAfterFree(b) => Registered(p, b)
    case MoveHintAfterFree(b, h) => Registered(p, b)
    case TryHint(h) => Registered(p, h)
    case ScanUsed(h, j) => j < |p|
    case ScanItem(h, j, u, i) => j < |p| && i <= u <= |p[j]|
    case ScanTry(h, j, u, i, b) => j < |p| && i < u <= |p[j]| && Registered(p, b)
    case ReadHintAfterScan(e) => Registered(p, e.block)
    case MoveHintAfterScan(e, h) => Registered(p, e.block)
    case RetryHint(b) => Registered(p, b)
    case InsertUsed(e, j) => Inserting(l, s, e, j) && j < |p|
    case InsertTop(e, j, u) => Inserting(l, s, e, j) && j < |p| && u == |p[j]| < BLOCKSET_SIZE
    case InsertWrite(e, j, u) =>
      Inserting(l, s, e, j) && j < |p| && u == |p[j]| < BLOCKSET_SIZE && HasRoom(p[j], e.block)
    case InsertPublish(e, j, u) =>
      && Inserting(l, s, e, j) && j < |p| && u == |p[j]| < BLOCKSET_SIZE && HasRoom(p[j], e.block)
      && s.sets[j].items[u] == e.block
    case InsertNext(e, j) => Inserting(l, s, e, j + 1) && j < |p|
    case InsertLink(e) => Inserting(l, s, e, |p|)
    case SetHint(e) => Registered(p, e.block)
    case Unlock(r) => r.Some? ==> Registered(p, r.value.block)
    case Return(e) => Registered(p, e.block)
    case _ => true
  }

  ghost predicate ThreadOk(l: Layout, s: Shared, t: nat, pc: Pc)
    requires Cells(s.sets)
  {
    && FindOk(l, Published(s.sets), pc) && WorkOk(l, s, pc)
    && (Locks(pc) <==> s.lock == Some(t))
    && (Held(pc).Some? ==> Held(pc).value.block in s.marks && Held(pc).value.index in s.marks[Held(pc).value.block])
  }

  // ---------- Published cells only grow ----------

  lemma GrowsKeeps(p: Blocksets, p': Blocksets, b: nat)
    requires Grows(p, p') && Registered(p, b)
    ensures Registered(p', b)
  {
    var i, k :| 0 <= i < |p| && 0 <= k < |p[i]| && p[i][k] == b;
    assert p'[i][k] == b;
  }

  lemma QueryStable(l: Layout, p: Blocksets, p': Blocksets, q: Query)
    requires Grows(p, p') && QueryOk(l, p, q)
    ensures QueryOk(l, p', q)
    ensures q.target.Some? ==> var (j, i) := (q.target.value.set_, q.target.value.item);
                               j < |p| <= |p'| && i < |p[j]| <= |p'[j]| && p'[j][i] == p[j][i]
  {
  }

  lemma FindOkStable(l: Layout, p: Blocksets, p': Blocksets, pc: Pc)
    requires Grows(p, p') && FindOk(l, p, pc)
    ensures FindOk(l, p', pc)
  {
    hide QueryOk, Registered;
    if IsFind(pc) {
      QueryStable(l, p, p', pc.q);
      assert p[pc.j] <= p'[pc.j];
    }
    match pc
    case FindDone(q, r) =>
      QueryStable(l, p, p', q);
      if r.Some? { GrowsKeeps(p, p', r.value); }
    case ClearEntry(q, b) =>
      QueryStable(l, p, p', q);
      GrowsKeeps(p, p', b);
    case _ =>
  }

  /** Marks of blocks that are not published stay. */
  ghost predicate KeepsUnpublished(s: Shared, s': Shared)
    requires Cells(s.sets)
  {
    forall b :: b in s.marks && !Registered(Published(s.sets), b) ==> b in s'.marks && s'.marks[b] == s.marks[b]
  }

  lemma FreshIsUnpublished(l: Layout, p: Blocksets, b: nat)
    requires l.Valid() && Fresh(l, p, b)
    ensures !Registered(p, b)
  {
  }

  /** Steps of other threads leave a thread's own facts standing. */
  lemma ThreadOkStable(l: Layout, s: Shared, s': Shared, t: nat, pc: Pc)
    requires Cells(s.sets) && Cells(s'.sets) && ThreadOk(l, s, t, pc)
    requires Grows(Published(s.sets), Published(s'.sets))
    requires s'.lock == Some(t) <==> s.lock == Some(t)
    requires s.lock == Some(t) ==> s'.sets == s.sets
    requires forall b :: b in s.marks ==> b in s'.marks
    requires l.Valid() && (s.lock == Some(t) ==> KeepsUnpublished(s, s'))
    requires Held(pc).Some? ==>
               Held(pc).value.block in s'.marks && Held(pc).value.index in s'.marks[Held(pc).value.block]
    ensures ThreadOk(l, s', t, pc)
  {
    var p, p' := Published(s.sets), Published(s'.sets);
    FindOkStable(l, p, p', pc);
    forall b | Registered(p, b) ensures Registered(p', b) {
      GrowsKeeps(p, p', b);
    }
  }

  // ---------- Lookups ----------

  ghost predicate IsFind(pc: Pc) {
    pc.FindUsed? || pc.FindFirst? || pc.FindLast? || pc.FindLoop? || pc.FindCheck? || pc.FindNext?
  }

  lemma FindStepOk(l: Layout, s: Shared, pc: Pc, pc': Pc)
    requires SharedOk(l, s) && FindOk(l, Published(s.sets), pc) && FindStep(l, s, pc, pc')
    ensures FindOk(l, Published(s.sets), pc')
  {
    hide Separate, Shaped, Registered, FindOk, FindStep, SharedOk;
    assert Cells(s.sets) by { SharedParts(l, s); }
    match pc
    case FindUsed(q, j) => UsedStepOk(l, s, q, j, pc');
    case FindFirst(q, j, u) => FirstStepOk(l, s, q, j, u, pc');
    case FindLast(q, j, u) => LastStepOk(l, s, q, j, u, pc');
    case FindLoop(q, j, u, left, right) => LoopStepOk(l, s, q, j, u, left, right, pc');
    case FindCheck(q, j, pos) => CheckStepOk(l, s, q, j, pos, pc');
    case FindNext(q, j) => NextStepOk(l, s, q, j, pc');
    case _ => OnlyFinds(l, s, pc, pc');
  }

  lemma OnlyFinds(l: Layout, s: Shared, pc: Pc, pc': Pc)
    requires Cells(s.sets) && FindStep(l, s, pc, pc')
    ensures IsFind(pc) && Held(pc') == Held(pc) && !Locks(pc) && !Locks(pc') && WorkOk(l, s, pc')
  {
  }

  lemma SharedParts(l: Layout, s: Shared)
    requires SharedOk(l, s)
    ensures l.Valid() && Cells(s.sets) && Shaped(Published(s.sets)) && Separate(l, Published(s.sets))
    ensures |s.sets| > 0 && Registered(Published(s.sets), s.hint)
  {
  }

  lemma UsedStepOk(l: Layout, s: Shared, q: Query, j: nat, pc': Pc)
    requires SharedOk(l, s) && FindOk(l, Published(s.sets), FindUsed(q, j)) && FindStep(l, s, FindUsed(q, j), pc')
    ensures FindOk(l, Published(s.sets), pc')
  {
    hide Separate, Shaped, Registered;
    FindUsedOk(l, Published(s.sets), q, j);
  }

  lemma FirstStepOk(l: Layout, s: Shared, q: Query, j: nat, u: nat, pc': Pc)
    requires SharedOk(l, s) && FindOk(l, Published(s.sets), FindFirst(q, j, u))
    requires FindStep(l, s, FindFirst(q, j, u), pc')
    ensures FindOk(l, Published(s.sets), pc')
  {
    hide Separate, Shaped, Registered;
    FirstBlockOk(l, Published(s.sets), q, j, u);
  }

  lemma LastStepOk(l: Layout, s: Shared, q: Query, j: nat, u: nat, pc': Pc)
    requires SharedOk(l, s) && FindOk(l, Published(s.sets), FindLast(q, j, u)) && FindStep(l, s, FindLast(q, j, u), pc')
    ensures FindOk(l, Published(s.sets), pc')
  {
    hide Separate, Shaped, Registered;
    LastBlockOk(l, Published(s.sets), q, j, u);
  }

  lemma LoopStepOk(l: Layout, s: Shared, q: Query, j: nat, u: nat, left: int, right: int, pc': Pc)
    requires SharedOk(l, s) && FindOk(l, Published(s.sets), FindLoop(q, j, u, left, right))
    requires FindStep(l, s, FindLoop(q, j, u, left, right), pc')
    ensures FindOk(l, Published(s.sets), pc')
  {
    hide Separate, Shaped, Registered;
    var p := Published(s.sets);
    if left <= right {
      assert p[j][(left + right) / 2] == s.sets[j].items[(left + right) / 2];
    } else {
      SearchEnds(l, p, q, j, u, right);
    }
  }

  lemma CheckStepOk(l: Layout, s: Shared, q: Query, j: nat, pos: nat, pc': Pc)
    requires SharedOk(l, s) && FindOk(l, Published(s.sets), FindCheck(q, j, pos))
    requires FindStep(l, s, FindCheck(q, j, pos), pc')
    ensures FindOk(l, Published(s.sets), pc')
  {
    hide Separate, Shaped, Registered;
    assert Published(s.sets)[j][pos] == s.sets[j].items[pos];
    CheckOk(l, Published(s.sets), q, j, pos);
  }

  lemma NextStepOk(l: Layout, s: Shared, q: Query, j: nat, pc': Pc)
    requires SharedOk(l, s) && FindOk(l, Published(s.sets), FindNext(q, j)) && FindStep(l, s, FindNext(q, j), pc')
    ensures FindOk(l, Published(s.sets), pc')
  {
    hide Separate, Shaped, Registered;
  }

  lemma FindUsedOk(l: Layout, p: Blocksets, q: Query, j: nat)
    requires Shaped(p) && QueryOk(l, p, q) && j < |p|
    ensures 1 <= |p[j]| && Sees(q, j, |p[j]|)
  {
  }

  lemma FirstBlockOk(l: Layout, p: Blocksets, q: Query, j: nat, u: nat)
    requires Shaped(p) && QueryOk(l, p, q) && j < |p| && NotPast(q, j) && 1 <= u <= |p[j]|
    ensures q.ptr < l.Data(p[j][0]) ==> NotPast(q, j + 1)
  {
    if q.target.Some? && q.target.value.set_ == j {
      assert Ascending(p[j]);
    }
  }

  lemma LastBlockOk(l: Layout, p: Blocksets, q: Query, j: nat, u: nat)
    requires Shaped(p) && QueryOk(l, p, q) && j < |p| && NotPast(q, j) && 1 <= u <= |p[j]| && Sees(q, j, u)
    ensures l.Limit(p[j][u - 1]) <= q.ptr ==> NotPast(q, j + 1)
  {
    if q.target.Some? && q.target.value.set_ == j {
      assert Ascending(p[j]);
    }
  }

  /** When the binary search ends, it stands on the target if the blockset holds it. */
  lemma SearchEnds(l: Layout, p: Blocksets, q: Query, j: nat, u: nat, right: int)
    requires Shaped(p) && Separate(l, p) && QueryOk(l, p, q) && j < |p| && 1 <= u <= |p[j]| && Sees(q, j, u)
    requires l.Data(p[j][0]) <= q.ptr && -1 <= right < u
    requires right >= 0 ==> l.Data(p[j][right]) <= q.ptr
    requires right + 1 < u ==> q.ptr < l.Data(p[j][right + 1])
    ensures 0 <= right
    ensures q.target.Some? && q.target.value.set_ == j ==> right == q.target.value.item
  {
    if q.target.Some? && q.target.value.set_ == j {
      var s, k := p[j][..u], q.target.value.item;
      assert Ascending(p[j]);
      forall a, b | 0 <= a < |s| && 0 <= b < |s| && a != b ensures l.Apart(s[a], s[b]) {
        assert l.Apart(p[j][a], p[j][b]);
      }
      LastBelow(l, s, q.ptr, k, right);
    }
  }

  lemma OneContains(l: Layout, p: Blocksets, ptr: int, i: nat, k: nat, j: nat, m: nat)
    requires Separate(l, p) && i < |p| && k < |p[i]| && j < |p| && m < |p[j]|
    requires l.Contains(p[i][k], ptr) && l.Contains(p[j][m], ptr)
    ensures i == j && k == m
  {
  }

  lemma CheckOk(l: Layout, p: Blocksets, q: Query, j: nat, pos: nat)
    requires Separate(l, p) && QueryOk(l, p, q) && j < |p| && NotPast(q, j) && pos < |p[j]|
    requires q.target.Some? && q.target.value.set_ == j ==> pos == q.target.value.item
    ensures Registered(p, p[j][pos])
    ensures l.Contains(p[j][pos], q.ptr) ==> FindOk(l, p, FindDone(q, Some(p[j][pos])))
    ensures !l.Contains(p[j][pos], q.ptr) ==> NotPast(q, j + 1)
  {
    if l.Contains(p[j][pos], q.ptr) && q.target.Some? {
      OneContains(l, p, q.ptr, q.target.value.set_, q.target.value.item, j, pos);
    }
  }

  // ---------- Insertion ----------

  lemma SameSets(l: Layout, s: Shared, s': Shared)
    requires SharedOk(l, s) && s'.sets == s.sets && Registered(Published(s'.sets), s'.hint)
    requires forall b :: b in s.marks ==> b in s'.marks
    ensures SharedOk(l, s') && Grows(Published(s.sets), Published(s'.sets))
  {
  }

  /** Writing the cell behind the last published one publishes nothing. */
  lemma WriteOk(l: Layout, s: Shared, e: Entry, j: nat, u: nat, s': Shared)
    requires SharedOk(l, s) && j < |s.sets| && s.sets[j].used == u < BLOCKSET_SIZE
    requires s' == s.(sets := s.sets[j := s.sets[j].(items := s.sets[j].items[u := e.block])])
    ensures Cells(s'.sets) && Published(s'.sets) == Published(s.sets)
  {
    var p, p' := Published(s.sets), Published(s'.sets);
    forall i | 0 <= i < |p| ensures p[i] == p'[i] {
      assert p'[i] == s'.sets[i].items[..s'.sets[i].used];
    }
  }

  lemma PublishOk(l: Layout, s: Shared, e: Entry, j: nat, u: nat, s': Shared)
    requires SharedOk(l, s) && e.block in s.marks
    requires WorkOk(l, s, InsertPublish(e, j, u))
    requires s' == s.(sets := s.sets[j := s.sets[j].(used := s.sets[j].used + 1)])
    ensures SharedOk(l, s') && Grows(Published(s.sets), Published(s'.sets)) && Registered(Published(s'.sets), e.block)
    ensures Adds(l, Published(s.sets), e.block, Published(s'.sets))
    ensures forall b :: Registered(Published(s'.sets), b) ==> Registered(Published(s.sets), b) || b == e.block
  {
    hide Shaped, Separate, Fresh, Registered;
    var p := Published(s.sets);
    var p' := Published(s'.sets);
    forall i | 0 <= i < |p| ensures p'[i] == Grown(p, e.block, j)[i] {
      assert p'[i] == s'.sets[i].items[..s'.sets[i].used];
    }
    assert p' == Grown(p, e.block, j);
    SkippedTo(p, e.block, j);
    GrownKeeps(l, p, e.block, j);
  }

  lemma LinkOk(l: Layout, s: Shared, e: Entry, cells: seq<nat>, s': Shared)
    requires SharedOk(l, s) && e.block in s.marks && Fresh(l, Published(s.sets), e.block)
    requires Skips(Published(s.sets), e.block, |s.sets|)
    requires |cells| == BLOCKSET_SIZE && cells[0] == e.block
    requires s' == s.(sets := s.sets + [Blockset(cells, 1)])
    ensures SharedOk(l, s') && Grows(Published(s.sets), Published(s'.sets)) && Registered(Published(s'.sets), e.block)
    ensures Adds(l, Published(s.sets), e.block, Published(s'.sets))
    ensures forall b :: Registered(Published(s'.sets), b) ==> Registered(Published(s.sets), b) || b == e.block
  {
    hide Shaped, Separate, Fresh, Registered;
    var p, p' := Published(s.sets), Published(s'.sets);
    forall i | 0 <= i < |p'| ensures p'[i] == Grown(p, e.block, |p|)[i] {
      assert p'[i] == s'.sets[i].items[..s'.sets[i].used];
    }
    assert p' == Grown(p, e.block, |p|);
    SkippedTo(p, e.block, |p|);
    GrownKeeps(l, p, e.block, |p|);
  }

  // ---------- What a step promises to the other threads ----------

  predicate Marked(s: Shared, e: Entry) {
    e.block in s.marks && e.index in s.marks[e.block]
  }

  /** The block is new, and goes where insertion on values puts it. */
  ghost predicate Adds(l: Layout, p: Blocksets, block: nat, p': Blocksets) {
    Fresh(l, p, block) && p' == Inserted(p, block)
  }

  /** Shared memory stays in order, cells and marks of others stay, and the mutex stays with its holder. */
  ghost predicate Guarantee(l: Layout, s: Shared, t: nat, mine: Option<Entry>, s': Shared)
    requires SharedOk(l, s)
  {
    && SharedOk(l, s') && Grows(Published(s.sets), Published(s'.sets))
    && (forall u :: u != t ==> (s'.lock == Some(u) <==> s.lock == Some(u)))
    && (s.lock == Some(t) || s'.sets == s.sets)
    && (forall b :: b in s.marks ==> b in s'.marks)
    && (forall e: Entry :: Marked(s, e) && Some(e) != mine
              && (s.lock != Some(t) || Registered(Published(s.sets), e.block))
          ==> Marked(s', e))
    && (s.lock != Some(t) ==> KeepsUnpublished(s, s'))
    && (|| Published(s'.sets) == Published(s.sets)
        || (mine.Some? && Adds(l, Published(s.sets), mine.value.block, Published(s'.sets))))
  }

  /** An entry that a step reserves is one nobody had. */
  ghost predicate HoldsNew(l: Layout, t: nat, s: Shared, pc: Pc, pc': Pc)
    requires SharedOk(l, s)
  {
    Held(pc').Some? && Held(pc') != Held(pc) ==>
      && (!Marked(s, Held(pc').value) || (s.lock == Some(t) && !Registered(Published(s.sets), Held(pc').value.block)))
      && 0 <= Held(pc').value.index < l.allocCount
  }

  lemma NothingChanges(l: Layout, s: Shared, t: nat, mine: Option<Entry>)
    requires SharedOk(l, s)
    ensures Guarantee(l, s, t, mine, s)
  {
  }

  lemma HintMoves(l: Layout, s: Shared, t: nat, mine: Option<Entry>, b: nat)
    requires SharedOk(l, s) && Registered(Published(s.sets), b)
    ensures Guarantee(l, s, t, mine, s.(hint := b))
  {
    hide Registered, Separate, Shaped;
    SameSets(l, s, s.(hint := b));
  }

  lemma TakesOk(l: Layout, s: Shared, t: nat, mine: Option<Entry>, e: Entry, s': Shared)
    requires SharedOk(l, s) && Takes(l, s, e, s') && Registered(Published(s.sets), e.block)
    ensures Guarantee(l, s, t, mine, s') && s'.sets == s.sets && Marked(s', e) && !Marked(s, e)
  {
    hide Registered, Separate, Shaped;
    SameSets(l, s, s');
  }

  /** A mark in a published block afterwards is the thread's own, or was there before and is not one it gave up. */
  ghost predicate Settles(s: Shared, pc: Pc, s': Shared, pc': Pc)
    requires Cells(s.sets) && Cells(s'.sets)
  {
    forall e: Entry :: Registered(Published(s'.sets), e.block) && Marked(s', e) ==>
      || Held(pc') == Some(e)
      || (Registered(Published(s.sets), e.block) && Marked(s, e) && Held(pc) != Some(e))
  }

  /** Everything a step must establish. */
  ghost predicate StepOk(l: Layout, t: nat, s: Shared, pc: Pc, s': Shared, pc': Pc)
    requires SharedOk(l, s)
  {
    Guarantee(l, s, t, Held(pc), s') && ThreadOk(l, s', t, pc') && HoldsNew(l, t, s, pc, pc') && Settles(s, pc, s', pc')
  }

  lemma ScanStepOk(l: Layout, t: nat, s: Shared, pc: Pc, s': Shared, pc': Pc)
    requires SharedOk(l, s) && ThreadOk(l, s, t, pc) && ScanStep(l, t, s, pc, s', pc')
    ensures StepOk(l, t, s, pc, s', pc')
  {
    hide SharedOk, ThreadOk, ScanStep, StepOk;
    assert Cells(s.sets) by { SharedParts(l, s); }
    match pc
    case ReadHint => ReadHintOk(l, t, s, s', pc');
    case TryHint(h) => TryHintOk(l, t, s, h, s', pc');
    case ScanUsed(h, j) => ScanUsedOk(l, t, s, h, j, s', pc');
    case ScanItem(h, j, u, i) => ScanItemOk(l, t, s, h, j, u, i, s', pc');
    case ScanTry(h, j, u, i, b) => ScanTryOk(l, t, s, h, j, u, i, b, s', pc');
    case ReadHintAfterScan(e) => ReadHintAfterScanOk(l, t, s, e, s', pc');
    case MoveHintAfterScan(e, h) => MoveHintAfterScanOk(l, t, s, e, h, s', pc');
    case WantLock(h) => WantLockOk(l, t, s, h, s', pc');
    case Recheck(h) => RecheckOk(l, t, s, h, s', pc');
    case RereadHint => RereadHintOk(l, t, s, s', pc');
    case RetryHint(b) => RetryHintOk(l, t, s, b, s', pc');
    case _ => OnlyScans(l, t, s, pc, s', pc');
  }

  lemma OnlyScans(l: Layout, t: nat, s: Shared, pc: Pc, s': Shared, pc': Pc)
    requires Cells(s.sets) && ScanStep(l, t, s, pc, s', pc')
    ensures pc.ReadHint? || pc.TryHint? || pc.ScanUsed? || pc.ScanItem? || pc.ScanTry? || pc.ReadHintAfterScan?
            || pc.MoveHintAfterScan? || pc.WantLock? || pc.Recheck? || pc.RereadHint? || pc.RetryHint?
  {
  }

  lemma ReadHintOk(l: Layout, t: nat, s: Shared, s': Shared, pc': Pc)
    requires SharedOk(l, s) && ThreadOk(l, s, t, ReadHint) && ScanStep(l, t, s, ReadHint, s', pc')
    ensures StepOk(l, t, s, ReadHint, s', pc')
  {
    hide Registered, Separate, Shaped, Fresh, Guarantee, Skips;
    NothingChanges(l, s, t, None);
  }

  lemma TryHintOk(l: Layout, t: nat, s: Shared, h: nat, s': Shared, pc': Pc)
    requires SharedOk(l, s) && ThreadOk(l, s, t, TryHint(h)) && ScanStep(l, t, s, TryHint(h), s', pc')
    ensures StepOk(l, t, s, TryHint(h), s', pc')
  {
    hide Registered, Separate, Shaped, Fresh, Guarantee, Skips;
    NothingChanges(l, s, t, None);
    if pc'.Return? { TakesOk(l, s, t, None, pc'.taken, s'); }
  }

  lemma ScanUsedOk(l: Layout, t: nat, s: Shared, h: nat, j: nat, s': Shared, pc': Pc)
    requires SharedOk(l, s) && ThreadOk(l, s, t, ScanUsed(h, j)) && ScanStep(l, t, s, ScanUsed(h, j), s', pc')
    ensures StepOk(l, t, s, ScanUsed(h, j), s', pc')
  {
    hide Registered, Separate, Shaped, Fresh, Guarantee, Skips;
    NothingChanges(l, s, t, None);
  }

  lemma ScanItemOk(l: Layout, t: nat, s: Shared, h: nat, j: nat, u: nat, i: nat, s': Shared, pc': Pc)
    requires SharedOk(l, s) && ThreadOk(l, s, t, ScanItem(h, j, u, i))
    requires ScanStep(l, t, s, ScanItem(h, j, u, i), s', pc')
    ensures StepOk(l, t, s, ScanItem(h, j, u, i), s', pc')
  {
    hide Registered, Separate, Shaped, Fresh, Guarantee, Skips;
    NothingChanges(l, s, t, None);
    if i < u { ItemRegistered(s, j, i); }
  }

  lemma ScanTryOk(l: Layout, t: nat, s: Shared, h: nat, j: nat, u: nat, i: nat, b: nat, s': Shared, pc': Pc)
    requires SharedOk(l, s) && ThreadOk(l, s, t, ScanTry(h, j, u, i, b))
    requires ScanStep(l, t, s, ScanTry(h, j, u, i, b), s', pc')
    ensures StepOk(l, t, s, ScanTry(h, j, u, i, b), s', pc')
  {
    hide Registered, Separate, Shaped, Fresh, Guarantee, Skips;
    NothingChanges(l, s, t, None);
    if pc'.ReadHintAfterScan? { TakesOk(l, s, t, None, pc'.taken, s'); }
  }

  lemma ReadHintAfterScanOk(l: Layout, t: nat, s: Shared, e: Entry, s': Shared, pc': Pc)
    requires SharedOk(l, s) && ThreadOk(l, s, t, ReadHintAfterScan(e))
    requires ScanStep(l, t, s, ReadHintAfterScan(e), s', pc')
    ensures StepOk(l, t, s, ReadHintAfterScan(e), s', pc')
  {
    hide Registered, Separate, Shaped, Fresh, Guarantee, Skips;
    NothingChanges(l, s, t, Some(e));
  }

  lemma MoveHintAfterScanOk(l: Layout, t: nat, s: Shared, e: Entry, h: nat, s': Shared, pc': Pc)
    requires SharedOk(l, s) && ThreadOk(l, s, t, MoveHintAfterScan(e, h))
    requires ScanStep(l, t, s, MoveHintAfterScan(e, h), s', pc')
    ensures StepOk(l, t, s, MoveHintAfterScan(e, h), s', pc')
  {
    hide Registered, Separate, Shaped, Fresh, Guarantee, Skips;
    NothingChanges(l, s, t, Some(e));
    HintMoves(l, s, t, Some(e), e.block);
  }

  lemma WantLockOk(l: Layout, t: nat, s: Shared, h: nat, s': Shared, pc': Pc)
    requires SharedOk(l, s) && ThreadOk(l, s, t, WantLock(h)) && ScanStep(l, t, s, WantLock(h), s', pc')
    ensures StepOk(l, t, s, WantLock(h), s', pc')
  {
    hide Registered, Separate, Shaped, Fresh, Guarantee, Skips;
    LockTaken(l, s, t, None);
  }

  lemma RereadHintOk(l: Layout, t: nat, s: Shared, s': Shared, pc': Pc)
    requires SharedOk(l, s) && ThreadOk(l, s, t, RereadHint) && ScanStep(l, t, s, RereadHint, s', pc')
    ensures StepOk(l, t, s, RereadHint, s', pc')
  {
    hide Registered, Separate, Shaped, Fresh, Guarantee, Skips;
    NothingChanges(l, s, t, None);
  }

  lemma RecheckOk(l: Layout, t: nat, s: Shared, h: nat, s': Shared, pc': Pc)
    requires SharedOk(l, s) && ThreadOk(l, s, t, Recheck(h)) && ScanStep(l, t, s, Recheck(h), s', pc')
    ensures StepOk(l, t, s, Recheck(h), s', pc')
  {
    hide Registered, Separate, Shaped, Fresh, Guarantee, Skips;
    NothingChanges(l, s, t, None);
  }

  lemma RetryHintOk(l: Layout, t: nat, s: Shared, b: nat, s': Shared, pc': Pc)
    requires SharedOk(l, s) && ThreadOk(l, s, t, RetryHint(b)) && ScanStep(l, t, s, RetryHint(b), s', pc')
    ensures StepOk(l, t, s, RetryHint(b), s', pc')
  {
    hide Registered, Separate, Shaped, Fresh, Guarantee, Skips;
    NothingChanges(l, s, t, None);
    if pc'.Unlock? && pc'.outcome.Some? { TakesOk(l, s, t, None, pc'.outcome.value, s'); }
  }

  lemma InsertStepOk(l: Layout, t: nat, s: Shared, pc: Pc, s': Shared, pc': Pc)
    requires SharedOk(l, s) && ThreadOk(l, s, t, pc) && InsertStep(l, s, pc, s', pc')
    ensures StepOk(l, t, s, pc, s', pc')
  {
    hide SharedOk, ThreadOk, InsertStep, StepOk;
    assert Cells(s.sets) by { SharedParts(l, s); }
    match pc
    case MakeBlock => MakeBlockOk(l, t, s, s', pc');
    case InsertUsed(e, j) => InsertUsedOk(l, t, s, e, j, s', pc');
    case InsertTop(e, j, u) => InsertTopOk(l, t, s, e, j, u, s', pc');
    case InsertWrite(e, j, u) => InsertWriteOk(l, t, s, e, j, u, s', pc');
    case InsertPublish(e, j, u) => InsertPublishOk(l, t, s, e, j, u, s', pc');
    case InsertNext(e, j) => InsertNextOk(l, t, s, e, j, s', pc');
    case InsertLink(e) => InsertLinkOk(l, t, s, e, s', pc');
    case SetHint(e) => SetHintOk(l, t, s, e, s', pc');
    case Unlock(r) => UnlockOk(l, t, s, r, s', pc');
    case _ => OnlyInserts(l, s, pc, s', pc');
  }

  lemma OnlyInserts(l: Layout, s: Shared, pc: Pc, s': Shared, pc': Pc)
    requires Cells(s.sets) && InsertStep(l, s, pc, s', pc')
    ensures pc.MakeBlock? || pc.InsertUsed? || pc.InsertTop? || pc.InsertWrite?
            || pc.InsertPublish? || pc.InsertNext? || pc.InsertLink? || pc.SetHint? || pc.Unlock?
  {
  }

  lemma MakeBlockOk(l: Layout, t: nat, s: Shared, s': Shared, pc': Pc)
    requires SharedOk(l, s) && ThreadOk(l, s, t, MakeBlock) && InsertStep(l, s, MakeBlock, s', pc')
    ensures StepOk(l, t, s, MakeBlock, s', pc')
  {
    hide Registered, Separate, Shaped, Fresh, Guarantee, Skips;
    NothingChanges(l, s, t, None);
    if pc'.InsertUsed? {
      BlockMade(l, s, t, pc'.taken, s');
      SkipNone(Published(s.sets), pc'.taken.block);
    }
  }

  lemma InsertUsedOk(l: Layout, t: nat, s: Shared, e: Entry, j: nat, s': Shared, pc': Pc)
    requires SharedOk(l, s) && ThreadOk(l, s, t, InsertUsed(e, j)) && InsertStep(l, s, InsertUsed(e, j), s', pc')
    ensures StepOk(l, t, s, InsertUsed(e, j), s', pc')
  {
    hide Registered, Separate, Shaped, Fresh, Guarantee, Skips;
    NothingChanges(l, s, t, Some(e));
    if pc'.InsertNext? { SkipOne(Published(s.sets), e.block, j); }
  }

  lemma InsertTopOk(l: Layout, t: nat, s: Shared, e: Entry, j: nat, u: nat, s': Shared, pc': Pc)
    requires SharedOk(l, s) && ThreadOk(l, s, t, InsertTop(e, j, u)) && InsertStep(l, s, InsertTop(e, j, u), s', pc')
    ensures StepOk(l, t, s, InsertTop(e, j, u), s', pc')
  {
    hide Registered, Separate, Shaped, Fresh, Guarantee, Skips;
    NothingChanges(l, s, t, Some(e));
    assert Published(s.sets)[j][u - 1] == s.sets[j].items[u - 1];
    if pc'.InsertNext? { SkipOne(Published(s.sets), e.block, j); }
  }

  lemma InsertWriteOk(l: Layout, t: nat, s: Shared, e: Entry, j: nat, u: nat, s': Shared, pc': Pc)
    requires SharedOk(l, s) && ThreadOk(l, s, t, InsertWrite(e, j, u))
    requires InsertStep(l, s, InsertWrite(e, j, u), s', pc')
    ensures StepOk(l, t, s, InsertWrite(e, j, u), s', pc')
  {
    hide Registered, Separate, Shaped, Fresh, Guarantee, Skips;
    WriteOk(l, s, e, j, u, s');
    WriteGuarantee(l, s, t, Some(e), s');
  }

  lemma InsertPublishOk(l: Layout, t: nat, s: Shared, e: Entry, j: nat, u: nat, s': Shared, pc': Pc)
    requires SharedOk(l, s) && ThreadOk(l, s, t, InsertPublish(e, j, u))
    requires InsertStep(l, s, InsertPublish(e, j, u), s', pc')
    ensures StepOk(l, t, s, InsertPublish(e, j, u), s', pc')
  {
    hide Registered, Separate, Shaped, Fresh, Guarantee, Skips;
    PublishOk(l, s, e, j, u, s');
    GrowthGuarantee(l, s, t, Some(e), s');
  }

  lemma InsertNextOk(l: Layout, t: nat, s: Shared, e: Entry, j: nat, s': Shared, pc': Pc)
    requires SharedOk(l, s) && ThreadOk(l, s, t, InsertNext(e, j)) && InsertStep(l, s, InsertNext(e, j), s', pc')
    ensures StepOk(l, t, s, InsertNext(e, j), s', pc')
  {
    hide Registered, Separate, Shaped, Fresh, Guarantee, Skips;
    NothingChanges(l, s, t, Some(e));
  }

  lemma InsertLinkOk(l: Layout, t: nat, s: Shared, e: Entry, s': Shared, pc': Pc)
    requires SharedOk(l, s) && ThreadOk(l, s, t, InsertLink(e)) && InsertStep(l, s, InsertLink(e), s', pc')
    ensures StepOk(l, t, s, InsertLink(e), s', pc')
  {
    hide Registered, Separate, Shaped, Fresh, Guarantee, Skips;
    NothingChanges(l, s, t, Some(e));
    FreshIsUnpublished(l, Published(s.sets), e.block);
    if pc'.SetHint? {
      var cells: seq<nat> :| |cells| == BLOCKSET_SIZE && cells[0] == e.block
        && s' == s.(sets := s.sets + [Blockset(cells, 1)]);
      LinkOk(l, s, e, cells, s');
      GrowthGuarantee(l, s, t, Some(e), s');
    }
  }

  lemma SetHintOk(l: Layout, t: nat, s: Shared, e: Entry, s': Shared, pc': Pc)
    requires SharedOk(l, s) && ThreadOk(l, s, t, SetHint(e)) && InsertStep(l, s, SetHint(e), s', pc')
    ensures StepOk(l, t, s, SetHint(e), s', pc')
  {
    hide Registered, Separate, Shaped, Fresh, Guarantee, Skips;
    HintMoves(l, s, t, Some(e), e.block);
  }

  lemma UnlockOk(l: Layout, t: nat, s: Shared, r: Option<Entry>, s': Shared, pc': Pc)
    requires SharedOk(l, s) && ThreadOk(l, s, t, Unlock(r)) && InsertStep(l, s, Unlock(r), s', pc')
    ensures StepOk(l, t, s, Unlock(r), s', pc')
  {
    hide Registered, Separate, Shaped, Fresh, Guarantee, Skips;
    LockTaken(l, s, t, r);
  }

  lemma FreeStepOk(l: Layout, t: nat, s: Shared, pc: Pc, s': Shared, pc': Pc)
    requires SharedOk(l, s) && ThreadOk(l, s, t, pc) && FreeStep(l, s, pc, s', pc')
    ensures StepOk(l, t, s, pc, s', pc')
  {
    hide SharedOk, ThreadOk, FreeStep, StepOk;
    assert Cells(s.sets) by { SharedParts(l, s); }
    match pc
    case FindDone(q, r) => FindDoneOk(l, t, s, q, r, s', pc');
    case ClearEntry(q, b) => ClearEntryOk(l, t, s, q, b, s', pc');
    case ReadHintAfterFree(b) => ReadHintAfterFreeOk(l, t, s, b, s', pc');
    case MoveHintAfterFree(b, h) => MoveHintAfterFreeOk(l, t, s, b, h, s', pc');
    case _ => OnlyFrees(l, s, pc, s', pc');
  }

  lemma OnlyFrees(l: Layout, s: Shared, pc: Pc, s': Shared, pc': Pc)
    requires Cells(s.sets) && FreeStep(l, s, pc, s', pc')
    ensures pc.FindDone? || pc.ClearEntry? || pc.ReadHintAfterFree? || pc.MoveHintAfterFree?
  {
  }

  lemma FindDoneOk(l: Layout, t: nat, s: Shared, q: Query, r: Option<nat>, s': Shared, pc': Pc)
    requires SharedOk(l, s) && ThreadOk(l, s, t, FindDone(q, r)) && FreeStep(l, s, FindDone(q, r), s', pc')
    ensures StepOk(l, t, s, FindDone(q, r), s', pc')
  {
    hide Registered, Separate, Shaped, Fresh, Guarantee, Skips;
    NothingChanges(l, s, t, q.freeing);
  }

  lemma ClearEntryOk(l: Layout, t: nat, s: Shared, q: Query, b: nat, s': Shared, pc': Pc)
    requires SharedOk(l, s) && ThreadOk(l, s, t, ClearEntry(q, b)) && FreeStep(l, s, ClearEntry(q, b), s', pc')
    ensures StepOk(l, t, s, ClearEntry(q, b), s', pc')
  {
    hide Registered, Separate, Shaped, Fresh, Guarantee, Skips;
    Cleared(l, s, t, q, b, s');
  }

  lemma ReadHintAfterFreeOk(l: Layout, t: nat, s: Shared, b: nat, s': Shared, pc': Pc)
    requires SharedOk(l, s) && ThreadOk(l, s, t, ReadHintAfterFree(b)) && FreeStep(l, s, ReadHintAfterFree(b), s', pc')
    ensures StepOk(l, t, s, ReadHintAfterFree(b), s', pc')
  {
    hide Registered, Separate, Shaped, Fresh, Guarantee, Skips;
    NothingChanges(l, s, t, None);
  }

  lemma MoveHintAfterFreeOk(l: Layout, t: nat, s: Shared, b: nat, h: nat, s': Shared, pc': Pc)
    requires SharedOk(l, s) && ThreadOk(l, s, t, MoveHintAfterFree(b, h))
    requires FreeStep(l, s, MoveHintAfterFree(b, h), s', pc')
    ensures StepOk(l, t, s, MoveHintAfterFree(b, h), s', pc')
  {
    hide Registered, Separate, Shaped, Fresh, Guarantee, Skips;
    NothingChanges(l, s, t, None);
    HintMoves(l, s, t, None, b);
  }

  /** A new block is nobody else's. */
  lemma BlockMade(l: Layout, s: Shared, t: nat, e: Entry, s': Shared)
    requires SharedOk(l, s) && Fresh(l, Published(s.sets), e.block) && s.lock == Some(t)
    requires s' == s.(marks := s.marks[e.block := {e.index}])
    ensures Guarantee(l, s, t, None, s') && Marked(s', e) && !Registered(Published(s.sets), e.block)
  {
    SameSets(l, s, s');
  }

  lemma WriteGuarantee(l: Layout, s: Shared, t: nat, mine: Option<Entry>, s': Shared)
    requires SharedOk(l, s) && Cells(s'.sets) && Published(s'.sets) == Published(s.sets) && |s'.sets| == |s.sets|
    requires s'.hint == s.hint && s'.marks == s.marks && s'.lock == s.lock == Some(t)
    ensures Guarantee(l, s, t, mine, s')
  {
  }

  lemma GrowthGuarantee(l: Layout, s: Shared, t: nat, mine: Option<Entry>, s': Shared)
    requires SharedOk(l, s) && SharedOk(l, s') && Grows(Published(s.sets), Published(s'.sets))
    requires s'.marks == s.marks && s'.lock == s.lock == Some(t)
    requires mine.Some? && Adds(l, Published(s.sets), mine.value.block, Published(s'.sets))
    ensures Guarantee(l, s, t, mine, s')
  {
  }

  lemma Cleared(l: Layout, s: Shared, t: nat, q: Query, b: nat, s': Shared)
    requires SharedOk(l, s) && b in s.marks && q.freeing.Some? && q.freeing.value.block == b
    requires Registered(Published(s.sets), b)
    requires 0 <= q.freeing.value.index < l.allocCount && q.ptr == l.Slot(b, q.freeing.value.index)
    requires s' == s.(marks := s.marks[b := s.marks[b] - {(q.ptr - l.Data(b)) / l.elementSize}])
    ensures Guarantee(l, s, t, q.freeing, s') && !Marked(s', q.freeing.value)
  {
    hide Registered, Separate, Shaped;
    SlotIndex(l, b, q.freeing.value.index);
    SameSets(l, s, s');
    assert forall e: Entry :: Marked(s, e) && e != q.freeing.value ==> Marked(s', e);
  }

  lemma ItemRegistered(s: Shared, j: nat, i: nat)
    requires Cells(s.sets) && j < |s.sets| && i < s.sets[j].used
    ensures Registered(Published(s.sets), s.sets[j].items[i])
  {
    assert Published(s.sets)[j][i] == s.sets[j].items[i];
  }

  lemma LockTaken(l: Layout, s: Shared, t: nat, mine: Option<Entry>)
    requires SharedOk(l, s)
    ensures s.lock == None ==> Guarantee(l, s, t, mine, s.(lock := Some(t)))
    ensures s.lock == Some(t) ==> Guarantee(l, s, t, mine, s.(lock := None))
  {
    hide Registered, Separate, Shaped;
    SameSets(l, s, s.(lock := Some(t)));
    SameSets(l, s, s.(lock := None));
  }

  // ---------- All threads together ----------

  /** Shared memory, the threads, and the elements that callers hold. */
  datatype World = World(shared: Shared, pcs: map<nat, Pc>, live: set<Entry>)

  ghost predicate LiveOk(l: Layout, s: Shared, e: Entry)
    requires Cells(s.sets)
  {
    Registered(Published(s.sets), e.block) && 0 <= e.index < l.allocCount && Marked(s, e)
  }

  /** Nobody else holds an entry that a caller or a thread holds. */
  ghost predicate Exclusive(l: Layout, pcs: map<nat, Pc>, live: set<Entry>) {
    && (forall t :: t in pcs && Held(pcs[t]).Some? ==>
          Held(pcs[t]).value !in live && 0 <= Held(pcs[t]).value.index < l.allocCount)
    && (forall t, u :: t in pcs && u in pcs && t != u && Held(pcs[t]).Some? ==> Held(pcs[t]) != Held(pcs[u]))
  }

  /** Every mark in a published block is that of an element a caller or a thread holds. */
  ghost predicate Owned(w: World)
    requires Cells(w.shared.sets)
  {
    forall e: Entry :: Registered(Published(w.shared.sets), e.block) && Marked(w.shared, e) ==>
      e in w.live || exists t :: t in w.pcs && Held(w.pcs[t]) == Some(e)
  }

  ghost predicate Invariant(l: Layout, w: World) {
    && SharedOk(l, w.shared)
    && (forall t :: t in w.pcs ==> ThreadOk(l, w.shared, t, w.pcs[t]))
    && (forall e :: e in w.live ==> LiveOk(l, w.shared, e))
    && Exclusive(l, w.pcs, w.live)
    && (w.shared.lock.Some? ==> w.shared.lock.value in w.pcs)
    && Owned(w)
  }

  /** Thread t takes one step of the code it runs. */
  ghost predicate Moves(l: Layout, t: nat, s: Shared, live: set<Entry>, pc: Pc, s': Shared, live': set<Entry>, pc': Pc)
    requires Cells(s.sets)
  {
    || (pc.Idle? && Starts(l, s, live, pc') && s' == s
         && live' == if Held(pc').Some? then live - {Held(pc').value} else live)
    || (FindStep(l, s, pc, pc') && s' == s && live' == live)
    || (FreeStep(l, s, pc, s', pc') && live' == live)
    || (ScanStep(l, t, s, pc, s', pc') && live' == live)
    || (InsertStep(l, s, pc, s', pc') && live' == live)
    || (pc.Return? && pc' == Idle && s' == s && live' == live + {pc.taken})
  }

  ghost predicate Next(l: Layout, w: World, w': World) {
    && Cells(w.shared.sets)
    && exists t, pc' :: t in w.pcs && w'.pcs == w.pcs[t := pc']
                     && Moves(l, t, w.shared, w.live, w.pcs[t], w'.shared, w'.live, pc')
  }

  /** A step of a called function: it reserves or gives up its own entry only. */
  lemma CallStepKeeps(l: Layout, w: World, t: nat, pc': Pc, s': Shared)
    requires Invariant(l, w) && t in w.pcs && StepOk(l, t, w.shared, w.pcs[t], s', pc')
    ensures Invariant(l, World(s', w.pcs[t := pc'], w.live))
  {
    hide SharedOk, FindOk, WorkOk, Registered, Grows;
    var s, pc := w.shared, w.pcs[t];
    var w' := World(s', w.pcs[t := pc'], w.live);
    assert Cells(s.sets) && Cells(s'.sets) by { SharedParts(l, s); SharedParts(l, s'); }
    forall u | u in w'.pcs ensures ThreadOk(l, s', u, w'.pcs[u]) {
      if u != t {
        OtherThread(l, w, t, u, s');
      }
    }
    forall e | e in w.live ensures LiveOk(l, s', e) {
      GrowsKeeps(Published(s.sets), Published(s'.sets), e.block);
    }
    HeldStaysExclusive(l, w, t, pc');
    OwnedStays(w, t, pc', s');
  }

  lemma OwnedStays(w: World, t: nat, pc': Pc, s': Shared)
    requires Cells(w.shared.sets) && Cells(s'.sets) && Owned(w) && t in w.pcs && Settles(w.shared, w.pcs[t], s', pc')
    ensures Owned(World(s', w.pcs[t := pc'], w.live))
  {
    hide Registered, Marked, Held;
    var w' := World(s', w.pcs[t := pc'], w.live);
    forall e: Entry | Registered(Published(s'.sets), e.block) && Marked(s', e)
      ensures e in w'.live || exists u :: u in w'.pcs && Held(w'.pcs[u]) == Some(e)
    {
      if Held(pc') == Some(e) {
        assert w'.pcs[t] == pc';
      } else if e !in w.live {
        var u :| u in w.pcs && Held(w.pcs[u]) == Some(e);
        assert w'.pcs[u] == w.pcs[u];
      }
    }
  }

  lemma OtherThread(l: Layout, w: World, t: nat, u: nat, s': Shared)
    requires Invariant(l, w) && t in w.pcs && u in w.pcs && u != t
    requires Guarantee(l, w.shared, t, Held(w.pcs[t]), s')
    ensures Cells(s'.sets) && ThreadOk(l, s', u, w.pcs[u])
  {
    hide FindOk, WorkOk, Registered, Grows, SharedOk;
    SharedParts(l, w.shared);
    SharedParts(l, s');
    if Held(w.pcs[u]).Some? {
      HeldIsRegistered(l, w, t, u, s');
    }
    ThreadOkStable(l, w.shared, s', u, w.pcs[u]);
  }

  /** An entry held without the mutex is in a published block, so other threads leave its mark alone. */
  lemma HeldIsRegistered(l: Layout, w: World, t: nat, u: nat, s': Shared)
    requires Invariant(l, w) && t in w.pcs && u in w.pcs && u != t && Held(w.pcs[u]).Some?
    requires Guarantee(l, w.shared, t, Held(w.pcs[t]), s')
    ensures Marked(s', Held(w.pcs[u]).value)
  {
    hide SharedOk, FindOk, WorkOk, Registered, Grows;
    SharedParts(l, w.shared);
    if !Locks(w.pcs[u]) {
      HeldRegistered(l, w.shared, u, w.pcs[u]);
    }
  }

  lemma HeldRegistered(l: Layout, s: Shared, t: nat, pc: Pc)
    requires Cells(s.sets) && ThreadOk(l, s, t, pc) && Held(pc).Some? && !Locks(pc)
    ensures Registered(Published(s.sets), Held(pc).value.block)
  {
  }

  lemma HeldStaysExclusive(l: Layout, w: World, t: nat, pc': Pc)
    requires Invariant(l, w) && t in w.pcs && HoldsNew(l, t, w.shared, w.pcs[t], pc')
    ensures Exclusive(l, w.pcs[t := pc'], w.live)
  {
    hide SharedOk, FindOk, WorkOk, Registered;
    SharedParts(l, w.shared);
    if Held(pc').Some? && Held(pc') != Held(w.pcs[t]) {
      forall u | u in w.pcs && u != t && Held(w.pcs[u]).Some? ensures Held(w.pcs[u]) != Held(pc') {
        if !Locks(w.pcs[u]) {
          HeldRegistered(l, w.shared, u, w.pcs[u]);
        }
      }
    }
  }

  // ---------- Calls and returns ----------

  /** An element in use is found where its block is. */
  lemma LiveIsTarget(l: Layout, p: Blocksets, e: Entry, q: Query)
    requires l.Valid() && Separate(l, p) && Registered(p, e.block) && 0 <= e.index < l.allocCount
    requires q.ptr == l.Slot(e.block, e.index) && Targets(l, p, q)
    ensures q.target.Some? && p[q.target.value.set_][q.target.value.item] == e.block
  {
    SlotInside(l, e.block, e.index);
    if q.target.Some? {
      var i, k :| 0 <= i < |p| && 0 <= k < |p[i]| && p[i][k] == e.block;
      OneContains(l, p, q.ptr, q.target.value.set_, q.target.value.item, i, k);
    }
  }

  /** An element that changes hands between a caller and a thread stays owned. */
  lemma OwnedPasses(w: World, t: nat, pc': Pc, live': set<Entry>)
    requires Cells(w.shared.sets) && Owned(w) && t in w.pcs
    requires forall e :: e in w.live || Held(w.pcs[t]) == Some(e) ==> e in live' || Held(pc') == Some(e)
    ensures Owned(World(w.shared, w.pcs[t := pc'], live'))
  {
    hide Registered, Marked, Held;
    var w' := World(w.shared, w.pcs[t := pc'], live');
    forall e: Entry | Registered(Published(w.shared.sets), e.block) && Marked(w.shared, e)
      ensures e in live' || exists u :: u in w'.pcs && Held(w'.pcs[u]) == Some(e)
    {
      if e !in live' {
        if Held(pc') == Some(e) {
          assert w'.pcs[t] == pc';
        } else {
          var u :| u in w.pcs && Held(w.pcs[u]) == Some(e);
          assert w'.pcs[u] == w.pcs[u];
        }
      }
    }
  }

  lemma StartKeeps(l: Layout, w: World, t: nat, pc': Pc)
    requires Invariant(l, w) && t in w.pcs && w.pcs[t].Idle? && Starts(l, w.shared, w.live, pc')
    ensures var live := if Held(pc').Some? then w.live - {Held(pc').value} else w.live;
            Invariant(l, World(w.shared, w.pcs[t := pc'], live))
  {
    hide SharedOk, Registered, Separate, Shaped, Targets;
    SharedParts(l, w.shared);
    StartOk(l, w, t, pc');
    OwnedPasses(w, t, pc', if Held(pc').Some? then w.live - {Held(pc').value} else w.live);
    hide Owned;
  }

  lemma StartOk(l: Layout, w: World, t: nat, pc': Pc)
    requires Invariant(l, w) && t in w.pcs && w.pcs[t].Idle? && Starts(l, w.shared, w.live, pc')
    ensures ThreadOk(l, w.shared, t, pc')
  {
    hide SharedOk, Registered, Separate, Shaped;
    SharedParts(l, w.shared);
    if Held(pc').Some? {
      assert LiveOk(l, w.shared, Held(pc').value);
      LiveIsTarget(l, Published(w.shared.sets), Held(pc').value, pc'.q);
    }
  }

  lemma ReturnKeeps(l: Layout, w: World, t: nat)
    requires Invariant(l, w) && t in w.pcs && w.pcs[t].Return?
    ensures Invariant(l, World(w.shared, w.pcs[t := Idle], w.live + {w.pcs[t].taken}))
  {
    hide SharedOk, Registered, Separate, Shaped, FindOk;
    SharedParts(l, w.shared);
    assert ThreadOk(l, w.shared, t, w.pcs[t]);
    assert LiveOk(l, w.shared, w.pcs[t].taken);
    IdleOk(l, w.shared, t, w.pcs[t]);
    OwnedPasses(w, t, Idle, w.live + {w.pcs[t].taken});
    hide Owned;
  }

  lemma IdleOk(l: Layout, s: Shared, t: nat, pc: Pc)
    requires Cells(s.sets) && ThreadOk(l, s, t, pc) && !Locks(pc)
    ensures ThreadOk(l, s, t, Idle)
  {
  }

  lemma FindKeeps(l: Layout, w: World, t: nat, pc': Pc)
    requires Invariant(l, w) && t in w.pcs && FindStep(l, w.shared, w.pcs[t], pc')
    ensures StepOk(l, t, w.shared, w.pcs[t], w.shared, pc')
  {
    hide SharedOk, FindStep, FindOk, WorkOk, Held, Locks, Guarantee;
    SharedParts(l, w.shared);
    assert ThreadOk(l, w.shared, t, w.pcs[t]);
    FindStepOk(l, w.shared, w.pcs[t], pc');
    OnlyFinds(l, w.shared, w.pcs[t], pc');
    NothingChanges(l, w.shared, t, Held(w.pcs[t]));
  }

  // ---------- Every run ----------

  /** Every step of every thread keeps the invariant, and published cells in place. */
  lemma NextKeeps(l: Layout, w: World, w': World)
    requires Invariant(l, w) && Next(l, w, w')
    ensures Invariant(l, w')
    ensures Cells(w.shared.sets) && Cells(w'.shared.sets) && Grows(Published(w.shared.sets), Published(w'.shared.sets))
    ensures SameOrAdds(l, Published(w.shared.sets), Published(w'.shared.sets))
  {
    hide SameOrAdds, SharedOk, ThreadOk, FindStep, FreeStep, ScanStep, InsertStep, Starts;
    hide LiveOk, Exclusive, Owned, Guarantee, HoldsNew;
    SharedParts(l, w.shared);
    var t, pc' :| t in w.pcs && w'.pcs == w.pcs[t := pc']
      && Moves(l, t, w.shared, w.live, w.pcs[t], w'.shared, w'.live, pc');
    var s, pc, s' := w.shared, w.pcs[t], w'.shared;
    assert ThreadOk(l, s, t, pc);
    if pc.Idle? && Starts(l, s, w.live, pc') && s' == s
         && w'.live == if Held(pc').Some? then w.live - {Held(pc').value} else w.live {
      StartKeeps(l, w, t, pc');
      NothingChanges(l, s, t, None);
      GuaranteeGrows(l, s, t, None, s');
    } else if pc.Return? && pc' == Idle && s' == s && w'.live == w.live + {pc.taken} {
      ReturnKeeps(l, w, t);
      NothingChanges(l, s, t, None);
      GuaranteeGrows(l, s, t, None, s');
    } else {
      assert w'.live == w.live;
      if FindStep(l, s, pc, pc') && s' == s {
        FindKeeps(l, w, t, pc');
      } else if FreeStep(l, s, pc, s', pc') {
        FreeStepOk(l, t, s, pc, s', pc');
      } else if ScanStep(l, t, s, pc, s', pc') {
        ScanStepOk(l, t, s, pc, s', pc');
      } else {
        InsertStepOk(l, t, s, pc, s', pc');
      }
      CallStepKeeps(l, w, t, pc', s');
      GuaranteeGrows(l, s, t, Held(pc), s');
    }
  }

  lemma GuaranteeGrows(l: Layout, s: Shared, t: nat, mine: Option<Entry>, s': Shared)
    requires SharedOk(l, s) && Guarantee(l, s, t, mine, s')
    ensures Cells(s.sets) && Cells(s'.sets) && Grows(Published(s.sets), Published(s'.sets))
    ensures SameOrAdds(l, Published(s.sets), Published(s'.sets))
  {
    hide Fresh, Inserted, Shaped, Separate, Registered;
  }

  ghost predicate SameOrAdds(l: Layout, p: Blocksets, p': Blocksets) {
    p' == p || exists block :: Adds(l, p, block, p')
  }

  /** The world that area_create leaves: one block in one blockset, and no call under way. */
  ghost predicate Initial(l: Layout, w: World) {
    && l.Valid() && w.live == {} && w.shared.lock == None
    && (forall t :: t in w.pcs ==> w.pcs[t] == Idle)
    && |w.shared.sets| == 1 && |w.shared.sets[0].items| == BLOCKSET_SIZE && w.shared.sets[0].used == 1
    && w.shared.hint == w.shared.sets[0].items[0] && w.shared.hint in w.shared.marks
    && w.shared.marks[w.shared.hint] == {}
  }

  lemma InitialOk(l: Layout, w: World)
    requires Initial(l, w)
    ensures Invariant(l, w)
  {
    hide SharedOk, Registered, Owned;
    FirstBlockShared(l, w);
    SharedParts(l, w.shared);
    FirstBlockOwned(l, w);
  }

  lemma FirstBlockOwned(l: Layout, w: World)
    requires Initial(l, w)
    ensures Owned(w)
  {
    var p := Published(w.shared.sets);
    forall e: Entry | Registered(p, e.block) ensures !Marked(w.shared, e) {
      var i, k :| 0 <= i < |p| && 0 <= k < |p[i]| && p[i][k] == e.block;
      assert p[0] == [w.shared.hint];
    }
  }

  lemma FirstBlockShared(l: Layout, w: World)
    requires Initial(l, w)
    ensures SharedOk(l, w.shared)
  {
    var p := Published(w.shared.sets);
    assert p[0] == [w.shared.hint];
    assert p[0][0] == w.shared.hint;
  }

  ghost predicate IsRun(l: Layout, run: seq<World>) {
    && run != [] && Initial(l, run[0])
    && forall n {:trigger run[n]} :: 0 < n < |run| ==> Next(l, run[n - 1], run[n])
  }

  lemma {:induction false} InvariantOnRuns(l: Layout, run: seq<World>, n: nat)
    requires IsRun(l, run) && n < |run|
    ensures Invariant(l, run[n])
  {
    hide Invariant, Next, Initial;
    if n == 0 {
      InitialOk(l, run[0]);
    } else {
      InvariantOnRuns(l, run, n - 1);
      assert Next(l, run[n - 1], run[n]);
      NextKeeps(l, run[n - 1], run[n]);
    }
  }

  /** In every run, a step that changes the published blocks adds one new block, where insertion on values puts it. */
  lemma ChangesAreInsertions(l: Layout, run: seq<World>, n: nat)
    requires IsRun(l, run) && n + 1 < |run|
    ensures Cells(run[n].shared.sets) && Cells(run[n + 1].shared.sets)
    ensures var (p, p') := (Published(run[n].shared.sets), Published(run[n + 1].shared.sets));
            p' == p || exists block :: Fresh(l, p, block) && p' == Inserted(p, block)
  {
    hide Next, Initial, Invariant, Fresh, Inserted;
    InvariantOnRuns(l, run, n);
    assert Next(l, run[n], run[n + 1]);
    NextKeeps(l, run[n], run[n + 1]);
    var p, p' := Published(run[n].shared.sets), Published(run[n + 1].shared.sets);
    if p' != p {
      var block :| Adds(l, p, block, p');
    }
  }

  /** In every run, exactly the entries that callers and threads hold are marked in the published blocks. */
  lemma MarkedIffOwned(l: Layout, run: seq<World>, n: nat, e: Entry)
    requires IsRun(l, run) && n < |run|
    ensures Cells(run[n].shared.sets)
    ensures Registered(Published(run[n].shared.sets), e.block) ==>
              (Marked(run[n].shared, e) <==>
                 e in run[n].live || exists t :: t in run[n].pcs && Held(run[n].pcs[t]) == Some(e))
  {
    hide Next, Initial, SharedOk, Registered, FindOk, WorkOk, Exclusive;
    InvariantOnRuns(l, run, n);
    var w := run[n];
    SharedParts(l, w.shared);
    if e in w.live {
      assert LiveOk(l, w.shared, e);
    }
    if t :| t in w.pcs && Held(w.pcs[t]) == Some(e) {
      assert ThreadOk(l, w.shared, t, w.pcs[t]);
    }
  }

  /** In every run, the step of a free that clears its entry clears that mark and no other. */
  lemma FreeClears(l: Layout, run: seq<World>, n: nat, t: nat, e: Entry)
    requires IsRun(l, run) && n + 1 < |run| && t in run[n].pcs && t in run[n + 1].pcs
    requires run[n].pcs[t].ClearEntry? && run[n].pcs[t].q.freeing == Some(e) && run[n + 1].pcs[t] != run[n].pcs[t]
    ensures !Marked(run[n + 1].shared, e)
    ensures forall d :: d != e ==> (Marked(run[n + 1].shared, d) <==> Marked(run[n].shared, d))
  {
    hide Initial, SharedOk, Registered, Exclusive, Owned, LiveOk;
    InvariantOnRuns(l, run, n);
    var w, w' := run[n], run[n + 1];
    SharedParts(l, w.shared);
    assert ThreadOk(l, w.shared, t, w.pcs[t]);
    assert Next(l, w, w');
    ClearStep(l, w, w', t);
    SlotIndex(l, e.block, e.index);
  }

  lemma ClearStep(l: Layout, w: World, w': World, t: nat)
    requires Next(l, w, w') && t in w.pcs && w.pcs[t].ClearEntry? && t in w'.pcs && w'.pcs[t] != w.pcs[t]
    ensures FreeStep(l, w.shared, w.pcs[t], w'.shared, w'.pcs[t])
  {
  }

  /** In every run a published cell keeps its block for good. */
  lemma {:induction false} PublishedForGood(l: Layout, run: seq<World>, m: nat, n: nat)
    requires IsRun(l, run) && m <= n < |run|
    ensures Cells(run[m].shared.sets) && Cells(run[n].shared.sets)
    ensures Grows(Published(run[m].shared.sets), Published(run[n].shared.sets))
  {
    hide Next, Initial, ThreadOk, LiveOk, Exclusive;
    InvariantOnRuns(l, run, n);
    if m < n {
      PublishedForGood(l, run, m, n - 1);
      InvariantOnRuns(l, run, n - 1);
      assert Next(l, run[n - 1], run[n]);
      NextKeeps(l, run[n - 1], run[n]);
    }
  }

  /**
   In every run, a lookup that ends has found the block that contained the pointer when it began, if
   there was one; a lookup of area_free has, and the block is the one the element came from.
   */
  lemma LookupsSucceed(l: Layout, run: seq<World>, n: nat, t: nat)
    requires IsRun(l, run) && n < |run| && t in run[n].pcs && run[n].pcs[t].FindDone?
    ensures Cells(run[n].shared.sets)
    ensures var (p, q, r) := (Published(run[n].shared.sets), run[n].pcs[t].q, run[n].pcs[t].found);
            && (q.target.Some? ==> && q.target.value.set_ < |p| && q.target.value.item < |p[q.target.value.set_]|
                                   && r == Some(p[q.target.value.set_][q.target.value.item]))
            && (q.freeing.Some? ==> r == Some(q.freeing.value.block))
            && (r.Some? ==> Registered(p, r.value) && l.Contains(r.value, q.ptr))
  {
    hide Next, Initial, Registered;
    InvariantOnRuns(l, run, n);
    assert ThreadOk(l, run[n].shared, t, run[n].pcs[t]);
  }

  /**
   In every run, a lookup that begins after an element was returned to a caller aims at the block of
   that element, whether or not it has been freed since.
   */
  lemma LaterLookupsAim(l: Layout, run: seq<World>, m: nat, k: nat, t: nat, e: Entry)
    requires IsRun(l, run) && m < k < |run| && e in run[m].live
    requires t in run[k - 1].pcs && run[k - 1].pcs[t].Idle? && t in run[k].pcs && run[k].pcs[t].FindUsed?
    requires run[k].pcs[t].q.ptr == l.Slot(e.block, e.index)
    ensures Cells(run[k].shared.sets)
    ensures var (p, q) := (Published(run[k].shared.sets), run[k].pcs[t].q);
            && q.target.Some? && q.target.value.set_ < |p| && q.target.value.item < |p[q.target.value.set_]|
            && p[q.target.value.set_][q.target.value.item] == e.block
  {
    hide Initial, ThreadOk, Exclusive, SharedOk, Targets, Registered, Separate, Shaped;
    var w, w' := run[k - 1], run[k];
    InvariantOnRuns(l, run, m);
    InvariantOnRuns(l, run, k - 1);
    InvariantOnRuns(l, run, k);
    SharedParts(l, run[m].shared);
    SharedParts(l, w.shared);
    assert LiveOk(l, run[m].shared, e);
    PublishedForGood(l, run, m, k - 1);
    GrowsKeeps(Published(run[m].shared.sets), Published(w.shared.sets), e.block);
    assert Next(l, w, w');
    StartedBy(l, w, w', t);
    LiveIsTarget(l, Published(w.shared.sets), e, w'.pcs[t].q);
    TargetInRange(l, Published(w.shared.sets), w'.pcs[t].q);
  }

  lemma StartedBy(l: Layout, w: World, w': World, t: nat)
    requires Cells(w.shared.sets) && Next(l, w, w') && t in w.pcs && t in w'.pcs && w.pcs[t].Idle?
    requires w'.pcs[t].FindUsed?
    ensures w'.shared == w.shared && Targets(l, Published(w.shared.sets), w'.pcs[t].q)
  {
  }

  lemma TargetInRange(l: Layout, p: Blocksets, q: Query)
    requires Targets(l, p, q) && q.target.Some?
    ensures q.target.value.set_ < |p| && q.target.value.item < |p[q.target.value.set_]|
  {
  }

  /** While a lookup runs, steps of any thread leave its query as it is. */
  lemma StepKeepsQuery(l: Layout, w: World, w': World, t: nat)
    requires Next(l, w, w') && t in w.pcs && IsFind(w.pcs[t])
    ensures t in w'.pcs && (IsFind(w'.pcs[t]) || w'.pcs[t].FindDone?) && w'.pcs[t].q == w.pcs[t].q
  {
  }

  lemma {:induction false} LookupKeepsQuery(l: Layout, run: seq<World>, k: nat, n: nat, t: nat)
    requires IsRun(l, run) && k <= n < |run| && t in run[k].pcs && IsFind(run[k].pcs[t])
    requires forall i :: k <= i < n ==> t in run[i].pcs && IsFind(run[i].pcs[t])
    ensures t in run[n].pcs && (IsFind(run[n].pcs[t]) || run[n].pcs[t].FindDone?)
    ensures run[n].pcs[t].q == run[k].pcs[t].q
  {
    hide Next, Initial;
    if k < n {
      LookupKeepsQuery(l, run, k, n - 1, t);
      assert Next(l, run[n - 1], run[n]);
      StepKeepsQuery(l, run[n - 1], run[n], t);
    }
  }

  /**
   In every run, a lookup that begins after an element was returned to a caller, and asks for the
   address of that element, ends with the block of the element, whether or not it was freed since.
   */
  lemma LaterLookupsFind(l: Layout, run: seq<World>, m: nat, k: nat, n: nat, t: nat, e: Entry)
    requires IsRun(l, run) && m < k <= n < |run| && e in run[m].live
    requires t in run[k - 1].pcs && run[k - 1].pcs[t].Idle? && t in run[k].pcs && run[k].pcs[t].FindUsed?
    requires run[k].pcs[t].q.ptr == l.Slot(e.block, e.index)
    requires forall i :: k <= i < n ==> t in run[i].pcs && IsFind(run[i].pcs[t])
    requires t in run[n].pcs && run[n].pcs[t].FindDone?
    ensures run[n].pcs[t].found == Some(e.block)
  {
    hide Next, Initial, IsRun, Registered;
    LaterLookupsAim(l, run, m, k, t, e);
    LookupKeepsQuery(l, run, k, n, t);
    LookupsSucceed(l, run, n, t);
    PublishedForGood(l, run, k, n);
  }

  // ---------- No thread is ever stuck ----------

  lemma FindRange(l: Layout, s: Shared, pc: Pc)
    requires SharedOk(l, s) && FindOk(l, Published(s.sets), pc) && IsFind(pc)
    ensures Cells(s.sets) && pc.j < |s.sets|
    ensures pc.FindLast? ==> 1 <= pc.u <= BLOCKSET_SIZE
    ensures pc.FindLoop? && pc.left <= pc.right ==> 0 <= (pc.left + pc.right) / 2 < BLOCKSET_SIZE
    ensures pc.FindCheck? ==> pc.pos < BLOCKSET_SIZE
  {
    hide Registered, Separate, Ascending, QueryOk, NotPast, Sees;
  }

  lemma FindMoves(l: Layout, s: Shared, pc: Pc) returns (pc': Pc)
    requires SharedOk(l, s) && FindOk(l, Published(s.sets), pc) && IsFind(pc)
    ensures FindStep(l, s, pc, pc')
  {
    hide SharedOk, FindOk;
    FindRange(l, s, pc);
    match pc
    case FindUsed(q, j) => pc' := FindFirst(q, j, s.sets[j].used);
    case FindFirst(q, j, u) => pc' := if q.ptr < l.Data(s.sets[j].items[0]) then FindNext(q, j) else FindLast(q, j, u);
    case FindLast(q, j, u) =>
      pc' := if l.Limit(s.sets[j].items[u - 1]) <= q.ptr then FindNext(q, j) else FindLoop(q, j, u, 0, u - 1);
    case FindLoop(q, j, u, left, right) =>
      if left <= right {
        var middle := (left + right) / 2;
        pc' := if l.Data(s.sets[j].items[middle]) > q.ptr then FindLoop(q, j, u, left, middle - 1)
               else FindLoop(q, j, u, middle + 1, right);
      } else {
        pc' := if right < 0 || right >= BLOCKSET_SIZE then FindDone(q, None) else FindCheck(q, j, right);
      }
    case FindCheck(q, j, pos) =>
      pc' := if l.Contains(s.sets[j].items[pos], q.ptr) then FindDone(q, Some(s.sets[j].items[pos]))
             else FindNext(q, j);
    case FindNext(q, j) => pc' := if j + 1 < |s.sets| then FindUsed(q, j + 1) else FindDone(q, None);
  }

  lemma FreeMoves(l: Layout, s: Shared, pc: Pc) returns (s': Shared, pc': Pc)
    requires SharedOk(l, s) && FindOk(l, Published(s.sets), pc)
    requires pc.FindDone? || pc.ClearEntry? || pc.ReadHintAfterFree? || pc.MoveHintAfterFree?
    ensures FreeStep(l, s, pc, s', pc')
  {
    hide Registered, Separate, Shaped;
    s' := s;
    match pc
    case FindDone(q, r) => pc' := if q.freeing.Some? && r.Some? then ClearEntry(q, r.value) else Idle;
    case ClearEntry(q, b) =>
      s' := s.(marks := s.marks[b := s.marks[b] - {(q.ptr - l.Data(b)) / l.elementSize}]);
      pc' := ReadHintAfterFree(b);
    case ReadHintAfterFree(b) => pc' := MoveHintAfterFree(b, s.hint);
    case MoveHintAfterFree(b, h) => pc' := Idle;
  }

  lemma ScanRange(l: Layout, s: Shared, pc: Pc)
    requires SharedOk(l, s) && WorkOk(l, s, pc)
    ensures Cells(s.sets)
    ensures pc.ScanUsed? || pc.ScanItem? ==> pc.j < |s.sets|
    ensures pc.ScanItem? ==> pc.i <= pc.u <= BLOCKSET_SIZE
  {
    hide Registered, Separate, Ascending, Fresh;
  }

  lemma ScanMoves(l: Layout, t: nat, s: Shared, pc: Pc) returns (s': Shared, pc': Pc)
    requires SharedOk(l, s) && WorkOk(l, s, pc) && (pc.WantLock? ==> s.lock == None)
    requires pc.ReadHint? || pc.TryHint? || pc.ScanUsed? || pc.ScanItem? || pc.ScanTry? || pc.ReadHintAfterScan?
             || pc.MoveHintAfterScan? || pc.WantLock? || pc.Recheck? || pc.RereadHint? || pc.RetryHint?
    ensures ScanStep(l, t, s, pc, s', pc')
  {
    hide SharedOk, WorkOk;
    ScanRange(l, s, pc);
    s' := s;
    match pc
    case ReadHint => pc' := TryHint(s.hint);
    case TryHint(h) => pc' := ScanUsed(h, 0);
    case ScanUsed(h, j) => pc' := ScanItem(h, j, s.sets[j].used, 0);
    case ScanItem(h, j, u, i) =>
      pc' := if i < u then ScanTry(h, j, u, i, s.sets[j].items[i])
             else if j + 1 < |s.sets| then ScanUsed(h, j + 1) else WantLock(h);
    case ScanTry(h, j, u, i, b) => pc' := ScanItem(h, j, u, i + 1);
    case ReadHintAfterScan(e) => pc' := MoveHintAfterScan(e, s.hint);
    case MoveHintAfterScan(e, h) => pc' := Return(e);
    case WantLock(h) => s', pc' := s.(lock := Some(t)), Recheck(h);
    case Recheck(h) => pc' := if s.hint != h then RereadHint else MakeBlock;
    case RereadHint => pc' := RetryHint(s.hint);
    case RetryHint(b) => pc' := MakeBlock;
  }

  lemma InsertRange(l: Layout, s: Shared, pc: Pc)
    requires SharedOk(l, s) && WorkOk(l, s, pc)
    ensures Cells(s.sets)
    ensures pc.InsertUsed? ==> pc.j < |s.sets|
    ensures pc.InsertTop? ==> pc.j < |s.sets| && 1 <= pc.u < BLOCKSET_SIZE
    ensures pc.InsertWrite? ==> pc.j < |s.sets| && pc.u < BLOCKSET_SIZE
    ensures pc.InsertPublish? ==> pc.j < |s.sets|
  {
    hide Registered, Separate, Fresh, Ascending;
  }

  lemma WriteMoves(l: Layout, s: Shared, pc: Pc) returns (s': Shared, pc': Pc)
    requires Cells(s.sets) && (pc.InsertWrite? || pc.InsertPublish?) && pc.j < |s.sets|
    requires (pc.InsertWrite? ==> pc.u < BLOCKSET_SIZE)
    ensures InsertStep(l, s, pc, s', pc')
  {
    var j := pc.j;
    if pc.InsertWrite? {
      s' := s.(sets := s.sets[j := s.sets[j].(items := s.sets[j].items[pc.u := pc.taken.block])]);
      pc' := InsertPublish(pc.taken, j, pc.u);
    } else {
      s' := s.(sets := s.sets[j := s.sets[j].(used := s.sets[j].used + 1)]);
      pc' := SetHint(pc.taken);
    }
  }

  lemma InsertMoves(l: Layout, t: nat, s: Shared, pc: Pc) returns (s': Shared, pc': Pc)
    requires SharedOk(l, s) && WorkOk(l, s, pc) && Locks(pc) && !pc.Recheck? && !pc.RereadHint? && !pc.RetryHint?
    ensures InsertStep(l, s, pc, s', pc')
  {
    hide SharedOk, WorkOk;
    InsertRange(l, s, pc);
    s' := s;
    match pc
    case MakeBlock => pc' := Unlock(None);
    case InsertUsed(e, j) =>
      pc' := if s.sets[j].used == BLOCKSET_SIZE then InsertNext(e, j) else InsertTop(e, j, s.sets[j].used);
    case InsertTop(e, j, u) =>
      pc' := if s.sets[j].items[u - 1] < e.block then InsertWrite(e, j, u) else InsertNext(e, j);
    case InsertWrite(e, j, u) => s', pc' := WriteMoves(l, s, pc);
    case InsertPublish(e, j, u) => s', pc' := WriteMoves(l, s, pc);
    case InsertNext(e, j) => pc' := if j + 1 < |s.sets| then InsertUsed(e, j + 1) else InsertLink(e);
    case InsertLink(e) => pc' := Unlock(None);
    case SetHint(e) => s', pc' := s.(hint := e.block), Unlock(Some(e));
    case Unlock(r) => s', pc' := s.(lock := None), match r { case Some(e) => Return(e) case None => Idle };
  }

  /** A thread that does not wait for a mutex another thread has can take its next step. */
  lemma CanMove(l: Layout, w: World, t: nat) returns (s': Shared, live': set<Entry>, pc': Pc)
    requires Invariant(l, w) && t in w.pcs && (w.pcs[t].WantLock? ==> w.shared.lock == None)
    ensures Cells(w.shared.sets) && Moves(l, t, w.shared, w.live, w.pcs[t], s', live', pc')
  {
    hide SharedOk, FindOk, WorkOk, FindStep, FreeStep, ScanStep, InsertStep, LiveOk, Exclusive;
    SharedParts(l, w.shared);
    var s, pc := w.shared, w.pcs[t];
    assert ThreadOk(l, s, t, pc);
    s', live' := s, w.live;
    if pc.Idle? {
      pc' := ReadHint;
    } else if pc.Return? {
      live', pc' := w.live + {pc.taken}, Idle;
    } else if IsFind(pc) {
      pc' := FindMoves(l, s, pc);
    } else if pc.FindDone? || pc.ClearEntry? || pc.ReadHintAfterFree? || pc.MoveHintAfterFree? {
      s', pc' := FreeMoves(l, s, pc);
    } else if Locks(pc) && !pc.Recheck? && !pc.RereadHint? && !pc.RetryHint? {
      s', pc' := InsertMoves(l, t, s, pc);
    } else {
      s', pc' := ScanMoves(l, t, s, pc);
    }
  }

  /**
   In every run, a thread can take its next step in every state, or it waits for the mutex and the thread
   that has the mutex can: no access is out of range, and there is no deadlock.
   */
  lemma NeverStuck(l: Layout, run: seq<World>, n: nat, t: nat) returns (u: nat, w': World)
    requires IsRun(l, run) && n < |run| && t in run[n].pcs
    ensures Next(l, run[n], w') && u in run[n].pcs && w'.pcs.Keys == run[n].pcs.Keys
    ensures forall v :: v in run[n].pcs && v != u ==> w'.pcs[v] == run[n].pcs[v]
    ensures u == t || (run[n].pcs[t].WantLock? && run[n].shared.lock == Some(u))
  {
    hide Initial, Moves, SharedOk, FindOk, WorkOk, LiveOk, Exclusive;
    InvariantOnRuns(l, run, n);
    var w := run[n];
    u := if w.pcs[t].WantLock? && w.shared.lock.Some? then w.shared.lock.value else t;
    SharedParts(l, w.shared);
    assert ThreadOk(l, w.shared, u, w.pcs[u]);
    var s', live', pc' := CanMove(l, w, u);
    w' := World(s', w.pcs[u := pc'], live');
  }

  /** With at least one thread there are runs of every length, from any first block. */
  lemma {:induction false} RunsExist(l: Layout, block: nat, threads: set<nat>, n: nat) returns (run: seq<World>)
    requires l.Valid() && threads != {}
    ensures IsRun(l, run) && |run| == n + 1 && run[n].pcs.Keys == threads && run[0].shared.hint == block
  {
    if n == 0 {
      var cells: seq<nat> := seq(BLOCKSET_SIZE, _ => block);
      var s := Shared([Blockset(cells, 1)], block, map[block := {}], None);
      run := [World(s, map t | t in threads :: Idle, {})];
    } else {
      hide Initial, Next;
      run := RunsExist(l, block, threads, n - 1);
      var t :| t in threads;
      var u, w' := NeverStuck(l, run, n - 1, t);
      run := run + [w'];
    }
  }

  /** In every run, two elements that callers hold at the same time do not overlap, nor any header of a block. */
  lemma HeldDisjoint(l: Layout, run: seq<World>, n: nat, d: Entry, e: Entry)
    requires IsRun(l, run) && n < |run| && d != e && d in run[n].live && e in run[n].live
    ensures l.Slot(d.block, d.index) + l.elementSize <= l.Slot(e.block, e.index)
            || l.Slot(e.block, e.index) + l.elementSize <= l.Slot(d.block, d.index)
    ensures d.block + l.header <= l.Slot(d.block, d.index)
    ensures l.Slot(d.block, d.index) + l.elementSize <= d.block + l.header + l.elementSize * l.allocCount
  {
    InvariantOnRuns(l, run, n);
    var s := run[n].shared;
    assert LiveOk(l, s, d) && LiveOk(l, s, e);
    RegisteredApart(l, Published(s.sets), d.block, e.block);
    SlotsDisjoint(l, d.block, d.index, e.block, e.index);
    SlotInside(l, d.block, d.index);
  }

  lemma RegisteredApart(l: Layout, p: Blocksets, a: nat, b: nat)
    requires Separate(l, p) && Registered(p, a) && Registered(p, b)
    ensures a == b || l.Apart(a, b)
  {
    var i, k :| 0 <= i < |p| && 0 <= k < |p[i]| && p[i][k] == a;
    var j, m :| 0 <= j < |p| && 0 <= m < |p[j]| && p[j][m] == b;
  }

  /** In every run at most one thread is between taking the mutex and releasing it,
      and the hint is a published block. */
  lemma MutualExclusion(l: Layout, run: seq<World>, n: nat, t: nat, u: nat)
    requires IsRun(l, run) && n < |run| && t in run[n].pcs && u in run[n].pcs
    ensures Locks(run[n].pcs[t]) && Locks(run[n].pcs[u]) ==> t == u
    ensures Cells(run[n].shared.sets) && Shaped(Published(run[n].shared.sets))
    ensures Registered(Published(run[n].shared.sets), run[n].shared.hint)
  {
    hide Next, Initial, Registered, Shaped;
    InvariantOnRuns(l, run, n);
    assert ThreadOk(l, run[n].shared, t, run[n].pcs[t]) && ThreadOk(l, run[n].shared, u, run[n].pcs[u]);
  }
}
