/**
 What a thread can do in the interleaved area allocator of src/base/area_alloc.c when the others pause: it
 can take any free entry of any published block, add a block, and free any element, whatever the state.
 */
module AreaProgress {
  import opened AreaPlacement
  import opened AreaConcurrency
  import opened Wrappers

  /** Shared memory, the elements callers hold, and where one thread stands. */
  datatype Local = Local(s: Shared, live: set<Entry>, pc: Pc)

  ghost predicate Step(l: Layout, t: nat, a: Local, b: Local) {
    Cells(a.s.sets) && Moves(l, t, a.s, a.live, a.pc, b.s, b.live, b.pc)
  }

  /** Thread t gets from a to b in n steps while no other thread moves. */
  ghost predicate Alone(l: Layout, t: nat, a: Local, b: Local, n: nat)
    decreases n
  {
    if n == 0 then a == b else exists c: Local :: Step(l, t, a, c) && Alone(l, t, c, b, n - 1)
  }

  lemma Then(l: Layout, t: nat, a: Local, b: Local, c: Local, n: nat)
    requires Step(l, t, a, b) && Alone(l, t, b, c, n)
    ensures Alone(l, t, a, c, n + 1)
  {
  }

  /** Where thread t stands in a world. */
  function At(w: World, t: nat): Local
    requires t in w.pcs
  {
    Local(w.shared, w.live, w.pcs[t])
  }

  /** The world once thread t stands elsewhere. */
  function Moved(w: World, t: nat, b: Local): World {
    World(b.s, w.pcs[t := b.pc], b.live)
  }

  lemma RunGrows(l: Layout, run: seq<World>, t: nat, c: Local)
    requires IsRun(l, run) && t in Last(run).pcs && Step(l, t, At(Last(run), t), c)
    ensures IsRun(l, run + [Moved(Last(run), t, c)])
  {
    hide Moves, Initial;
    var w := Last(run);
    var w' := Moved(w, t, c);
    assert Next(l, w, w');
  }

  function Last(run: seq<World>): World
    requires run != []
  {
    run[|run| - 1]
  }

  /** One run starts with the other. */
  ghost predicate GoesOn(l: Layout, run: seq<World>, longer: seq<World>) {
    IsRun(l, longer) && |run| <= |longer| && longer[..|run|] == run
  }

  /** Steps taken alone go on from the last state of a run. */
  lemma {:induction false} RunGoesOn(l: Layout, run: seq<World>, t: nat, b: Local, n: nat) returns (longer: seq<World>)
    requires IsRun(l, run) && t in Last(run).pcs && Alone(l, t, At(Last(run), t), b, n)
    ensures GoesOn(l, run, longer) && |longer| == |run| + n && Last(longer) == Moved(Last(run), t, b)
    decreases n
  {
    hide Step, IsRun;
    assert run != [] by { RunIsNotEmpty(l, run); }
    var w := Last(run);
    if n == 0 {
      longer := run;
      assert w.pcs[t := b.pc] == w.pcs;
    } else {
      var c: Local :| Step(l, t, At(w, t), c) && Alone(l, t, c, b, n - 1);
      var w' := Moved(w, t, c);
      RunGrows(l, run, t, c);
      assert At(w', t) == c;
      longer := RunGoesOn(l, run + [w'], t, b, n - 1);
      assert longer[..|run|] == longer[..|run| + 1][..|run|];
      assert w'.pcs[t := b.pc] == w.pcs[t := b.pc];
    }
  }

  lemma RunIsNotEmpty(l: Layout, run: seq<World>)
    requires IsRun(l, run)
    ensures run != []
  {
  }

  lemma Scans(l: Layout, t: nat, a: Local, b: Local, c: Local, n: nat)
    requires Cells(a.s.sets) && ScanStep(l, t, a.s, a.pc, b.s, b.pc) && a.live == b.live && Alone(l, t, b, c, n)
    ensures Alone(l, t, a, c, n + 1)
  {
    Then(l, t, a, b, c, n);
  }

  lemma Inserts(l: Layout, t: nat, a: Local, b: Local, c: Local, n: nat)
    requires Cells(a.s.sets) && InsertStep(l, a.s, a.pc, b.s, b.pc) && a.live == b.live && Alone(l, t, b, c, n)
    ensures Alone(l, t, a, c, n + 1)
  {
    Then(l, t, a, b, c, n);
  }

  lemma Frees(l: Layout, t: nat, a: Local, b: Local, c: Local, n: nat)
    requires Cells(a.s.sets) && FreeStep(l, a.s, a.pc, b.s, b.pc) && a.live == b.live && Alone(l, t, b, c, n)
    ensures Alone(l, t, a, c, n + 1)
  {
    Then(l, t, a, b, c, n);
  }

  lemma Finds(l: Layout, t: nat, a: Local, b: Local, c: Local, n: nat)
    requires Cells(a.s.sets) && FindStep(l, a.s, a.pc, b.pc) && a.s == b.s && a.live == b.live && Alone(l, t, b, c, n)
    ensures Alone(l, t, a, c, n + 1)
  {
    Then(l, t, a, b, c, n);
  }

  // ---------- Scanning ----------

  /** Passing over items: from item i of blockset j to item k. */
  lemma {:induction false} PassItems(l: Layout, t: nat, a: Local, h: nat, j: nat, i: nat, k: nat, c: Local, n: nat)
    returns (m: nat)
    requires Cells(a.s.sets) && j < |a.s.sets| && i <= k <= a.s.sets[j].used
    requires a.pc == ScanItem(h, j, a.s.sets[j].used, i)
    requires Alone(l, t, a.(pc := ScanItem(h, j, a.s.sets[j].used, k)), c, n)
    ensures Alone(l, t, a, c, m)
    decreases k - i
  {
    hide Alone;
    if i == k {
      m := n;
    } else {
      var u := a.s.sets[j].used;
      var tried := a.(pc := ScanTry(h, j, u, i, a.s.sets[j].items[i]));
      var next := a.(pc := ScanItem(h, j, u, i + 1));
      m := PassItems(l, t, next, h, j, i + 1, k, c, n);
      Scans(l, t, tried, next, c, m);
      Scans(l, t, a, tried, c, m + 1);
      m := m + 2;
    }
  }

  /** Passing over whole blocksets: from blockset j to blockset k, or to the request for the mutex. */
  lemma {:induction false} PassSets(l: Layout, t: nat, a: Local, h: nat, j: nat, k: nat, c: Local, n: nat)
    returns (m: nat)
    requires Cells(a.s.sets) && j <= k <= |a.s.sets| && j < |a.s.sets| && a.pc == ScanUsed(h, j)
    requires Alone(l, t, a.(pc := if k < |a.s.sets| then ScanUsed(h, k) else WantLock(h)), c, n)
    ensures Alone(l, t, a, c, m)
    decreases k - j
  {
    hide Alone;
    if j == k {
      m := n;
    } else {
      var u := a.s.sets[j].used;
      var first, last := a.(pc := ScanItem(h, j, u, 0)), a.(pc := ScanItem(h, j, u, u));
      if j + 1 < |a.s.sets| {
        var next := a.(pc := ScanUsed(h, j + 1));
        m := PassSets(l, t, next, h, j + 1, k, c, n);
        Scans(l, t, last, next, c, m);
      } else {
        m := n;
        Scans(l, t, last, a.(pc := WantLock(h)), c, m);
      }
      m := PassItems(l, t, first, h, j, 0, u, c, m + 1);
      Scans(l, t, a, first, c, m);
      m := m + 1;
    }
  }

  /** The start of area_alloc up to the scan. */
  lemma StartScan(l: Layout, t: nat, a: Local, c: Local, n: nat) returns (m: nat)
    requires Cells(a.s.sets) && a.pc.Idle? && Alone(l, t, a.(pc := ScanUsed(a.s.hint, 0)), c, n)
    ensures Alone(l, t, a, c, m)
  {
    hide Alone;
    var read, tried, scan := a.(pc := ReadHint), a.(pc := TryHint(a.s.hint)), a.(pc := ScanUsed(a.s.hint, 0));
    Scans(l, t, tried, scan, c, n);
    Scans(l, t, read, tried, c, n + 1);
    Then(l, t, a, read, c, n + 2);
    m := n + 3;
  }

  /** The state with an entry marked. */
  function WithMark(s: Shared, e: Entry): Shared
    requires e.block in s.marks
  {
    s.(marks := s.marks[e.block := s.marks[e.block] + {e.index}])
  }

  /** Alone, a thread can allocate any entry that is free in any published block. */
  lemma AllocAlone(l: Layout, t: nat, a: Local, e: Entry) returns (n: nat)
    requires SharedOk(l, a.s) && a.pc.Idle?
    requires Registered(Published(a.s.sets), e.block) && 0 <= e.index < l.allocCount && !Marked(a.s, e)
    ensures e.block in a.s.marks
    ensures Alone(l, t, a, Local(WithMark(a.s, e), a.live + {e}, Idle), n)
  {
    hide Alone, Shaped, Separate;
    var p := Published(a.s.sets);
    var j, i :| 0 <= j < |p| && 0 <= i < |p[j]| && p[j][i] == e.block;
    assert a.s.sets[j].items[i] == e.block;
    n := AllocAt(l, t, a, e, j, i);
  }

  lemma AllocAt(l: Layout, t: nat, a: Local, e: Entry, j: nat, i: nat) returns (n: nat)
    requires Cells(a.s.sets) && a.pc.Idle? && j < |a.s.sets| && i < a.s.sets[j].used && a.s.sets[j].items[i] == e.block
    requires e.block in a.s.marks && 0 <= e.index < l.allocCount && !Marked(a.s, e)
    ensures Alone(l, t, a, Local(WithMark(a.s, e), a.live + {e}, Idle), n)
  {
    hide Alone;
    var s', h, u := WithMark(a.s, e), a.s.hint, a.s.sets[j].used;
    var end, item := Local(s', a.live + {e}, Idle), a.(pc := ScanItem(h, j, u, i));
    n := TakeAt(l, t, item, e, h, j, i);
    var first := a.(pc := ScanItem(h, j, u, 0));
    n := PassItems(l, t, first, h, j, 0, i, end, n);
    Scans(l, t, a.(pc := ScanUsed(h, j)), first, end, n);
    n := PassSets(l, t, a.(pc := ScanUsed(h, 0)), h, 0, j, end, n + 1);
    n := StartScan(l, t, a, end, n);
  }

  lemma TakeAt(l: Layout, t: nat, a: Local, e: Entry, h: nat, j: nat, i: nat) returns (n: nat)
    requires Cells(a.s.sets) && j < |a.s.sets| && i < a.s.sets[j].used && a.s.sets[j].items[i] == e.block
    requires e.block in a.s.marks && 0 <= e.index < l.allocCount && !Marked(a.s, e)
    requires a.pc == ScanItem(h, j, a.s.sets[j].used, i)
    ensures Alone(l, t, a, Local(WithMark(a.s, e), a.live + {e}, Idle), n)
  {
    hide Alone;
    var s' := WithMark(a.s, e);
    var end := Local(s', a.live + {e}, Idle);
    n := Returned(l, t, s', a.live, e);
    var tried := a.(pc := ScanTry(h, j, a.s.sets[j].used, i, e.block));
    Scans(l, t, tried, Local(s', a.live, ReadHintAfterScan(e)), end, n);
    Scans(l, t, a, tried, end, n + 1);
    n := n + 2;
  }

  /** The end of area_alloc after an entry was taken in the scan. */
  lemma Returned(l: Layout, t: nat, s: Shared, live: set<Entry>, e: Entry) returns (n: nat)
    requires Cells(s.sets)
    ensures Alone(l, t, Local(s, live, ReadHintAfterScan(e)), Local(s, live + {e}, Idle), n)
  {
    var end := Local(s, live + {e}, Idle);
    assert Alone(l, t, end, end, 0);
    Then(l, t, Local(s, live, Return(e)), end, end, 0);
    Scans(l, t, Local(s, live, MoveHintAfterScan(e, s.hint)), Local(s, live, Return(e)), end, 1);
    Scans(l, t, Local(s, live, ReadHintAfterScan(e)), Local(s, live, MoveHintAfterScan(e, s.hint)), end, 2);
    n := 3;
  }

  // ---------- Adding a block ----------

  /** What insertion leaves alone: everything but the blocksets. */
  ghost predicate Grown(l: Layout, s: Shared, block: nat, s': Shared)
    requires Cells(s.sets)
  {
    && Cells(s'.sets) && Published(s'.sets) == Inserted(Published(s.sets), block)
    && s' == s.(sets := s'.sets)
  }

  lemma PublishHere(l: Layout, t: nat, a: Local, e: Entry, j: nat) returns (s': Shared, n: nat)
    requires SharedOk(l, a.s) && j < |a.s.sets| && Inserting(l, a.s, e, j) && a.s.sets[j].used < BLOCKSET_SIZE
    requires HasRoom(Published(a.s.sets)[j], e.block) && a.pc == InsertWrite(e, j, a.s.sets[j].used)
    ensures Grown(l, a.s, e.block, s') && Alone(l, t, a, Local(s', a.live, SetHint(e)), n)
  {
    hide Alone, Shaped, Separate, Registered, Fresh, Inserted, Skips;
    var u := a.s.sets[j].used;
    var s1 := a.s.(sets := a.s.sets[j := a.s.sets[j].(items := a.s.sets[j].items[u := e.block])]);
    WriteOk(l, a.s, e, j, u, s1);
    WrittenOk(l, a.s, s1);
    s' := s1.(sets := s1.sets[j := s1.sets[j].(used := s1.sets[j].used + 1)]);
    PublishOk(l, s1, e, j, u, s');
    var end, written := Local(s', a.live, SetHint(e)), Local(s1, a.live, InsertPublish(e, j, u));
    Stay(l, t, end);
    Inserts(l, t, written, end, end, 0);
    Inserts(l, t, a, written, end, 1);
    n := 2;
  }

  lemma Stay(l: Layout, t: nat, a: Local)
    ensures Alone(l, t, a, a, 0)
  {
  }

  lemma WrittenOk(l: Layout, s: Shared, s1: Shared)
    requires SharedOk(l, s) && Cells(s1.sets) && Published(s1.sets) == Published(s.sets) && s1 == s.(sets := s1.sets)
    requires |s1.sets| == |s.sets|
    ensures SharedOk(l, s1)
  {
  }

  lemma LinkHere(l: Layout, t: nat, a: Local, e: Entry) returns (s': Shared, n: nat)
    requires SharedOk(l, a.s) && Inserting(l, a.s, e, |a.s.sets|) && a.pc == InsertLink(e)
    ensures Grown(l, a.s, e.block, s') && Alone(l, t, a, Local(s', a.live, SetHint(e)), n)
  {
    hide Alone, Shaped, Separate, Registered, Fresh, Inserted, Skips;
    var cells: seq<nat> := seq(BLOCKSET_SIZE, _ => e.block);
    s' := a.s.(sets := a.s.sets + [Blockset(cells, 1)]);
    LinkOk(l, a.s, e, cells, s');
    var end := Local(s', a.live, SetHint(e));
    Stay(l, t, end);
    Inserts(l, t, a, end, end, 0);
    n := 1;
  }

  lemma UsedIsPositive(p: Blocksets, j: nat)
    requires Shaped(p) && j < |p|
    ensures 1 <= |p[j]| <= BLOCKSET_SIZE
  {
  }

  /** The tests of one blockset go on to the write exactly when it has room below the block. */
  lemma TestSteps(l: Layout, s: Shared, e: Entry, j: nat)
    requires Cells(s.sets) && j < |s.sets| && 1 <= s.sets[j].used
    ensures var (u, room) := (s.sets[j].used, HasRoom(Published(s.sets)[j], e.block));
            && (room ==> u < BLOCKSET_SIZE)
            && (u == BLOCKSET_SIZE ==> InsertStep(l, s, InsertUsed(e, j), s, InsertNext(e, j)))
            && (u != BLOCKSET_SIZE ==> && InsertStep(l, s, InsertUsed(e, j), s, InsertTop(e, j, u))
                                       && InsertStep(l, s, InsertTop(e, j, u), s,
                                                     if room then InsertWrite(e, j, u) else InsertNext(e, j)))
  {
    var u := s.sets[j].used;
    assert Published(s.sets)[j][u - 1] == s.sets[j].items[u - 1];
  }

  lemma InsertingOn(l: Layout, s: Shared, e: Entry, j: nat)
    requires Cells(s.sets) && Inserting(l, s, e, j) && j < |s.sets| && !HasRoom(Published(s.sets)[j], e.block)
    ensures Inserting(l, s, e, j + 1)
  {
    SkipOne(Published(s.sets), e.block, j);
  }

  /** From blockset j on, the inserter finds the place and publishes the block. */
  lemma {:induction false} InsertFrom(l: Layout, t: nat, a: Local, e: Entry, j: nat) returns (s': Shared, n: nat)
    requires SharedOk(l, a.s) && j < |a.s.sets| && Inserting(l, a.s, e, j) && a.pc == InsertUsed(e, j)
    ensures Grown(l, a.s, e.block, s') && Alone(l, t, a, Local(s', a.live, SetHint(e)), n)
    decreases |a.s.sets| - j, 1
  {
    hide Alone, SharedOk, Inserting, Grown, InsertStep, HasRoom, Shaped, Separate, Registered;
    SharedParts(l, a.s);
    var p, u := Published(a.s.sets), a.s.sets[j].used;
    UsedIsPositive(p, j);
    TestSteps(l, a.s, e, j);
    var next, top, write := a.(pc := InsertNext(e, j)), a.(pc := InsertTop(e, j, u)), a.(pc := InsertWrite(e, j, u));
    if HasRoom(p[j], e.block) {
      s', n := PublishHere(l, t, write, e, j);
      var end := Local(s', a.live, SetHint(e));
      Inserts(l, t, top, write, end, n);
      Inserts(l, t, a, top, end, n + 1);
      n := n + 2;
    } else {
      InsertingOn(l, a.s, e, j);
      s', n := InsertNextFrom(l, t, next, e, j);
      var end := Local(s', a.live, SetHint(e));
      if u == BLOCKSET_SIZE {
        Inserts(l, t, a, next, end, n);
        n := n + 1;
      } else {
        Inserts(l, t, top, next, end, n);
        Inserts(l, t, a, top, end, n + 1);
        n := n + 2;
      }
    }
  }

  lemma {:induction false} InsertNextFrom(l: Layout, t: nat, a: Local, e: Entry, j: nat) returns (s': Shared, n: nat)
    requires SharedOk(l, a.s) && j < |a.s.sets| && Inserting(l, a.s, e, j + 1) && a.pc == InsertNext(e, j)
    ensures Grown(l, a.s, e.block, s') && Alone(l, t, a, Local(s', a.live, SetHint(e)), n)
    decreases |a.s.sets| - j, 0
  {
    hide Alone, SharedOk, Inserting, Grown;
    SharedParts(l, a.s);
    if j + 1 < |a.s.sets| {
      var next := a.(pc := InsertUsed(e, j + 1));
      s', n := InsertFrom(l, t, next, e, j + 1);
      Inserts(l, t, a, next, Local(s', a.live, SetHint(e)), n);
    } else {
      var link := a.(pc := InsertLink(e));
      s', n := LinkHere(l, t, link, e);
      Inserts(l, t, a, link, Local(s', a.live, SetHint(e)), n);
    }
    n := n + 1;
  }

  /** Alone and with the mutex free, a thread can add a block wherever malloc puts it, and allocate any entry of it. */
  lemma GrowAlone(l: Layout, t: nat, a: Local, e: Entry) returns (s': Shared, n: nat)
    requires SharedOk(l, a.s) && a.pc.Idle? && a.s.lock == None
    requires Fresh(l, Published(a.s.sets), e.block) && 0 <= e.index < l.allocCount
    ensures Cells(s'.sets) && Published(s'.sets) == Inserted(Published(a.s.sets), e.block) && s'.hint == e.block
    ensures s'.marks == a.s.marks[e.block := {e.index}] && s'.lock == None
    ensures Alone(l, t, a, Local(s', a.live + {e}, Idle), n)
  {
    hide Alone, SharedOk, Inserting, Fresh, Inserted;
    SharedParts(l, a.s);
    var h, locked := a.s.hint, a.s.(lock := Some(t));
    var made := locked.(marks := a.s.marks[e.block := {e.index}]);
    MadeOk(l, a.s, made, e);
    var use := Local(made, a.live, InsertUsed(e, 0));
    var grown, m := InsertFrom(l, t, use, e, 0);
    s' := grown.(hint := e.block, lock := None);
    var end := Local(s', a.live + {e}, Idle);
    n := PublishedEnds(l, t, grown, a.live, e);
    n := Join(l, t, use, Local(grown, a.live, SetHint(e)), end, m, n);
    var make, check, want := Local(locked, a.live, MakeBlock), Local(locked, a.live, Recheck(h)), a.(pc := WantLock(h));
    Inserts(l, t, make, use, end, n);
    Scans(l, t, check, make, end, n + 1);
    Scans(l, t, want, check, end, n + 2);
    n := PassSets(l, t, a.(pc := ScanUsed(h, 0)), h, 0, |a.s.sets|, end, n + 3);
    n := StartScan(l, t, a, end, n);
  }

  lemma MadeOk(l: Layout, s: Shared, made: Shared, e: Entry)
    requires SharedOk(l, s) && Fresh(l, Published(s.sets), e.block)
    requires made.sets == s.sets && made.hint == s.hint && made.marks == s.marks[e.block := {e.index}]
    ensures SharedOk(l, made) && Inserting(l, made, e, 0)
  {
    hide Registered, Separate, Shaped, Fresh;
    SameSets(l, s, made);
    SkipNone(Published(s.sets), e.block);
  }

  lemma PublishedEnds(l: Layout, t: nat, s: Shared, live: set<Entry>, e: Entry) returns (n: nat)
    requires Cells(s.sets)
    ensures Alone(l, t, Local(s, live, SetHint(e)), Local(s.(hint := e.block, lock := None), live + {e}, Idle), n)
  {
    hide Alone;
    var s1 := s.(hint := e.block);
    var s2 := s1.(lock := None);
    var end, back, unlock := Local(s2, live + {e}, Idle), Local(s2, live, Return(e)), Local(s1, live, Unlock(Some(e)));
    Stay(l, t, end);
    Then(l, t, back, end, end, 0);
    Inserts(l, t, unlock, back, end, 1);
    Inserts(l, t, Local(s, live, SetHint(e)), unlock, end, 2);
    n := 3;
  }

  lemma {:induction false} Join(l: Layout, t: nat, a: Local, b: Local, c: Local, m: nat, n: nat) returns (k: nat)
    requires Alone(l, t, a, b, m) && Alone(l, t, b, c, n)
    ensures Alone(l, t, a, c, k)
    decreases m
  {
    hide Step;
    if m == 0 {
      k := n;
    } else {
      var d: Local :| Step(l, t, a, d) && Alone(l, t, d, b, m - 1);
      k := Join(l, t, d, b, c, m - 1, n);
      Then(l, t, a, d, c, k);
      k := k + 1;
    }
  }

  // ---------- Freeing ----------

  function Phase(pc: Pc): nat {
    match pc
    case FindUsed(_, _) => 5
    case FindFirst(_, _, _) => 4
    case FindLast(_, _, _) => 3
    case FindLoop(_, _, _, _, _) => 2
    case FindCheck(_, _, _) => 1
    case _ => 0
  }

  function Width(pc: Pc): nat {
    if pc.FindLoop? && pc.left <= pc.right then pc.right - pc.left + 1 else 0
  }

  lemma FindShrinks(l: Layout, s: Shared, pc: Pc, pc': Pc)
    requires Cells(s.sets) && FindStep(l, s, pc, pc')
    ensures IsFind(pc) && (pc'.FindDone? || IsFind(pc')) && pc'.q == pc.q
    ensures IsFind(pc') ==> || (pc.j < pc'.j < |s.sets|)
                            || (pc'.j == pc.j && Phase(pc') < Phase(pc))
                            || (pc'.j == pc.j && Phase(pc') == Phase(pc) && Width(pc') < Width(pc))
  {
  }

  /** Alone, a lookup ends. */
  lemma {:induction false} LookupEnds(l: Layout, t: nat, a: Local) returns (r: Option<nat>, n: nat)
    requires SharedOk(l, a.s) && IsFind(a.pc) && FindOk(l, Published(a.s.sets), a.pc)
    ensures FindOk(l, Published(a.s.sets), FindDone(a.pc.q, r))
    ensures Alone(l, t, a, a.(pc := FindDone(a.pc.q, r)), n)
    decreases |a.s.sets| - a.pc.j, Phase(a.pc), Width(a.pc)
  {
    hide Alone, SharedOk, FindOk, FindStep, Phase, Width;
    SharedParts(l, a.s);
    var pc' := FindMoves(l, a.s, a.pc);
    FindStepOk(l, a.s, a.pc, pc');
    FindShrinks(l, a.s, a.pc, pc');
    FindRange(l, a.s, a.pc);
    var b := a.(pc := pc');
    if pc'.FindDone? {
      r := pc'.found;
      Stay(l, t, b);
      Finds(l, t, a, b, b, 0);
      n := 1;
    } else {
      r, n := LookupEnds(l, t, b);
      Finds(l, t, a, b, a.(pc := FindDone(a.pc.q, r)), n);
      n := n + 1;
    }
  }

  /** The state with a mark cleared. */
  function WithoutMark(s: Shared, e: Entry): Shared
    requires e.block in s.marks
  {
    s.(marks := s.marks[e.block := s.marks[e.block] - {e.index}])
  }

  /** Alone, a thread can free any element that a caller holds. */
  lemma FreeAlone(l: Layout, t: nat, a: Local, e: Entry) returns (n: nat)
    requires SharedOk(l, a.s) && a.pc.Idle? && e in a.live && LiveOk(l, a.s, e)
    ensures e.block in a.s.marks && Alone(l, t, a, Local(WithoutMark(a.s, e), a.live - {e}, Idle), n)
  {
    hide Alone, SharedOk, Separate, Shaped;
    SharedParts(l, a.s);
    var p := Published(a.s.sets);
    var j, i :| 0 <= j < |p| && 0 <= i < |p[j]| && p[j][i] == e.block;
    SlotInside(l, e.block, e.index);
    var q := Query(l.Slot(e.block, e.index), Some(Position(j, i)), Some(e));
    var start := Local(a.s, a.live - {e}, FindUsed(q, 0));
    var r, m := LookupEnds(l, t, start);
    var end := Local(WithoutMark(a.s, e), a.live - {e}, Idle);
    n := ClearAlone(l, t, start.(pc := FindDone(q, r)), e, q);
    n := Join(l, t, start, start.(pc := FindDone(q, r)), end, m, n);
    Then(l, t, a, start, end, n);
    n := n + 1;
  }

  lemma ClearAlone(l: Layout, t: nat, a: Local, e: Entry, q: Query) returns (n: nat)
    requires l.Valid() && Cells(a.s.sets) && a.pc == FindDone(q, Some(e.block)) && q.freeing == Some(e)
    requires e.block in a.s.marks && 0 <= e.index < l.allocCount && q.ptr == l.Slot(e.block, e.index)
    ensures Alone(l, t, a, Local(WithoutMark(a.s, e), a.live, Idle), n)
  {
    hide Alone;
    SlotIndex(l, e.block, e.index);
    var s' := WithoutMark(a.s, e);
    var end, move, read := Local(s', a.live, Idle), Local(s', a.live, MoveHintAfterFree(e.block, s'.hint)),
                           Local(s', a.live, ReadHintAfterFree(e.block));
    var clear := a.(pc := ClearEntry(q, e.block));
    Stay(l, t, end);
    Frees(l, t, move, end, end, 0);
    Frees(l, t, read, move, end, 1);
    Frees(l, t, clear, read, end, 2);
    Frees(l, t, a, clear, end, 3);
    n := 4;
  }

  // ---------- In every run ----------

  /**
   In every state of every run, a thread that asks a block with a free entry for one can take any of them:
   then it holds that entry, the entry is marked, and no block was added.
   */
  lemma CanTake(l: Layout, run: seq<World>, n: nat, t: nat, e: Entry) returns (w': World)
    requires IsRun(l, run) && n < |run| && t in run[n].pcs
    requires var pc := run[n].pcs[t];
             pc == TryHint(e.block) || pc == RetryHint(e.block) || (pc.ScanTry? && pc.b == e.block)
    requires 0 <= e.index < l.allocCount && !Marked(run[n].shared, e)
    ensures Next(l, run[n], w') && t in w'.pcs && Held(w'.pcs[t]) == Some(e) && Marked(w'.shared, e)
    ensures w'.shared.sets == run[n].shared.sets && w'.live == run[n].live
    ensures forall d :: d != e ==> (Marked(w'.shared, d) <==> Marked(run[n].shared, d))
  {
    hide Initial, LiveOk, Exclusive, Owned, FindOk, WorkOk, SharedOk, Registered, Moves;
    InvariantOnRuns(l, run, n);
    var w := run[n];
    SharedParts(l, w.shared);
    var s, pc := w.shared, w.pcs[t];
    assert ThreadOk(l, s, t, pc);
    AskedIsPublished(l, s, t, pc, e.block);
    var s', pc' := TakeHere(l, t, s, w.live, pc, e);
    w' := World(s', w.pcs[t := pc'], w.live);
  }

  lemma AskedIsPublished(l: Layout, s: Shared, t: nat, pc: Pc, b: nat)
    requires Cells(s.sets) && ThreadOk(l, s, t, pc)
    requires pc == TryHint(b) || pc == RetryHint(b) || (pc.ScanTry? && pc.b == b)
    ensures Registered(Published(s.sets), b)
  {
  }

  lemma TakeHere(l: Layout, t: nat, s: Shared, live: set<Entry>, pc: Pc, e: Entry) returns (s': Shared, pc': Pc)
    requires SharedOk(l, s) && Registered(Published(s.sets), e.block) && 0 <= e.index < l.allocCount && !Marked(s, e)
    requires pc == TryHint(e.block) || pc == RetryHint(e.block) || (pc.ScanTry? && pc.b == e.block)
    ensures e.block in s.marks && s' == WithMark(s, e) && Held(pc') == Some(e)
    ensures Moves(l, t, s, live, pc, s', live, pc')
  {
    hide Registered, Shaped, Separate;
    s' := WithMark(s, e);
    pc' := if pc.TryHint? then Return(e) else if pc.ScanTry? then ReadHintAfterScan(e) else Unlock(Some(e));
    assert Takes(l, s, e, s');
    assert ScanStep(l, t, s, pc, s', pc');
  }

  /** Every run can go on so that an idle thread allocates a given free entry, and nothing else changes. */
  lemma CanAllocate(l: Layout, run: seq<World>, t: nat, e: Entry) returns (longer: seq<World>)
    requires IsRun(l, run) && t in Last(run).pcs && Last(run).pcs[t].Idle?
    requires Cells(Last(run).shared.sets) && Registered(Published(Last(run).shared.sets), e.block)
    requires 0 <= e.index < l.allocCount && !Marked(Last(run).shared, e)
    ensures GoesOn(l, run, longer) && longer != []
    ensures var (w, w') := (Last(run), Last(longer));
            && w'.pcs == w.pcs && w'.live == w.live + {e} && w'.shared == w.shared.(marks := w'.shared.marks)
            && Marked(w'.shared, e) && forall d :: d != e ==> (Marked(w'.shared, d) <==> Marked(w.shared, d))
  {
    hide IsRun, GoesOn, Alone, SharedOk, Registered, Invariant;
    RunIsNotEmpty(l, run);
    var w := Last(run);
    InvariantOnRuns(l, run, |run| - 1);
    assert SharedOk(l, w.shared) by { InvariantParts(l, w); }
    var n := AllocAlone(l, t, At(w, t), e);
    longer := RunGoesOn(l, run, t, Local(WithMark(w.shared, e), w.live + {e}, Idle), n);
    assert w.pcs[t := Idle] == w.pcs;
  }

  lemma InvariantParts(l: Layout, w: World)
    requires Invariant(l, w)
    ensures SharedOk(l, w.shared) && forall e :: e in w.live ==> LiveOk(l, w.shared, e)
  {
  }

  /** From a new area, a run leaves any one entry of the first block allocated and the blocksets as they were. */
  lemma FirstAllocation(l: Layout, w: World, t: nat, i: int) returns (run: seq<World>)
    requires Initial(l, w) && t in w.pcs && 0 <= i < l.allocCount
    ensures IsRun(l, run) && run != [] && run[0] == w
    ensures Last(run).live == {Entry(w.shared.hint, i)} && Last(run).shared.sets == w.shared.sets
  {
    hide Invariant, SharedOk;
    var e := Entry(w.shared.hint, i);
    InitialOk(l, w);
    InvariantParts(l, w);
    SharedParts(l, w.shared);
    assert IsRun(l, [w]);
    run := CanAllocate(l, [w], t, e);
    assert run[..1][0] == run[0];
  }

  /** A thread whose turn it is to move the hint, and finds it as it read it, can. */
  lemma CanMoveHint(l: Layout, run: seq<World>, n: nat, t: nat, b: nat) returns (w': World)
    requires IsRun(l, run) && n < |run| && t in run[n].pcs
    requires var (s, pc) := (run[n].shared, run[n].pcs[t]);
             || pc == MoveHintAfterFree(b, s.hint)
             || (pc.MoveHintAfterScan? && pc.taken.block == b && pc.h == s.hint)
    ensures Next(l, run[n], w') && w'.shared == run[n].shared.(hint := b) && w'.live == run[n].live
  {
    hide Initial, Invariant, SharedOk, Registered;
    InvariantOnRuns(l, run, n);
    var w := run[n];
    assert SharedOk(l, w.shared) by { InvariantParts(l, w); }
    SharedParts(l, w.shared);
    var pc := w.pcs[t];
    var pc' := if pc.MoveHintAfterFree? then Idle else Return(pc.taken);
    w' := World(w.shared.(hint := b), w.pcs[t := pc'], w.live);
    assert Moves(l, t, w.shared, w.live, pc, w'.shared, w.live, pc');
  }

  /** Every run with the mutex free can go on so that an idle thread adds a block and allocates an entry of it. */
  lemma CanGrow(l: Layout, run: seq<World>, t: nat, e: Entry) returns (longer: seq<World>)
    requires IsRun(l, run) && t in Last(run).pcs && Last(run).pcs[t].Idle?
    requires Last(run).shared.lock == None && Cells(Last(run).shared.sets)
    requires Fresh(l, Published(Last(run).shared.sets), e.block) && 0 <= e.index < l.allocCount
    ensures GoesOn(l, run, longer) && longer != []
    ensures var (w, w') := (Last(run), Last(longer));
            && w'.pcs == w.pcs && w'.live == w.live + {e}
            && Cells(w'.shared.sets) && Published(w'.shared.sets) == Inserted(Published(w.shared.sets), e.block)
            && w'.shared.hint == e.block && w'.shared.marks == w.shared.marks[e.block := {e.index}]
  {
    hide IsRun, GoesOn, Alone, SharedOk, Fresh, Inserted, Invariant;
    RunIsNotEmpty(l, run);
    var w := Last(run);
    InvariantOnRuns(l, run, |run| - 1);
    assert SharedOk(l, w.shared) by { InvariantParts(l, w); }
    var s', n := GrowAlone(l, t, At(w, t), e);
    longer := RunGoesOn(l, run, t, Local(s', w.live + {e}, Idle), n);
    assert w.pcs[t := Idle] == w.pcs;
  }

  /** Every run can go on so that an idle thread frees a given element, and nothing else changes. */
  lemma CanFree(l: Layout, run: seq<World>, t: nat, e: Entry) returns (longer: seq<World>)
    requires IsRun(l, run) && t in Last(run).pcs && Last(run).pcs[t].Idle? && e in Last(run).live
    ensures GoesOn(l, run, longer) && longer != []
    ensures var (w, w') := (Last(run), Last(longer));
            && w'.pcs == w.pcs && w'.live == w.live - {e} && w'.shared == w.shared.(marks := w'.shared.marks)
            && !Marked(w'.shared, e) && forall d :: d != e ==> (Marked(w'.shared, d) <==> Marked(w.shared, d))
  {
    hide IsRun, GoesOn, Alone, SharedOk, Registered, Invariant;
    RunIsNotEmpty(l, run);
    var w := Last(run);
    InvariantOnRuns(l, run, |run| - 1);
    assert SharedOk(l, w.shared) && LiveOk(l, w.shared, e) by { InvariantParts(l, w); }
    var n := FreeAlone(l, t, At(w, t), e);
    longer := RunGoesOn(l, run, t, Local(WithoutMark(w.shared, e), w.live - {e}, Idle), n);
    assert w.pcs[t := Idle] == w.pcs;
  }

  /** Every run can go on so that an idle thread looks any address up, and is told its block or that there is none. */
  lemma CanLookUp(l: Layout, run: seq<World>, t: nat, ptr: int) returns (longer: seq<World>)
    requires IsRun(l, run) && t in Last(run).pcs && Last(run).pcs[t].Idle?
    ensures GoesOn(l, run, longer) && longer != [] && Cells(Last(run).shared.sets)
    ensures var (w, w') := (Last(run), Last(longer));
            && w'.shared == w.shared && w'.live == w.live
            && t in w'.pcs && w'.pcs[t].FindDone? && w'.pcs[t].q.ptr == ptr
            && Answer(l, Published(w.shared.sets), ptr, w'.pcs[t].found)
  {
    hide IsRun, GoesOn, Alone, SharedOk, Registered, Invariant;
    RunIsNotEmpty(l, run);
    var w := Last(run);
    InvariantOnRuns(l, run, |run| - 1);
    assert SharedOk(l, w.shared) by { InvariantParts(l, w); }
    SharedParts(l, w.shared);
    var p := Published(w.shared.sets);
    var q := Aim(l, p, ptr);
    var a := At(w, t);
    var start := a.(pc := FindUsed(q, 0));
    var r, n := LookupEnds(l, t, start);
    var end := a.(pc := FindDone(q, r));
    Then(l, t, a, start, end, n);
    longer := RunGoesOn(l, run, t, end, n + 1);
    AimAnswers(l, p, q, r);
  }

  /** What a lookup owes: a registered block that contains the address, or the news that none does. */
  ghost predicate Answer(l: Layout, p: Blocksets, ptr: int, r: Option<nat>) {
    match r
    case Some(b) => Registered(p, b) && l.Contains(b, ptr)
    case None => forall b: nat :: Registered(p, b) ==> !l.Contains(b, ptr)
  }

  lemma Aim(l: Layout, p: Blocksets, ptr: int) returns (q: Query)
    ensures q.ptr == ptr && q.freeing == None && Targets(l, p, q) && QueryOk(l, p, q)
  {
    if i, k :| 0 <= i < |p| && 0 <= k < |p[i]| && l.Contains(p[i][k], ptr) {
      q := Query(ptr, Some(Position(i, k)), None);
    } else {
      q := Query(ptr, None, None);
    }
  }

  lemma AimAnswers(l: Layout, p: Blocksets, q: Query, r: Option<nat>)
    requires Targets(l, p, q) && FindOk(l, p, FindDone(q, r))
    ensures Answer(l, p, q.ptr, r)
  {
  }
}
