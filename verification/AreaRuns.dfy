/**
 Callers of an area: any sequence of area_alloc and area_free calls, on an area in any state or on a
 new one, and the double free that the counters do not survive.
 */
module AreaRuns {
  import opened AreaPlacement
  import opened AreaAllocator
  import opened Wrappers

  /** A call, with what malloc would answer if it were asked. */
  datatype Request = Allocate(mallocBlock: Option<nat>, mallocSet: bool) | Release(ptr: nat)

  /** What a call did. */
  datatype Event = Allocated(ptr: int) | Failed | Freed(ptr: int) | Refused(ptr: int)

  predicate Answers(request: Request, e: Event) {
    match request
    case Allocate(_, _) => e.Allocated? || e.Failed?
    case Release(ptr) => e == Freed(ptr) || e == Refused(ptr)
  }

  /** The addresses in use after one event, and after a run. */
  function After(live: set<int>, e: Event): set<int> {
    match e
    case Allocated(p) => live + {p}
    case Freed(p) => live - {p}
    case _ => live
  }

  function LiveAfter(live: set<int>, events: seq<Event>): set<int> {
    if events == [] then live
    else After(LiveAfter(live, events[..|events| - 1]), events[|events| - 1])
  }

  /** No call was given an address in use, and no address in use was refused. */
  ghost predicate Honest(live: set<int>, events: seq<Event>) {
    forall i {:trigger events[i]} :: 0 <= i < |events| ==> Sound(LiveAfter(live, events[..i]), events[i])
  }

  predicate Sound(live: set<int>, e: Event) {
    match e
    case Allocated(p) => p !in live
    case Refused(p) => p !in live
    case _ => true
  }

  function AllocsIn(events: seq<Event>): nat {
    if events == [] then 0
    else AllocsIn(events[..|events| - 1]) + if events[|events| - 1].Allocated? then 1 else 0
  }

  function FreesIn(events: seq<Event>): nat {
    if events == [] then 0
    else FreesIn(events[..|events| - 1]) + if events[|events| - 1].Freed? then 1 else 0
  }

  /** The frees of slots that were free already. */
  function StraysIn(live: set<int>, events: seq<Event>): nat {
    if events == [] then 0
    else
      var n := |events| - 1;
      StraysIn(live, events[..n]) + if events[n].Freed? && events[n].ptr !in LiveAfter(live, events[..n]) then 1 else 0
  }

  /** Whether a block at this address would overlap no registered one. */
  method MayPlace(area: Area, addr: nat) returns (ok: bool)
    requires area.Structured()
    ensures ok <==> Fresh(area.layout, area.Sets(), addr)
  {
    hide Shaped, Separate, At, PlacedOf;
    var l := area.layout;
    var blockset := area.blocksetList;
    ghost var j: nat, chain: seq<Blockset>, contents: seq<seq<AreaBlock>> := 0, area.chain, area.contents;
    while blockset != null
      invariant 0 <= j <= |chain| && blockset == if j < |chain| then chain[j] else null
      invariant forall i, k :: 0 <= i < j && 0 <= k < |contents[i]| ==> l.Apart(contents[i][k].addr, addr)
      decreases |chain| - j
    {
      assert chain[j].Filled() && chain[j].Blocks() == contents[j];
      for i := 0 to blockset.usedCount
        invariant forall k :: 0 <= k < i ==> l.Apart(contents[j][k].addr, addr)
      {
        var block: AreaBlock := blockset.items[i];
        if !l.Apart(block.addr, addr) {
          assert area.Sets()[j][i] == block.addr;
          return false;
        }
      }
      blockset := blockset.next;
      j := j + 1;
    }
    ok := true;
  }

  /** Where the addresses in use lie: elements that do not overlap, each inside one registered block. */
  ghost predicate Disjoint(l: Layout, blocks: set<AreaBlock>, live: set<int>) {
    && (forall p, q :: p in live && q in live && p != q ==> p + l.elementSize <= q || q + l.elementSize <= p)
    && (forall p :: p in live ==>
          exists b: AreaBlock :: b in blocks && InBlock(l, b, p))
  }

  lemma LiveApart(area: Area)
    requires area.Valid()
    ensures Disjoint(area.layout, area.blocks, area.Live())
  {
    hide LiveOf, Slotted, Area.Structured, Area.Mapped;
    area.UsedSlotted();
    var l, m := area.layout, area.used;
    forall p, q | p in area.Live() && q in area.Live() && p != q
      ensures p + l.elementSize <= q || q + l.elementSize <= p
    {
      LivePointersDisjoint(l, m, p, q);
    }
    forall p | p in area.Live()
      ensures exists b: AreaBlock :: b in area.blocks && InBlock(l, b, p)
    {
      LiveInside(l, m, p);
    }
  }

  /** malloc answers with a block that overlaps no other, and with a blockset. */
  ghost predicate Usable(area: Area, request: Request)
    reads area
  {
    && request.Allocate? && request.mallocBlock.Some? && request.mallocSet
    && Fresh(area.layout, area.Sets(), request.mallocBlock.value)
  }

  /** One call. An answer of malloc that would overlap a block is one malloc cannot give. */
  method Call(area: Area, request: Request) returns (e: Event)
    requires area.Valid()
    modifies area, area.chain, area.arrays, area.bitmaps
    ensures area.Valid()
    ensures forall k :: 0 <= k < |area.chain| ==> area.chain[k] in old(area.chain) || fresh(area.chain[k])
    ensures fresh(area.arrays - old(area.arrays)) && fresh(area.bitmaps - old(area.bitmaps))
    ensures area.Live() == After(old(area.Live()), e) && Sound(old(area.Live()), e)
    ensures !area.serverMode ==> area.nAllocs == old(area.nAllocs) + if e.Allocated? then 1 else 0
    ensures !area.serverMode ==> area.nFrees == old(area.nFrees) + if e.Freed? then 1 else 0
    ensures area.strayFrees == old(area.strayFrees) + if e.Freed? && e.ptr !in old(area.Live()) then 1 else 0
    ensures e.Failed? ==> AllFull(old(area.used)) && area.used == old(area.used) && area.contents == old(area.contents)
    ensures e.Failed? ==> !old(Usable(area, request))
    ensures old(area.Roomy()) && request.Allocate? ==> e.Allocated? && area.contents == old(area.contents)
    ensures Answers(request, e) && (request.Release? ==> (e.Freed? <==> old(area.IsSlot(request.ptr))))
  {
    hide Area.Valid, LiveOf, Fresh, SlotIn, AllFull, Full, Inserted, Area.Roomy, Area.Sets, Area.Structured;
    assert area.Structured() by { IsStructured(area); }
    match request
    case Allocate(mallocBlock, mallocSet) =>
      var answer := mallocBlock;
      if answer.Some? {
        var ok := MayPlace(area, answer.value);
        if !ok {
          answer := None;
        }
      }
      var r := area.Alloc(answer, mallocSet);
      e := if r.Some? then Allocated(r.value) else Failed;
    case Release(ptr) =>
      LiveIsSlot(area, ptr);
      var r := area.Free(ptr);
      e := if r == NoError then Freed(ptr) else Refused(ptr);
  }

  lemma IsStructured(area: Area)
    requires area.Valid()
    ensures area.Structured()
  {
  }

  lemma LiveIsSlot(area: Area, p: int)
    requires area.Valid()
    ensures p in area.Live() ==> area.IsSlot(p)
  {
    area.UsedSlotted();
  }

  /** What a run has done to an area that started with these counters and live addresses. */
  ghost predicate Accounts(area: Area, live: set<int>, allocs: nat, frees: nat, strays: nat, events: seq<Event>)
    reads area
  {
    && area.Live() == LiveAfter(live, events) && Honest(live, events)
    && area.strayFrees == strays + StraysIn(live, events)
    && (!area.serverMode ==> area.nAllocs == allocs + AllocsIn(events) && area.nFrees == frees + FreesIn(events))
  }

  lemma AccountsNone(area: Area)
    ensures Accounts(area, area.Live(), area.nAllocs, area.nFrees, area.strayFrees, [])
  {
  }

  lemma OneMore(live: set<int>, events: seq<Event>, e: Event)
    requires Honest(live, events) && Sound(LiveAfter(live, events), e)
    ensures Honest(live, events + [e]) && LiveAfter(live, events + [e]) == After(LiveAfter(live, events), e)
    ensures AllocsIn(events + [e]) == AllocsIn(events) + if e.Allocated? then 1 else 0
    ensures FreesIn(events + [e]) == FreesIn(events) + if e.Freed? then 1 else 0
    ensures StraysIn(live, events + [e])
         == StraysIn(live, events) + if e.Freed? && e.ptr !in LiveAfter(live, events) then 1 else 0
  {
    var n, more := |events|, events + [e];
    assert more[..n] == events;
    forall i {:trigger more[i]} | 0 <= i < |more| ensures Sound(LiveAfter(live, more[..i]), more[i]) {
      if i < n {
        assert more[..i] == events[..i] && more[i] == events[i];
      }
    }
  }

  /**
   Any sequence of calls on an area in any good state. In the state it ends in, and so after every call,
   the addresses in use are those given out and not taken back, they do not overlap, and the counters
   differ from their number by the frees of slots that were free already.
   */
  method Serve(area: Area, requests: seq<Request>) returns (events: seq<Event>)
    requires area.Valid()
    modifies area, area.chain, area.arrays, area.bitmaps
    ensures area.Valid() && |events| == |requests| && forall i :: 0 <= i < |events| ==> Answers(requests[i], events[i])
    ensures forall k :: 0 <= k < |area.chain| ==> area.chain[k] in old(area.chain) || fresh(area.chain[k])
    ensures fresh(area.arrays - old(area.arrays)) && fresh(area.bitmaps - old(area.bitmaps))
    ensures Accounts(area, old(area.Live()), old(area.nAllocs), old(area.nFrees), old(area.strayFrees), events)
    ensures Disjoint(area.layout, area.blocks, area.Live())
    ensures !area.serverMode ==> (area.nAllocs == area.nFrees + |area.Live()| <==> area.strayFrees == 0)
  {
    hide Area.Structured, Area.Mapped, LiveOf, Honest, LiveAfter, After, Sound, AllocsIn,
         FreesIn, StraysIn, Disjoint, Answers;
    events := [];
    AccountsNone(area);
    ghost var live := area.Live();
    for i := 0 to |requests|
      invariant area.Valid() && |events| == i && forall k :: 0 <= k < i ==> Answers(requests[k], events[k])
      invariant forall k :: 0 <= k < |area.chain| ==> area.chain[k] in old(area.chain) || fresh(area.chain[k])
      invariant fresh(area.arrays - old(area.arrays)) && fresh(area.bitmaps - old(area.bitmaps))
      invariant Accounts(area, live, old(area.nAllocs), old(area.nFrees), old(area.strayFrees), events)
    {
      var e := Call(area, requests[i]);
      OneMore(live, events, e);
      events := events + [e];
    }
    LiveApart(area);
    if !area.serverMode {
      area.CountersMatch();
    }
  }

  /** The same from area_create on: the counters count the calls of the whole run. */
  method ServeNew(header: nat, elementSize: nat, allocCount: nat, usageRatio: real, serverMode: bool,
                  firstBlock: nat, requests: seq<Request>)
    returns (area: Area, events: seq<Event>)
    requires header > 0 && elementSize > 0 && allocCount > 0 && 0.0 < usageRatio
    ensures fresh(area) && area.Valid() && area.serverMode == serverMode
    ensures |events| == |requests| && forall i :: 0 <= i < |events| ==> Answers(requests[i], events[i])
    ensures Accounts(area, {}, 0, 0, 0, events) && Disjoint(area.layout, area.blocks, area.Live())
    ensures !serverMode ==> AllocsIn(events) + StraysIn({}, events) == FreesIn(events) + |area.Live()|
  {
    hide Area.Structured, Area.Mapped, LiveOf, Honest, LiveAfter, AllocsIn, FreesIn, StraysIn, Disjoint, Answers;
    area := new Area(header, elementSize, allocCount, usageRatio, serverMode, firstBlock);
    events := Serve(area, requests);
  }

  lemma EmptyIsNotFull(area: Area, b: AreaBlock)
    requires area.Valid() && area.used == map[b := {}]
    ensures !AllFull(area.used)
  {
    hide Area.Linked, Area.Holds, PlacedOf, LiveOf;
    assert Marks(area.layout, area.usageRatio, b.bitmap, {});
    NotFull(b.bitmap.usageThreshold, area.layout.allocCount as real);
    assert !Full(area.used, b);
  }

  /** A slot freed twice: no error, nothing live, and one free more than there were allocations. */
  method FreeTwice(header: nat, elementSize: nat, allocCount: nat, usageRatio: real, firstBlock: nat)
    returns (area: Area, p: nat, first: Outcome, second: Outcome)
    requires header > 0 && elementSize > 0 && allocCount > 0 && 0.0 < usageRatio
    ensures area.Valid() && !area.serverMode && first == second == NoError
    ensures |area.Live()| == 0 && area.nAllocs == 1 && area.nFrees == 2 && area.strayFrees == 1
    ensures area.nAllocs != area.nFrees + |area.Live()|
  {
    hide Area.Valid, LiveOf, AllFull, SlotIn;
    area := new Area(header, elementSize, allocCount, usageRatio, false, firstBlock);
    EmptyIsNotFull(area, area.hintBlock);
    var r := area.Alloc(None, false);
    p := r.value;
    first := area.Free(p);
    second := area.Free(p);
    assert area.Live() == {};
  }
}
