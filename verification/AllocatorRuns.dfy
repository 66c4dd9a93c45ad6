/** Whole runs of the allocator, on the contents of its lists and the frames it has handed out. */
module AllocatorRuns {
  import opened Prelude
  import opened FrameLists
  import opened MemoryMap

  /** A call made by the rest of the kernel. */
  datatype Call =
    | Request(order: nat)
    | Allocate(count: nat)
    | FreeBlock(base: nat, order: nat)

  datatype State = State(lists: Lists, handed: set<nat>)

  /** Callers pass positive counts and return only frames they hold. */
  ghost predicate Legal(s: State, c: Call) {
    match c
    case Request(_) => true
    case Allocate(count) => count > 0
    case FreeBlock(base, order) => order <= MAX_ORDER && Frames(base, Pow2(order)) <= s.handed
  }

  ghost function Step(s: State, c: Call): (r: State)
    requires Legal(s, c)
  {
    match c
    case Request(order) =>
      (match Granted(s.lists, order)
       case None => s
       case Some(base) => State(AfterRequest(s.lists, order), s.handed + Frames(base, Pow2(order))))
    case Allocate(count) =>
      (match Granted(s.lists, AskedOrder(count))
       case None => s
       case Some(base) => State(AfterAllocate(s.lists, count), s.handed + Frames(base, count)))
    case FreeBlock(base, order) =>
      State(Push(s.lists, base, order), s.handed - Frames(base, Pow2(order)))
  }

  ghost predicate LegalRun(s: State, calls: seq<Call>)
    decreases |calls|
  {
    calls == [] || (Legal(s, calls[0]) && LegalRun(Step(s, calls[0]), calls[1..]))
  }

  ghost function Run(s: State, calls: seq<Call>): (r: State)
    requires LegalRun(s, calls)
    decreases |calls|
  {
    if calls == [] then s else Run(Step(s, calls[0]), calls[1..])
  }

  /** The lists change as the call `c` of a run changes them, and the frames handed out by `taken` and `given`,
      whatever else is handed out. */
  ghost predicate IsStep(lists: Lists, lists': Lists, c: Call, taken: set<nat>, given: set<nat>) {
    forall handed: set<nat> :: Legal(State(lists, handed), c) ==>
      Step(State(lists, handed), c) == State(lists', handed + taken - given)
  }

  lemma RequestIsStep(lists: Lists, order: nat, free: set<nat>, free': set<nat>)
    requires match Granted(lists, order)
             case None => AfterRequest(lists, order) == lists && free' == free
             case Some(base) => Frames(base, Pow2(order)) <= free && free' == free - Frames(base, Pow2(order))
    ensures IsStep(lists, AfterRequest(lists, order), Request(order), free - free', free' - free)
  {
    hide Granted, AfterRequest, Frames, Pow2;
    if Granted(lists, order).Some? {
      assert free - free' == Frames(Granted(lists, order).value, Pow2(order));
    }
  }

  lemma AllocateIsStep(lists: Lists, count: nat, free: set<nat>, free': set<nat>)
    requires count > 0
    requires match Granted(lists, AskedOrder(count))
             case None => AfterAllocate(lists, count) == lists && free' == free
             case Some(base) => Frames(base, count) <= free && free' == free - Frames(base, count)
    ensures IsStep(lists, AfterAllocate(lists, count), Allocate(count), free - free', free' - free)
  {
    hide Granted, AfterAllocate, AskedOrder, Frames;
    if Granted(lists, AskedOrder(count)).Some? {
      assert free - free' == Frames(Granted(lists, AskedOrder(count)).value, count);
    }
  }

  lemma FreeIsStep(lists: Lists, base: nat, order: nat, free: set<nat>)
    requires order <= MAX_ORDER && Frames(base, Pow2(order)) !! free
    ensures var free' := free + Frames(base, Pow2(order));
            IsStep(lists, Push(lists, base, order), FreeBlock(base, order), free - free', free' - free)
  {
    hide Push, Frames, Pow2;
    var free' := free + Frames(base, Pow2(order));
    assert free - free' == {} && free' - free == Frames(base, Pow2(order));
  }

  /** Freeing `n` frames from `f` on, one at a time. */
  function FreeCalls(f: nat, n: nat): (calls: seq<Call>) {
    if n == 0 then [] else FreeCalls(f, n - 1) + [FreeBlock(f + n - 1, 0)]
  }

  function Released(lists: Lists, f: nat, n: nat): (r: Lists) {
    if n == 0 then lists else Push(Released(lists, f, n - 1), f + n - 1, 0)
  }

  /** A run goes on after a run. */
  lemma {:induction false} RunThen(s: State, calls: seq<Call>, c: Call)
    requires LegalRun(s, calls) && Legal(Run(s, calls), c)
    ensures LegalRun(s, calls + [c]) && Run(s, calls + [c]) == Step(Run(s, calls), c)
    decreases |calls|
  {
    hide Legal, Step;
    if calls == [] {
      assert [c][1..] == [];
      assert Run(Step(s, c), []) == Step(s, c);
    } else {
      assert (calls + [c])[1..] == calls[1..] + [c];
      RunThen(Step(s, calls[0]), calls[1..], c);
    }
  }

  /** `free_pages` is a run of single frees. */
  lemma {:induction false} ReleasedIsRun(s: State, f: nat, n: nat)
    requires Frames(f, n) <= s.handed
    ensures LegalRun(s, FreeCalls(f, n))
    ensures Run(s, FreeCalls(f, n)) == State(Released(s.lists, f, n), s.handed - Frames(f, n))
    decreases n
  {
    hide LegalRun, Run, Push;
    if n == 0 {
      EmptyRun(s);
      assert s.handed - Frames(f, 0) == s.handed;
    } else {
      assert Frames(f, n) == Frames(f, n - 1) + {f + n - 1};
      assert Frames(f + n - 1, Pow2(0)) == {f + n - 1};
      ReleasedIsRun(s, f, n - 1);
      RunThen(s, FreeCalls(f, n - 1), FreeBlock(f + n - 1, 0));
    }
  }

  lemma EmptyRun(s: State)
    ensures LegalRun(s, []) && Run(s, []) == s
  {
  }

  /** Blocks are disjoint and no frame is both free and handed out. */
  ghost predicate Inv(s: State) {
    BlocksDisjoint(s.lists) && FreeFrames(s.lists) !! s.handed
  }

  lemma StepConserves(s: State, c: Call)
    requires Inv(s) && Legal(s, c)
    ensures var t := Step(s, c);
            && Inv(t)
            && FreeFrames(t.lists) + t.handed == FreeFrames(s.lists) + s.handed
  {
    hide BlocksDisjoint, FreeFrames, Granted, AfterRequest, AfterAllocate, Push, Frames;
    match c
    case Request(order) =>
      if Granted(s.lists, order).Some? { RequestTakes(s.lists, order); }
    case Allocate(count) =>
      if Granted(s.lists, AskedOrder(count)).Some? { AllocateTakes(s.lists, count); }
    case FreeBlock(base, order) =>
      PushAdds(s.lists, base, order);
  }

  /** Over any run the lists stay disjoint and the free and handed-out frames together stay the same
      set, so no frame is ever handed out twice, lost, or invented. */
  lemma {:induction false} RunConserves(s: State, calls: seq<Call>)
    requires Inv(s) && LegalRun(s, calls)
    ensures var t := Run(s, calls);
            && Inv(t)
            && FreeFrames(t.lists) + t.handed == FreeFrames(s.lists) + s.handed
            && Count(t.lists) + |t.handed| == Count(s.lists) + |s.handed|
    decreases |calls|
  {
    hide BlocksDisjoint, FreeFrames, Count, Step;
    if calls != [] {
      StepConserves(s, calls[0]);
      RunConserves(Step(s, calls[0]), calls[1..]);
    }
    var t := Run(s, calls);
    CountIsFreeFrames(s.lists);
    CountIsFreeFrames(t.lists);
    assert |FreeFrames(t.lists) + t.handed| == |FreeFrames(t.lists)| + |t.handed|;
    assert |FreeFrames(s.lists) + s.handed| == |FreeFrames(s.lists)| + |s.handed|;
  }

  /** From the state that `new` leaves, with nothing handed out, no run ever lists or hands out the boot
      frame, a reserved frame or a lost one, and the usable frames stay accounted for. */
  lemma FromNewOn(regions: seq<Region>, lists: Lists, reserved: set<nat>, calls: seq<Call>)
    requires BlocksDisjoint(lists) && BOOT_FRAME !in FreeFrames(lists)
    requires FreeFrames(lists) !! reserved && FreeFrames(lists) !! Lost(regions)
    requires FreeFrames(lists) + reserved + Lost(regions) == RegionFrames(regions) - {BOOT_FRAME}
    requires LegalRun(State(lists, {}), calls)
    ensures var t := Run(State(lists, {}), calls);
            && BOOT_FRAME !in FreeFrames(t.lists) + t.handed
            && (FreeFrames(t.lists) + t.handed) !! reserved + Lost(regions)
            && FreeFrames(t.lists) + t.handed + reserved + Lost(regions) == RegionFrames(regions) - {BOOT_FRAME}
  {
    hide BlocksDisjoint, FreeFrames, Count, Step, Lost, RegionFrames, Run;
    RunConserves(State(lists, {}), calls);
    assert FreeFrames(lists) + {} == FreeFrames(lists);
  }
}
