/**
 Several address spaces over one machine: every run of insert, fault and free calls
 in any of them, and of creating and dropping shared mappings.
 */
module SharedSpaces {
  import opened Prelude
  import opened Addresses
  import opened PageTables
  import opened RangeList
  import opened SpaceModel
  import opened PageMapper

  /** `held` are the mappings referred to from outside the lists (an `Arc` in a local variable). */
  datatype World = World(c: Machine, spaces: map<nat, Space>, held: set<nat>)

  /** A call on one address space. An insertion enters `n` pages: all of the mapping's, or none. */
  datatype Change =
    | Insert(i: nat, e: Listed, n: nat)
    | Fault(e: Listed, a: nat)
    | Free(i: nat)

  /** What the page mapper's methods promise when they succeed. */
  ghost predicate Changes(c: Machine, s: Space, ch: Change, c': Machine, s': Space) {
    && s'.root == s.root
    && match ch
       case Insert(i, e, n) => InsertChange(c, s, i, e, n, c', s')
       case Fault(e, a) => FaultChange(c, s, e, a, c', s')
       case Free(i) => FreeChange(c, s, i, c', s')
  }

  /** Each call keeps its own address space correct. */
  lemma ChangeKeepsSpace(c: Machine, s: Space, ch: Change, c': Machine, s': Space)
    requires SpaceOk(c, s) && Changes(c, s, ch, c', s')
    ensures SpaceOk(c', s')
  {
    hide Tree, Reach, Walk;
    match ch
    case Insert(i, e, n) =>
      InsertAtMembers(s.list, i, e);
      CacheAfterInsert(c, c', s, i, e);
    case Fault(e, a) =>
      PageHolding(e, a);
      var v: nat := a - a % PAGE;
      var spent :| FilledFor(c.maps, c'.maps, e.id, PageOf(e, v), spent)
                   && TableStep(c.m, c.free, c'.m, c'.free, s.root, spent);
      CacheAfterFault(c, c', s, e, v, spent);
    case Free(i) =>
      RemoveSorted(s.list, i);
      RemoveAtMembers(s.list, i);
      CacheAfterRemove(c, c', s, i);
  }

  // ---------------------------------------------------------------------------
  // The invariant over all address spaces
  // ---------------------------------------------------------------------------

  /** Slot `i` of lazy mapping `id` holds frame `f`. */
  predicate Slot(maps: map<nat, PageMapping>, id: nat, i: nat, f: nat) {
    id in maps && maps[id].Lazy? && i < |maps[id].pages| && maps[id].pages[i] == Some(f)
  }

  /** Frames in slots are in one slot each, not free, and not tables of any address space. */
  ghost predicate FramesOwned(w: World) {
    && (forall id: nat, i: nat, id': nat, i': nat, f: nat ::
          Slot(w.c.maps, id, i, f) && Slot(w.c.maps, id', i', f) ==> id == id' && i == i')
    && (forall id: nat, i: nat, f: nat :: Slot(w.c.maps, id, i, f) ==> f !in w.c.free)
    && forall id: nat, i: nat, f: nat, p: nat ::
         Slot(w.c.maps, id, i, f) && p in w.spaces ==> f !in Reach(w.c.m, 4, w.spaces[p].root)
  }

  ghost predicate TablesApart(w: World) {
    forall p: nat, q: nat :: p in w.spaces && q in w.spaces && p != q ==>
      Reach(w.c.m, 4, w.spaces[p].root) !! Reach(w.c.m, 4, w.spaces[q].root)
  }

  ghost predicate Inv(w: World) {
    && (forall p: nat :: p in w.spaces ==> SpaceOk(w.c, w.spaces[p]))
    && TablesApart(w) && FramesOwned(w)
  }

  /** No list refers to the mapping and nothing else holds it. */
  ghost predicate Unreferenced(w: World, id: nat) {
    id !in w.held && forall p: nat, e: Listed :: p in w.spaces && e in w.spaces[p].list ==> e.id != id
  }

  ghost function FramesIn(p: PageMapping): (s: set<nat>) {
    if p.Lazy? then set i | 0 <= i < |p.pages| && p.pages[i].Some? :: p.pages[i].value else {}
  }

  /** Every slot of a new mapping that is filled holds a free frame of its own. */
  ghost predicate FreshMapping(p: PageMapping, free: set<nat>) {
    && MappingOk(p) && FramesIn(p) <= free
    && (p.Lazy? ==> forall i, j :: 0 <= i < j < |p.pages| && p.pages[i].Some? ==> p.pages[i] != p.pages[j])
  }

  datatype Step =
    | Call(p: nat, ch: Change)
    | NewSpace(p: nat, root: nat)
    | NewMapping(id: nat, mapping: PageMapping)
    | TopStack(id: nat, spent: set<nat>)
    | GiveUp(p: nat)
    | Hold(held: set<nat>)
    | Drop(id: nat)

  ghost predicate SameBut(spaces: map<nat, Space>, spaces': map<nat, Space>, p: nat) {
    && spaces'.Keys == spaces.Keys
    && forall q: nat :: q in spaces && q != p ==> spaces'[q] == spaces[q]
  }

  ghost predicate CallStep(w: World, p: nat, ch: Change, w': World) {
    && p in w.spaces && w'.held == w.held && SameBut(w.spaces, w'.spaces, p)
    && Changes(w.c, w.spaces[p], ch, w'.c, w'.spaces[p])
  }

  /** An address space starts with an empty table in a frame of its own. */
  ghost predicate NewSpaceStep(w: World, p: nat, root: nat, w': World) {
    && p !in w.spaces && root in w.c.free && w'.held == w.held
    && root > 0 && root in w'.c.m && AllAbsent(w'.c.m[root]) && AgreeOutside(w.c.m, w'.c.m, {root})
    && w'.c.free == w.c.free - {root} && w'.c.maps == w.c.maps
    && w'.spaces == w.spaces[p := Space(root, [])]
  }

  ghost predicate NewMappingStep(w: World, id: nat, p: PageMapping, w': World) {
    && id !in w.c.maps && FreshMapping(p, w.c.free) && w'.held == w.held + {id}
    && w'.c.m == w.c.m && w'.c.free == w.c.free - FramesIn(p) && w'.c.maps == w.c.maps[id := p]
    && w'.spaces == w.spaces
  }

  /** The last page of a lazy mapping is given a frame, if it has none (`base_top_stack`). */
  ghost predicate TopStackStep(w: World, id: nat, spent: set<nat>, w': World) {
    && id in w.c.maps && MappingOk(w.c.maps[id]) && w.c.maps[id].Lazy?
    && FilledFor(w.c.maps, w'.c.maps, id, |w.c.maps[id].pages| - 1, spent)
    && spent <= w.c.free && w'.c.free == w.c.free - spent && w'.c.m == w.c.m
    && w'.spaces == w.spaces && w'.held == w.held
  }

  /** An address space is given up. Its list goes; its tables stay allocated. */
  ghost predicate GiveUpStep(w: World, p: nat, w': World) {
    p in w.spaces && w'.c == w.c && w'.spaces == w.spaces - {p} && w'.held == w.held
  }

  /** A reference outside the lists is taken or given up. */
  ghost predicate HoldStep(w: World, held: set<nat>, w': World) {
    held <= w.c.maps.Keys && w'.held == held && w'.c == w.c && w'.spaces == w.spaces
  }

  /** Dropping the last reference to a mapping gives its frames back. */
  ghost predicate DropStep(w: World, id: nat, w': World) {
    && id in w.c.maps && Unreferenced(w, id) && w'.held == w.held
    && w'.c.m == w.c.m && w'.c.free == w.c.free + FramesIn(w.c.maps[id]) && w'.c.maps == w.c.maps - {id}
    && w'.spaces == w.spaces
  }

  ghost predicate Next(w: World, st: Step, w': World) {
    match st
    case Call(p, ch) => CallStep(w, p, ch, w')
    case NewSpace(p, root) => NewSpaceStep(w, p, root, w')
    case NewMapping(id, mapping) => NewMappingStep(w, id, mapping, w')
    case TopStack(id, spent) => TopStackStep(w, id, spent, w')
    case GiveUp(p) => GiveUpStep(w, p, w')
    case Hold(held) => HoldStep(w, held, w')
    case Drop(id) => DropStep(w, id, w')
  }

  // ---------------------------------------------------------------------------
  // What one step leaves alone
  // ---------------------------------------------------------------------------

  /** A mapping only gains frames: a page that has one keeps it. */
  ghost predicate Kept(p: PageMapping, p': PageMapping) {
    && p'.size == p.size && p'.Lazy? == p.Lazy?
    && (p.Mmap? ==> p'.base == p.base)
    && (p.Lazy? ==> |p'.pages| == |p.pages|
                    && forall i :: 0 <= i < |p.pages| && p.pages[i].Some? ==> p'.pages[i] == p.pages[i])
  }

  ghost predicate ListKept(maps: map<nat, PageMapping>, maps': map<nat, PageMapping>, list: seq<Listed>) {
    forall e :: e in list && e.id in maps ==> e.id in maps' && Kept(maps[e.id], maps'[e.id])
  }

  /** An address space whose tables and mappings are left alone stays correct. */
  lemma SpaceLeftAlone(c: Machine, c': Machine, s: Space, area: set<nat>)
    requires SpaceOk(c, s) && AgreeOutside(c.m, c'.m, area) && area !! Reach(c.m, 4, s.root)
    requires c'.free !! Reach(c.m, 4, s.root) && ListKept(c.maps, c'.maps, s.list)
    ensures SpaceOk(c', s) && Reach(c'.m, 4, s.root) == Reach(c.m, 4, s.root)
  {
    hide Tree, Reach, Walk, Sorted;
    TreeFrame(c.m, c'.m, 4, s.root);
    forall e | e in s.list
      ensures ListedOk(c'.maps, e)
    {
      assert ListedOk(c.maps, e);
    }
    forall v: nat | PageAddress(v) && Walk(c'.m, 4, s.root, v).Hit?
      ensures Explained(c', s, v)
    {
      assert Explained(c, s, v);
      var e :| e in s.list && CachedBy(c, s.root, e, v);
      assert CachedBy(c', s.root, e, v);
    }
  }

  // ---------------------------------------------------------------------------
  // Calls
  // ---------------------------------------------------------------------------

  /** What a call changes beyond its own space: tables outside its tree and the free frames stay, and
      mappings only gain the frames spent. */
  lemma ChangeEffect(c: Machine, s: Space, ch: Change, c': Machine, s': Space) returns (id: nat, i: nat, spent: set<nat>)
    requires Changes(c, s, ch, c', s')
    ensures TableStep(c.m, c.free, c'.m, c'.free, s.root, spent)
    ensures FilledFor(c.maps, c'.maps, id, i, spent)
  {
    hide Tree, Reach, Walk, Sorted, TableStep, FilledFor, Sets;
    id, i, spent := 0, 0, {};
    match ch
    case Insert(_, _, _) => SameMaps(c.maps);
    case Free(_) => SameMaps(c.maps);
    case Fault(e, a) =>
      var v: nat := a - a % PAGE;
      id, i := e.id, PageOf(e, v);
      spent :| FilledFor(c.maps, c'.maps, e.id, PageOf(e, v), spent)
               && TableStep(c.m, c.free, c'.m, c'.free, s.root, spent);
  }

  lemma SameMaps(maps: map<nat, PageMapping>)
    ensures FilledFor(maps, maps, 0, 0, {})
  {
  }

  lemma FilledKeeps(maps: map<nat, PageMapping>, maps': map<nat, PageMapping>, id: nat, i: nat, spent: set<nat>, id1: nat)
    requires FilledFor(maps, maps', id, i, spent) && id1 in maps
    ensures id1 in maps' && Kept(maps[id1], maps'[id1])
  {
  }

  /** A frame in a slot was there before, or is the one the call spent. */
  lemma FilledSlot(maps: map<nat, PageMapping>, maps': map<nat, PageMapping>, id: nat, i: nat, spent: set<nat>,
                   id1: nat, i1: nat, f: nat)
    requires FilledFor(maps, maps', id, i, spent) && Slot(maps', id1, i1, f)
    ensures Slot(maps, id1, i1, f) || (f in spent && id1 == id && i1 == i)
  {
  }

  lemma CallKeepsSpaces(w: World, p: nat, ch: Change, w': World, id: nat, i: nat, spent: set<nat>)
    requires Inv(w) && CallStep(w, p, ch, w')
    requires TableStep(w.c.m, w.c.free, w'.c.m, w'.c.free, w.spaces[p].root, spent)
    requires FilledFor(w.c.maps, w'.c.maps, id, i, spent)
    ensures forall q: nat :: q in w'.spaces ==> SpaceOk(w'.c, w'.spaces[q]) && w'.spaces[q].root == w.spaces[q].root
    ensures forall q: nat :: q in w.spaces && q != p ==>
      Reach(w'.c.m, 4, w.spaces[q].root) == Reach(w.c.m, 4, w.spaces[q].root)
  {
    hide Tree, Reach, Walk, CacheOk, ListOk, FilledFor;
    ChangeKeepsSpace(w.c, w.spaces[p], ch, w'.c, w'.spaces[p]);
    forall q: nat | q in w.spaces && q != p
      ensures SpaceOk(w'.c, w.spaces[q]) && Reach(w'.c.m, 4, w.spaces[q].root) == Reach(w.c.m, 4, w.spaces[q].root)
    {
      var s := w.spaces[q];
      forall e | e in s.list && e.id in w.c.maps
        ensures e.id in w'.c.maps && Kept(w.c.maps[e.id], w'.c.maps[e.id])
      {
        FilledKeeps(w.c.maps, w'.c.maps, id, i, spent, e.id);
      }
      SpaceLeftAlone(w.c, w'.c, s, Reach(w.c.m, 4, w.spaces[p].root) + w.c.free);
    }
  }

  lemma CallKeepsInv(w: World, p: nat, ch: Change, w': World)
    requires Inv(w) && CallStep(w, p, ch, w')
    ensures Inv(w')
  {
    hide Tree, Reach, Walk, SpaceOk, Slot, FilledFor, Changes;
    var id, i, spent := ChangeEffect(w.c, w.spaces[p], ch, w'.c, w'.spaces[p]);
    CallKeepsSpaces(w, p, ch, w', id, i, spent);
    SpacesOk(w);
    forall id1: nat, i1: nat, f: nat | Slot(w'.c.maps, id1, i1, f)
      ensures Slot(w.c.maps, id1, i1, f) || (f in spent && id1 == id && i1 == i)
    {
      FilledSlot(w.c.maps, w'.c.maps, id, i, spent, id1, i1, f);
    }
    OneSpent(w.c.maps, w'.c.maps, id, i, spent);
  }

  lemma OneSpent(maps: map<nat, PageMapping>, maps': map<nat, PageMapping>, id: nat, i: nat, spent: set<nat>)
    requires FilledFor(maps, maps', id, i, spent)
    ensures forall f, g :: f in spent && g in spent ==> f == g
  {
  }

  lemma SpacesOk(w: World)
    requires Inv(w)
    ensures forall p: nat :: p in w.spaces ==> Reach(w.c.m, 4, w.spaces[p].root) !! w.c.free
  {
    hide Tree, Reach, CacheOk, ListOk;
  }

  // ---------------------------------------------------------------------------
  // The other steps
  // ---------------------------------------------------------------------------

  lemma NewSpaceKeepsInv(w: World, p: nat, root: nat, w': World)
    requires Inv(w) && NewSpaceStep(w, p, root, w')
    ensures Inv(w')
  {
    hide Tree, Reach, Walk, Slot, CacheOk, ListOk;
    SpacesOk(w);
    EmptySpace(w'.c, root);
    forall q: nat | q in w.spaces
      ensures SpaceOk(w'.c, w.spaces[q]) && Reach(w'.c.m, 4, w.spaces[q].root) == Reach(w.c.m, 4, w.spaces[q].root)
    {
      SpaceLeftAlone(w.c, w'.c, w.spaces[q], {root});
    }
  }

  lemma EmptySpace(c: Machine, root: nat)
    requires root > 0 && root in c.m && AllAbsent(c.m[root]) && root !in c.free
    ensures SpaceOk(c, Space(root, [])) && Reach(c.m, 4, root) == {root}
  {
    hide Tree, Reach, Walk;
    assert c.m[root] == EMPTY;
    EmptyTable(c.m, 4, root);
  }

  lemma NewMappingKeepsInv(w: World, id: nat, p: PageMapping, w': World)
    requires Inv(w) && NewMappingStep(w, id, p, w')
    ensures Inv(w')
  {
    hide Tree, Reach, Walk, CacheOk, FramesIn;
    SpacesOk(w);
    forall q: nat | q in w.spaces
      ensures SpaceOk(w'.c, w.spaces[q])
    {
      SpaceLeftAlone(w.c, w'.c, w.spaces[q], {});
    }
    forall id1: nat, i: nat, f: nat | Slot(w'.c.maps, id1, i, f)
      ensures if id1 == id then f in FramesIn(p) else Slot(w.c.maps, id1, i, f)
    {
      if id1 == id { SlotFrame(p, i); }
    }
  }

  lemma SlotFrame(p: PageMapping, i: nat)
    requires p.Lazy? && i < |p.pages| && p.pages[i].Some?
    ensures p.pages[i].value in FramesIn(p)
  {
  }

  lemma TopStackKeepsInv(w: World, id: nat, spent: set<nat>, w': World)
    requires Inv(w) && TopStackStep(w, id, spent, w')
    ensures Inv(w')
  {
    hide Tree, Reach, Walk, CacheOk, ListOk, Slot, FilledFor;
    SpacesOk(w);
    var last: nat := |w.c.maps[id].pages| - 1;
    forall q: nat | q in w.spaces
      ensures SpaceOk(w'.c, w.spaces[q])
    {
      forall e | e in w.spaces[q].list && e.id in w.c.maps
        ensures e.id in w'.c.maps && Kept(w.c.maps[e.id], w'.c.maps[e.id])
      {
        FilledKeeps(w.c.maps, w'.c.maps, id, last, spent, e.id);
      }
      SpaceLeftAlone(w.c, w'.c, w.spaces[q], {});
    }
    forall id1: nat, i1: nat, f: nat | Slot(w'.c.maps, id1, i1, f)
      ensures Slot(w.c.maps, id1, i1, f) || (f in spent && id1 == id && i1 == last)
    {
      FilledSlot(w.c.maps, w'.c.maps, id, last, spent, id1, i1, f);
    }
  }

  lemma GiveUpKeepsInv(w: World, p: nat, w': World)
    requires Inv(w) && GiveUpStep(w, p, w')
    ensures Inv(w')
  {
    hide SpaceOk, Slot, Reach;
  }

  /** A frame given back by a dropped mapping is in no remaining slot and is no table. */
  lemma DropKeepsInv(w: World, id: nat, w': World)
    requires Inv(w) && DropStep(w, id, w')
    ensures Inv(w')
  {
    hide Tree, Reach, Walk, CacheOk;
    SpacesOk(w);
    forall f: nat | f in FramesIn(w.c.maps[id])
      ensures exists i: nat :: Slot(w.c.maps, id, i, f)
    {
      var i :| 0 <= i < |w.c.maps[id].pages| && w.c.maps[id].pages[i] == Some(f);
      assert Slot(w.c.maps, id, i, f);
    }
    forall q: nat | q in w.spaces
      ensures SpaceOk(w'.c, w.spaces[q])
    {
      SpaceLeftAlone(w.c, w'.c, w.spaces[q], {});
    }
    forall id1: nat, i1: nat, f: nat | Slot(w'.c.maps, id1, i1, f)
      ensures Slot(w.c.maps, id1, i1, f) && id1 != id
    {
    }
  }

  lemma StepKeepsInv(w: World, st: Step, w': World)
    requires Inv(w) && Next(w, st, w')
    ensures Inv(w')
  {
    hide Inv, CallStep, NewSpaceStep, NewMappingStep, TopStackStep, GiveUpStep, DropStep, HoldStep;
    match st
    case Call(p, ch) => CallKeepsInv(w, p, ch, w');
    case NewSpace(p, root) => NewSpaceKeepsInv(w, p, root, w');
    case NewMapping(id, mapping) => NewMappingKeepsInv(w, id, mapping, w');
    case TopStack(id, spent) => TopStackKeepsInv(w, id, spent, w');
    case GiveUp(p) => GiveUpKeepsInv(w, p, w');
    case Hold(held) => HoldKeepsInv(w, held, w');
    case Drop(id) => DropKeepsInv(w, id, w');
  }

  lemma HoldKeepsInv(w: World, held: set<nat>, w': World)
    requires Inv(w) && HoldStep(w, held, w')
    ensures Inv(w')
  {
    hide SpaceOk, Slot, Reach;
  }

  // ---------------------------------------------------------------------------
  // Every run
  // ---------------------------------------------------------------------------

  ghost predicate IsRun(ws: seq<World>, steps: seq<Step>) {
    |ws| == |steps| + 1 && forall i: nat :: i < |steps| ==> Next(ws[i], steps[i], ws[i + 1])
  }

  lemma {:induction false} RunKeepsInv(ws: seq<World>, steps: seq<Step>, n: nat)
    requires IsRun(ws, steps) && n < |ws|
    requires ws[0].spaces == map[] && ws[0].c.maps == map[]
    ensures Inv(ws[n])
  {
    hide Inv, Next;
    if n == 0 {
      NothingYet(ws[0]);
    } else {
      RunKeepsInv(ws, steps, n - 1);
      StepKeepsInv(ws[n - 1], steps[n - 1], ws[n]);
    }
  }

  lemma NothingYet(w: World)
    requires w.spaces == map[] && w.c.maps == map[]
    ensures Inv(w)
  {
  }

  /** A page of a mapping gets its frame once: as long as the mapping is not dropped, no step takes
      the frame away or replaces it. */
  lemma {:induction false} FramesStay(ws: seq<World>, steps: seq<Step>, i: nat, j: nat, id: nat)
    requires IsRun(ws, steps) && i <= j < |ws| && id in ws[i].c.maps
    requires forall k: nat :: i <= k < j ==> steps[k] != Drop(id)
    ensures id in ws[j].c.maps && Kept(ws[i].c.maps[id], ws[j].c.maps[id])
    decreases j
  {
    hide Next, Kept;
    KeptRefl(ws[i].c.maps[id]);
    if i < j {
      FramesStay(ws, steps, i, j - 1, id);
      assert Next(ws[j - 1], steps[j - 1], ws[j]);
      StepKeepsFrames(ws[j - 1], steps[j - 1], ws[j], id);
      KeptTrans(ws[i].c.maps[id], ws[j - 1].c.maps[id], ws[j].c.maps[id]);
    }
  }

  lemma KeptRefl(p: PageMapping)
    ensures Kept(p, p)
  {
  }

  lemma KeptTrans(p: PageMapping, q: PageMapping, r: PageMapping)
    requires Kept(p, q) && Kept(q, r)
    ensures Kept(p, r)
  {
  }

  lemma StepKeepsFrames(w: World, st: Step, w': World, id: nat)
    requires Next(w, st, w') && id in w.c.maps && st != Drop(id)
    ensures id in w'.c.maps && Kept(w.c.maps[id], w'.c.maps[id])
  {
    hide Changes, Kept, FilledFor, TableStep;
    KeptRefl(w.c.maps[id]);
    if st.Call? {
      var id1, i, spent := ChangeEffect(w.c, w.spaces[st.p], st.ch, w'.c, w'.spaces[st.p]);
      FilledKeeps(w.c.maps, w'.c.maps, id1, i, spent, id);
    } else if st.TopStack? {
      FilledKeeps(w.c.maps, w'.c.maps, st.id, |w.c.maps[st.id].pages| - 1, st.spent, id);
    }
  }

  // ---------------------------------------------------------------------------
  // What sharing guarantees
  // ---------------------------------------------------------------------------

  /** In address space `p` the page at `v` is entered through the listed range `e`. */
  ghost predicate Entered(w: World, p: nat, e: Listed, v: nat) {
    && p in w.spaces && e in w.spaces[p].list && PageAddress(v) && Contains(e, v)
    && Walk(w.c.m, 4, w.spaces[p].root, v).Hit?
  }

  ghost function FrameOf(w: World, p: nat, e: Listed, v: nat): (f: nat)
    requires Entered(w, p, e, v)
  {
    Walk(w.c.m, 4, w.spaces[p].root, v).frame
  }

  /** An entered page is translated as its range prescribes. */
  lemma EnteredAsPrescribed(w: World, p: nat, e: Listed, v: nat)
    requires Inv(w) && Entered(w, p, e, v)
    ensures ListedOk(w.c.maps, e) && Prescribed(w.c.maps, e, v) == Some(FrameOf(w, p, e, v))
    ensures w.c.maps[e.id].Lazy? ==> Slot(w.c.maps, e.id, PageOf(e, v), FrameOf(w, p, e, v))
  {
    hide Tree, Reach, Walk;
    var s := w.spaces[p];
    assert SpaceOk(w.c, s);
    assert Explained(w.c, s, v);
    var e' :| e' in s.list && CachedBy(w.c, s.root, e', v);
    var i :| 0 <= i < |s.list| && s.list[i] == e;
    var j :| 0 <= j < |s.list| && s.list[j] == e';
    InOneRange(s.list, i, j, v);
  }

  /** Lazy pages of two address spaces, or of one, share a frame exactly when they are the same page
      of the same mapping. */
  lemma SharedExactly(w: World, p: nat, e: Listed, v: nat, q: nat, e': Listed, v': nat)
    requires Inv(w) && Entered(w, p, e, v) && Entered(w, q, e', v')
    requires e.id in w.c.maps && w.c.maps[e.id].Lazy? && e'.id in w.c.maps && w.c.maps[e'.id].Lazy?
    ensures FrameOf(w, p, e, v) == FrameOf(w, q, e', v') <==> e.id == e'.id && PageOf(e, v) == PageOf(e', v')
  {
    hide Tree, Reach, Walk, SpaceOk;
    EnteredAsPrescribed(w, p, e, v);
    EnteredAsPrescribed(w, q, e', v');
  }

  /** No lazy page is translated to a free frame or to the frame of a page table. */
  lemma NoStaleFrame(w: World, p: nat, e: Listed, v: nat, q: nat)
    requires Inv(w) && Entered(w, p, e, v) && e.id in w.c.maps && w.c.maps[e.id].Lazy? && q in w.spaces
    ensures FrameOf(w, p, e, v) !in w.c.free
    ensures FrameOf(w, p, e, v) !in Reach(w.c.m, 4, w.spaces[q].root)
  {
    hide Tree, Reach, Walk, SpaceOk;
    EnteredAsPrescribed(w, p, e, v);
  }

  /** At every moment of every run, an address of a space is translated only inside a listed range, and then to
      the byte that the mapping of the range has there. */
  lemma BytesAlways(ws: seq<World>, steps: seq<Step>, n: nat, p: nat, a: nat) returns (e: Listed)
    requires IsRun(ws, steps) && ws[0].spaces == map[] && ws[0].c.maps == map[] && n < |ws|
    requires p in ws[n].spaces && Canonical(a) && Walk(ws[n].c.m, 4, ws[n].spaces[p].root, a).Hit?
    ensures e in ws[n].spaces[p].list && Contains(e, a) && ShowsByte(ws[n].c, ws[n].spaces[p].root, e, a)
  {
    hide Next, Walk, SpaceOk, ShowsByte;
    RunKeepsInv(ws, steps, n);
    e := TranslatesBytes(ws[n].c, ws[n].spaces[p], a);
  }

  /** Whatever the order of faults, two address spaces resolve the same page of a shared mapping to
      the same frame, at any two moments of a run between which the mapping is not dropped. */
  lemma SameFrameAlways(ws: seq<World>, steps: seq<Step>, i: nat, j: nat,
                        p: nat, e: Listed, v: nat, q: nat, e': Listed, v': nat)
    requires IsRun(ws, steps) && ws[0].spaces == map[] && ws[0].c.maps == map[] && i <= j < |ws|
    requires Entered(ws[i], p, e, v) && Entered(ws[j], q, e', v')
    requires e.id == e'.id && PageOf(e, v) == PageOf(e', v')
    requires forall k: nat :: i <= k < j ==> steps[k] != Drop(e.id)
    ensures FrameOf(ws[i], p, e, v) == FrameOf(ws[j], q, e', v')
  {
    hide Inv, Next, Entered, FrameOf;
    RunKeepsInv(ws, steps, i);
    RunKeepsInv(ws, steps, j);
    EnteredAsPrescribed(ws[i], p, e, v);
    EnteredAsPrescribed(ws[j], q, e', v');
    FramesStay(ws, steps, i, j, e.id);
  }
}
