/** `create_next_table`, `map_page` and `init_paging` of hal-x86_64/src/mm.rs: what they write, and
    what that does to the translation of every page. */
module PageMapping {
  import opened Paging
  import opened Wrappers

  // ---- create_next_table and map_page ----

  /** `BadTable` and `Crashed` are a frame with an invalid address and a pointer that faults. */
  datatype Created = Done(frame: Frame, rest: seq<Frame>) | HugeEntry | OutOfFrames | BadTable | Crashed

  /** What `create_next_table` makes of an entry: the table below is made writable or new. */
  function CreateNext(mem: Memory, f: Frame, i: Index, frames: seq<Frame>): (Memory, Created)
    requires f in mem
  {
    var e := Entry(mem, f, i);
    if Present(e) then (Update(mem, f, i, SetWritable(e)), Done(PhysAddr(e), frames))
    else if Huge(e) then (mem, HugeEntry)
    else if frames == [] then (mem, OutOfFrames)
    else (Link(mem, f, i, frames[0], ZeroTable()), Done(frames[0], frames[1..]))
  }

  /** Either way the entry then points at the table, present and writable. */
  lemma CreatedEntry(mem: Memory, f: Frame, i: Index, frames: seq<Frame>)
    requires f in mem && f !in frames && forall k | 0 <= k < |frames| :: Addressable(frames[k])
    ensures var (mem', c) := CreateNext(mem, f, i, frames);
            c.Done? ==> var e := Entry(mem', f, i); Present(e) && e & WRITABLE != 0 && PhysAddr(e) == c.frame
  {
    var e := Entry(mem, f, i);
    WritableBits(e);
    WritableSet(e);
    if Present(e) {
      EntryUpdate(mem, f, i, SetWritable(e), f, i);
    } else if !Huge(e) && frames != [] {
      NewEntryBits(e, frames[0]);
      NewEntryWritable(e, frames[0]);
      LinkEntry(mem, f, i, frames[0], ZeroTable(), f, i);
    }
  }

  lemma WritableSet(e: bv64)
    ensures SetWritable(e) & WRITABLE != 0
  {
  }

  function NewRole(mem: Memory, role: map<Frame, seq<Index>>, f: Frame, i: Index, nf: Frame): map<Frame, seq<Index>>
    requires f in role
  {
    if Present(Entry(mem, f, i)) then role else role[nf := role[f] + [i]]
  }

  /** What the allocator owes: distinct frames of memory that hold no table. */
  ghost predicate Unused(mem: Memory, role: map<Frame, seq<Index>>, frames: seq<Frame>) {
    && (forall k | 0 <= k < |frames| :: frames[k] in mem && frames[k] !in role && Addressable(frames[k]))
    && (forall k, n | 0 <= k < n < |frames| :: frames[k] != frames[n])
  }

  ghost predicate SameWalks(mem: Memory, mem': Memory, cr3: Frame) {
    forall w | IndexOf(Pml4, w) != RECURSIVE_INDEX :: WalkOf(mem', cr3, w) == WalkOf(mem, cr3, w)
  }

  ghost predicate SameWalksExcept(mem: Memory, mem': Memory, cr3: Frame, v: bv64) {
    forall w | IndexOf(Pml4, w) != RECURSIVE_INDEX && !SamePath(v, w) :: WalkOf(mem', cr3, w) == WalkOf(mem, cr3, w)
  }

  /** In terms of addresses: every other page keeps its frame. */
  lemma OtherPagesKept(mem: Memory, mem': Memory, cr3: Frame, v: bv64, w: bv64)
    requires SameWalksExcept(mem, mem', cr3, v) && IndexOf(Pml4, w) != RECURSIVE_INDEX
    requires Canonical(v) && Canonical(w) && PageAligned(v) && PageAligned(w) && v != w
    ensures Walk(mem', cr3, w) == Walk(mem, cr3, w)
  {
    if SamePath(v, w) { PathInjective(v, w); }
  }

  /** One level of `create_next_table`: whichever way it goes, the tables stay a tree with its
      recursive entry, no page changes its translation, and the table is found by the walk. */
  lemma CreateKeeps(mem: Memory, cr3: Frame, role: map<Frame, seq<Index>>, f: Frame, i: Index, frames: seq<Frame>)
    requires Tree(mem, cr3, role) && Recursive(mem, cr3) && f in role && Inner(role[f], i)
    requires role[f] == [] || role[f][0] != RECURSIVE_INDEX
    requires TableAt(mem, cr3, role[f]) == Some(f) && !(Present(Entry(mem, f, i)) && Huge(Entry(mem, f, i)))
    requires Unused(mem, role, frames) && CreateNext(mem, f, i, frames).1.Done?
    ensures var (mem', c) := CreateNext(mem, f, i, frames);
            var role' := NewRole(mem, role, f, i, c.frame);
            && Tree(mem', cr3, role') && Recursive(mem', cr3) && SameWalks(mem, mem', cr3)
            && TableAt(mem', cr3, role[f] + [i]) == Some(c.frame) && Unused(mem', role', c.rest)
  {
    var (mem', c) := CreateNext(mem, f, i, frames);
    if Present(Entry(mem, f, i)) {
      CreateExisting(mem, cr3, role, f, i);
    } else {
      LinkKeepsTree(mem, cr3, role, f, i, frames[0]);
      LinkKeepsRecursive(mem, cr3, role, f, i, frames[0], ZeroTable());
      LinkReached(mem, cr3, role, f, i, frames[0], ZeroTable());
      forall w | IndexOf(Pml4, w) != RECURSIVE_INDEX ensures WalkOf(mem', cr3, w) == WalkOf(mem, cr3, w) {
        LinkKeepsWalk(mem, cr3, role, f, i, frames[0], IndexOf(Pml4, w), IndexOf(Pdpt, w), IndexOf(Pd, w), IndexOf(Pt, w));
      }
    }
  }

  lemma CreateExisting(mem: Memory, cr3: Frame, role: map<Frame, seq<Index>>, f: Frame, i: Index)
    requires Tree(mem, cr3, role) && Recursive(mem, cr3) && f in role && Inner(role[f], i)
    requires role[f] == [] || role[f][0] != RECURSIVE_INDEX
    requires TableAt(mem, cr3, role[f]) == Some(f) && Present(Entry(mem, f, i)) && !Huge(Entry(mem, f, i))
    ensures var mem' := Update(mem, f, i, SetWritable(Entry(mem, f, i)));
            && Tree(mem', cr3, role) && Recursive(mem', cr3) && SameWalks(mem, mem', cr3)
            && TableAt(mem', cr3, role[f] + [i]) == Some(PhysAddr(Entry(mem, f, i)))
  {
    var mem' := Update(mem, f, i, SetWritable(Entry(mem, f, i)));
    WritableKeeps(mem, cr3, role, f, i);
    assert (role[f] + [i])[..|role[f]|] == role[f];
    InnerSameTables(mem, mem', cr3, role, role[f] + [i]);
    forall w | IndexOf(Pml4, w) != RECURSIVE_INDEX ensures WalkOf(mem', cr3, w) == WalkOf(mem, cr3, w) {
      InnerSameWalk(mem, mem', cr3, role, IndexOf(Pml4, w), IndexOf(Pdpt, w), IndexOf(Pd, w), IndexOf(Pt, w));
    }
  }

  /** How many tables are missing on the way to a page, and the flags of the first entry that
      is absent there, or of the page's own entry. */
  datatype Gap = Gap(missing: nat, present: bool, huge: bool)

  function GapOf(mem: Memory, l: Level, table: Frame, v: bv64): Gap
    decreases Height(l)
  {
    var e := Entry(mem, table, IndexOf(l, v));
    if l != Pt && Present(e) then GapOf(mem, Below(l), PhysAddr(e), v)
    else Gap(Height(l), Present(e), Huge(e))
  }

  datatype MapResult = Mapped | AlreadyMapped | StaleHugeBit | NoFrames | BadFrame | Crash

  /** How `map_page` ends; all but the first are panics. */
  function Outcome(gap: Gap, frames: nat, phys: Frame): MapResult {
    if gap.present then AlreadyMapped
    else if gap.huge then StaleHugeBit
    else if frames < gap.missing then NoFrames
    else if !Addressable(phys) then BadFrame
    else Mapped
  }

  /** The page is mapped exactly when the gap is a present entry. */
  lemma {:induction false} GapMeans(mem: Memory, cr3: Frame, l: Level, table: Frame, v: bv64)
    requires Small(WalkOf(mem, cr3, v)) && TableOf(mem, cr3, l, v) == Some(table)
    ensures GapOf(mem, l, table, v).present <==> WalkOf(mem, cr3, v).Page4Kb?
    decreases Height(l)
  {
    WalkEnds(mem, cr3, l, v);
    TableAtSteps(mem, cr3, IndexOf(Pml4, v), IndexOf(Pdpt, v), IndexOf(Pd, v));
    var e := Entry(mem, table, IndexOf(l, v));
    if l != Pt && Present(e) { GapMeans(mem, cr3, Below(l), PhysAddr(e), v); }
  }

  lemma {:induction false} GapSame(mem: Memory, mem': Memory, l: Level, table: Frame, v: bv64)
    requires forall g, j :: SameEntry(Entry(mem, g, j), Entry(mem', g, j))
    ensures GapOf(mem', l, table, v) == GapOf(mem, l, table, v)
    decreases Height(l)
  {
    var e := Entry(mem, table, IndexOf(l, v));
    assert SameEntry(e, Entry(mem', table, IndexOf(l, v)));
    if l != Pt && Present(e) { GapSame(mem, mem', Below(l), PhysAddr(e), v); }
  }

  /** Frames are only spent on closing the gap. */
  predicate Closing(g: Gap, frames: nat, g': Gap, rest: nat) {
    || (g' == g && rest == frames)
    || (frames - rest == g.missing - g'.missing && !g.present && !g.huge && !g'.present && !g'.huge)
  }

  predicate Descended(g: Gap, frames: nat, c: Created, g': Gap) {
    match c
    case HugeEntry => !g.present && g.huge
    case OutOfFrames => !g.present && !g.huge && frames < g.missing
    case Done(_, rest) => Closing(g, frames, g', |rest|)
    case _ => false
  }

  /** One level of `create_next_table` against the gap. */
  lemma GapStep(mem: Memory, l: Level, f: Frame, v: bv64, frames: seq<Frame>)
    requires f in mem && l != Pt && f !in frames
    ensures var (mem', c) := CreateNext(mem, f, IndexOf(l, v), frames);
            Descended(GapOf(mem, l, f, v), |frames|, c,
                      if c.Done? then GapOf(mem', Below(l), c.frame, v) else Gap(0, false, false))
  {
    var i, e := IndexOf(l, v), Entry(mem, f, IndexOf(l, v));
    var (mem', c) := CreateNext(mem, f, i, frames);
    if Present(e) {
      WritableBits(e);
      forall g, j ensures SameEntry(Entry(mem, g, j), Entry(mem', g, j)) { EntryUpdate(mem, f, i, SetWritable(e), g, j); }
      GapSame(mem, mem', Below(l), PhysAddr(e), v);
    } else if c.Done? {
      LinkEntry(mem, f, i, frames[0], ZeroTable(), frames[0], IndexOf(Below(l), v));
      ZeroEntry(IndexOf(Below(l), v));
    }
  }

  /** `map_page`'s last write gives page `v` its frame and changes no other page. */
  lemma LeafWrite(mem: Memory, cr3: Frame, role: map<Frame, seq<Index>>, f: Frame, v: bv64, phys: Frame)
    requires Tree(mem, cr3, role) && Recursive(mem, cr3) && IndexOf(Pml4, v) != RECURSIVE_INDEX
    requires TableOf(mem, cr3, Pt, v) == Some(f) && f in role
    requires Addressable(phys) && !Huge(Entry(mem, f, IndexOf(Pt, v)))
    ensures var mem' := Update(mem, f, IndexOf(Pt, v), LeafEntry(Entry(mem, f, IndexOf(Pt, v)), phys));
            && Tree(mem', cr3, role) && Recursive(mem', cr3)
            && WalkOf(mem', cr3, v) == Page4Kb(phys, false) && TranslatePage(mem', cr3, v) == Ok(phys)
            && SameWalksExcept(mem, mem', cr3, v)
  {
    var i := IndexOf(Pt, v);
    var e' := LeafEntry(Entry(mem, f, i), phys);
    var mem' := Update(mem, f, i, e');
    TableRole(mem, cr3, role, PathTo(Pt, v));
    LeafEntryBits(Entry(mem, f, i), phys);
    LeafKeeps(mem, cr3, role, f, i, e');
    LeafMapped(mem, cr3, role, f, v, e');
    TranslateAgrees(mem', cr3, v);
    forall w | IndexOf(Pml4, w) != RECURSIVE_INDEX && !SamePath(v, w) ensures WalkOf(mem', cr3, w) == WalkOf(mem, cr3, w) {
      if PathTo(Pt, v) == PathTo(Pt, w) && IndexOf(Pt, v) == IndexOf(Pt, w) { OtherPath(v, w); }
      LeafOthers(mem, cr3, role, f, i, e', w);
    }
  }

  lemma OtherPath(v: bv64, w: bv64)
    requires PathTo(Pt, v) == PathTo(Pt, w) && IndexOf(Pt, v) == IndexOf(Pt, w)
    ensures SamePath(v, w)
  {
  }

  lemma WritableTwice(e: bv64)
    requires e & WRITABLE != 0
    ensures SetWritable(e) == e
  {
  }

  lemma UpdateSame(mem: Memory, f: Frame, i: Index)
    requires f in mem
    ensures Update(mem, f, i, Entry(mem, f, i)) == mem
  {
    assert Set(mem[f], i, Entry(mem, f, i)) == mem[f];
  }

  /** Between the write of the entry and the clearing of the new table, the table holds
      whatever the frame held. */
  lemma LinkUncleared(mem: Memory, f: Frame, i: Index, nf: Frame)
    requires f in mem && nf in mem && f != nf
    ensures var mem' := Update(mem, f, i, NewEntry(Entry(mem, f, i), nf));
            mem' == Link(mem, f, i, nf, mem[nf]) && mem'[nf := ZeroTable()] == Link(mem, f, i, nf, ZeroTable())
  {
  }

  lemma PathStep(mem: Memory, cr3: Frame, role: map<Frame, seq<Index>>, l: Level, table: Frame, v: bv64)
    requires Tree(mem, cr3, role) && l != Pt && IndexOf(Pml4, v) != RECURSIVE_INDEX
    requires TableOf(mem, cr3, l, v) == Some(table)
    ensures table in role && role[table] == PathTo(l, v) && Inner(role[table], IndexOf(l, v))
    ensures role[table] == [] || role[table][0] != RECURSIVE_INDEX
    ensures PathTo(Below(l), v) == role[table] + [IndexOf(l, v)]
  {
    TableRole(mem, cr3, role, PathTo(l, v));
  }

  /** Once its entry is written the new table can be reached, cleared or not. */
  lemma NewTableReached(mem: Memory, cr3: Frame, role: map<Frame, seq<Index>>, l: Level, f: Frame, v: bv64, nf: Frame)
    requires Recursive(mem, cr3) && l != Pt && IndexOf(Pml4, v) != RECURSIVE_INDEX
    requires CanLink(mem, cr3, role, f, IndexOf(l, v), nf) && nf in mem && TableOf(mem, cr3, l, v) == Some(f)
    ensures var mem' := Update(mem, f, IndexOf(l, v), NewEntry(Entry(mem, f, IndexOf(l, v)), nf));
            NextTable(mem', cr3, l, f, v) == Table(nf)
  {
    var i := IndexOf(l, v);
    PathStep(mem, cr3, role, l, f, v);
    LinkUncleared(mem, f, i, nf);
    LinkKeepsRecursive(mem, cr3, role, f, i, nf, mem[nf]);
    LinkReached(mem, cr3, role, f, i, nf, mem[nf]);
    LinkEntry(mem, f, i, nf, mem[nf], f, i);
    NewEntryBits(Entry(mem, f, i), nf);
    RecursiveWalk(Link(mem, f, i, nf, mem[nf]), cr3, Below(l), v);
  }

  /** A call of `create_next_table` that gave page `v` the table `c.frame` below level `l`. */
  ghost predicate Placed(mem: Memory, cr3: Frame, role: map<Frame, seq<Index>>, l: Level, v: bv64, c: Created) {
    && c.Done? && Tree(mem, cr3, role) && Recursive(mem, cr3)
    && TableOf(mem, cr3, Below(l), v) == Some(c.frame) && c.frame in role && Unused(mem, role, c.rest)
  }

  /** `CreateKeeps` for the table a page uses at some level. */
  lemma CreateStep(mem: Memory, cr3: Frame, role: map<Frame, seq<Index>>, l: Level, table: Frame, v: bv64,
                   frames: seq<Frame>)
    requires Tree(mem, cr3, role) && Recursive(mem, cr3) && l != Pt && IndexOf(Pml4, v) != RECURSIVE_INDEX
    requires Small(WalkOf(mem, cr3, v)) && TableOf(mem, cr3, l, v) == Some(table) && table in role
    requires Unused(mem, role, frames) && CreateNext(mem, table, IndexOf(l, v), frames).1.Done?
    ensures var (mem', c) := CreateNext(mem, table, IndexOf(l, v), frames);
            && Placed(mem', cr3, NewRole(mem, role, table, IndexOf(l, v), c.frame), l, v, c)
            && SameWalks(mem, mem', cr3)
  {
    var i := IndexOf(l, v);
    var (mem', c) := CreateNext(mem, table, i, frames);
    PathStep(mem, cr3, role, l, table, v);
    NotHuge(mem, cr3, l, table, v);
    CreateKeeps(mem, cr3, role, table, i, frames);
    TableRole(mem', cr3, NewRole(mem, role, table, i, c.frame), PathTo(Below(l), v));
  }

  /** If the table is there, `next_table_mut` finds it. */
  lemma CreateFinds(mem: Memory, cr3: Frame, role: map<Frame, seq<Index>>, l: Level, table: Frame, v: bv64,
                    frames: seq<Frame>)
    requires Tree(mem, cr3, role) && Recursive(mem, cr3) && l != Pt && IndexOf(Pml4, v) != RECURSIVE_INDEX
    requires Small(WalkOf(mem, cr3, v)) && TableOf(mem, cr3, l, v) == Some(table) && table in role
    requires Unused(mem, role, frames) && Present(Entry(mem, table, IndexOf(l, v)))
    ensures var (mem', c) := CreateNext(mem, table, IndexOf(l, v), frames);
            NextTable(mem', cr3, l, table, v) == Table(c.frame)
  {
    var i := IndexOf(l, v);
    var (mem', c) := CreateNext(mem, table, i, frames);
    CreateStep(mem, cr3, role, l, table, v, frames);
    RecursiveWalk(mem', cr3, Below(l), v);
    EntryUpdate(mem, table, i, SetWritable(Entry(mem, table, i)), table, i);
    WritableBits(Entry(mem, table, i));
  }

  lemma NotHuge(mem: Memory, cr3: Frame, l: Level, table: Frame, v: bv64)
    requires l != Pt && Small(WalkOf(mem, cr3, v)) && TableOf(mem, cr3, l, v) == Some(table)
    ensures !(Present(Entry(mem, table, IndexOf(l, v))) && Huge(Entry(mem, table, IndexOf(l, v))))
  {
    TableAtSteps(mem, cr3, IndexOf(Pml4, v), IndexOf(Pdpt, v), IndexOf(Pd, v));
  }

  lemma KeepWritable(mem: Memory, f: Frame, i: Index, e: bv64, nf: Frame)
    requires f in mem && Get(mem[f], i) == NewEntry(e, nf) && Addressable(nf)
    ensures Present(Entry(mem, f, i)) && Update(mem, f, i, SetWritable(Entry(mem, f, i))) == mem
  {
    NewEntryBits(e, nf);
    NewEntryWritable(e, nf);
    WritableTwice(NewEntry(e, nf));
    UpdateSame(mem, f, i);
  }

  /** `init_paging` over a free entry 511. */
  function AddRecursive(mem: Memory, cr3: Frame): Memory
    requires cr3 in mem
  {
    Update(mem, cr3, RECURSIVE_INDEX, NewEntry(Entry(mem, cr3, RECURSIVE_INDEX), cr3))
  }

  /** It makes a usable recursive entry exactly when the free one had no stale huge bit, and it
      changes neither the tables nor the pages below the other entries. */
  lemma AddRecursiveWorks(mem: Memory, cr3: Frame, role: map<Frame, seq<Index>>)
    requires Tree(mem, cr3, role) && Addressable(cr3)
    ensures var mem' := AddRecursive(mem, cr3);
            && (Recursive(mem', cr3) <==> !Huge(Entry(mem, cr3, RECURSIVE_INDEX)))
            && Tree(mem', cr3, role) && SameWalks(mem, mem', cr3)
  {
    var mem', e := AddRecursive(mem, cr3), NewEntry(Entry(mem, cr3, RECURSIVE_INDEX), cr3);
    NewEntryBits(Entry(mem, cr3, RECURSIVE_INDEX), cr3);
    EntryUpdate(mem, cr3, RECURSIVE_INDEX, e, cr3, RECURSIVE_INDEX);
    forall g, j | g in role && !(role[g] == [] && j == RECURSIVE_INDEX)
      ensures SameEntry(Entry(mem, g, j), Entry(mem', g, j))
    {
      EntryUpdate(mem, cr3, RECURSIVE_INDEX, e, g, j);
    }
    InnerSameTree(mem, mem', cr3, role);
    forall w | IndexOf(Pml4, w) != RECURSIVE_INDEX ensures WalkOf(mem', cr3, w) == WalkOf(mem, cr3, w) {
      TableRole(mem, cr3, role, PathTo(Pt, w));
      InnerSameWalk(mem, mem', cr3, role, IndexOf(Pml4, w), IndexOf(Pdpt, w), IndexOf(Pd, w), IndexOf(Pt, w));
    }
  }

  // ---- What the source does, for any memory ----

  /** A write to a frame that is not there is lost. */
  function Write(mem: Memory, f: Frame, i: Index, e: bv64): Memory {
    if f in mem then Update(mem, f, i, e) else mem
  }

  function Clear(mem: Memory, f: Frame): Memory {
    if f in mem then mem[f := ZeroTable()] else mem
  }

  /** `next_table_mut`. */
  function NextMut(mem: Memory, cr3: Frame, l: Level, table: Frame, v: bv64): (Memory, Next) {
    var e := Entry(mem, table, IndexOf(l, v));
    if !Present(e) then (mem, Missing) else
      var mem' := Write(mem, table, IndexOf(l, v), SetWritable(e));
      (mem', NextTable(mem', cr3, l, table, v))
  }

  /** `create_next_table`. A table that cannot be reached crashes at its next use. */
  function CreateTable(mem: Memory, cr3: Frame, l: Level, table: Frame, v: bv64, frames: seq<Frame>): (Memory, Created) {
    var i, e := IndexOf(l, v), Entry(mem, table, IndexOf(l, v));
    if Present(e) then
      var (mem', next) := NextMut(mem, cr3, l, table, v);
      (mem', if next.Table? then Done(next.frame, frames) else Crashed)
    else if Huge(e) then (mem, HugeEntry)
    else if frames == [] then (mem, OutOfFrames)
    else if !Addressable(frames[0]) then (Write(mem, table, i, SetWritable(SetPresent(e))), BadTable)
    else
      var (mem', next) := NextMut(Write(mem, table, i, NewEntry(e, frames[0])), cr3, l, table, v);
      if next.Table? then (Clear(mem', next.frame), Done(next.frame, frames[1..])) else (mem', Crashed)
  }

  /** The end of `map_page`, once it has a page table. */
  function SetLeaf(mem: Memory, pt: Frame, v: bv64, phys: Frame): (Memory, MapResult) {
    var e := Entry(mem, pt, IndexOf(Pt, v));
    if Present(e) then (mem, AlreadyMapped)
    else if Huge(e) then (mem, StaleHugeBit)
    else if !Addressable(phys) then (mem, BadFrame)
    else (Write(mem, pt, IndexOf(Pt, v), LeafEntry(e, phys)), Mapped)
  }

  function Refusal(c: Created): MapResult
    requires !c.Done?
  {
    match c
    case HugeEntry => StaleHugeBit
    case OutOfFrames => NoFrames
    case BadTable => BadFrame
    case Crashed => Crash
  }

  /** `map_page` from some table of the path on. */
  function MapFrom(mem: Memory, cr3: Frame, l: Level, table: Frame, v: bv64, phys: Frame, frames: seq<Frame>):
    (Memory, MapResult)
    decreases Height(l)
  {
    if l == Pt then SetLeaf(mem, table, v, phys) else
      var (mem', c) := CreateTable(mem, cr3, l, table, v, frames);
      if c.Done? then MapFrom(mem', cr3, Below(l), c.frame, v, phys, c.rest) else (mem', Refusal(c))
  }

  // ---- A page under no large page ----

  /** On the tables of the tree the pointers lead where they should. */
  lemma CreateIsNext(mem: Memory, cr3: Frame, role: map<Frame, seq<Index>>, l: Level, table: Frame, v: bv64,
                     frames: seq<Frame>)
    requires Tree(mem, cr3, role) && Recursive(mem, cr3) && l != Pt && IndexOf(Pml4, v) != RECURSIVE_INDEX
    requires Small(WalkOf(mem, cr3, v)) && TableOf(mem, cr3, l, v) == Some(table) && table in role
    requires Unused(mem, role, frames)
    ensures CreateTable(mem, cr3, l, table, v, frames) == CreateNext(mem, table, IndexOf(l, v), frames)
  {
    var i, e := IndexOf(l, v), Entry(mem, table, IndexOf(l, v));
    if Present(e) {
      CreateFinds(mem, cr3, role, l, table, v, frames);
    } else if !Huge(e) && frames != [] {
      NewIsLinked(mem, cr3, role, l, table, v, frames[0]);
    }
  }

  lemma NewIsLinked(mem: Memory, cr3: Frame, role: map<Frame, seq<Index>>, l: Level, f: Frame, v: bv64, nf: Frame)
    requires Recursive(mem, cr3) && l != Pt && IndexOf(Pml4, v) != RECURSIVE_INDEX && Tree(mem, cr3, role)
    requires TableOf(mem, cr3, l, v) == Some(f) && f in role && nf in mem && nf !in role && Addressable(nf)
    requires !Present(Entry(mem, f, IndexOf(l, v))) && !Huge(Entry(mem, f, IndexOf(l, v)))
    ensures var i, e := IndexOf(l, v), Entry(mem, f, IndexOf(l, v));
            var (mem', next) := NextMut(Write(mem, f, i, NewEntry(e, nf)), cr3, l, f, v);
            next == Table(nf) && Clear(mem', nf) == Link(mem, f, i, nf, ZeroTable())
  {
    var i, e := IndexOf(l, v), Entry(mem, f, IndexOf(l, v));
    PathStep(mem, cr3, role, l, f, v);
    NewTableReached(mem, cr3, role, l, f, v, nf);
    LinkUncleared(mem, f, i, nf);
    GetSet(mem[f], i, NewEntry(e, nf), i);
    KeepWritable(Write(mem, f, i, NewEntry(e, nf)), f, i, e, nf);
  }

  /** What a call of `map_page` owes: the page gets its frame and no other page changes, or it
      panics and no page changes. */
  ghost predicate MapsRight(mem: Memory, mem': Memory, cr3: Frame, v: bv64, phys: Frame, r: MapResult) {
    if r == Mapped then
      && WalkOf(mem', cr3, v) == Page4Kb(phys, false) && TranslatePage(mem', cr3, v) == Ok(phys)
      && SameWalksExcept(mem, mem', cr3, v)
    else SameWalks(mem, mem', cr3)
  }

  lemma LeafOutcome(mem: Memory, pt: Frame, v: bv64, phys: Frame)
    ensures SetLeaf(mem, pt, v, phys).1 == Outcome(GapOf(mem, Pt, pt, v), 0, phys)
  {
  }

  lemma LeafSmall(mem: Memory, cr3: Frame, role: map<Frame, seq<Index>>, pt: Frame, v: bv64, phys: Frame)
    requires Tree(mem, cr3, role) && Recursive(mem, cr3) && IndexOf(Pml4, v) != RECURSIVE_INDEX
    requires TableOf(mem, cr3, Pt, v) == Some(pt) && pt in role
    ensures var (mem', r) := SetLeaf(mem, pt, v, phys);
            Tree(mem', cr3, role) && Recursive(mem', cr3) && MapsRight(mem, mem', cr3, v, phys, r)
  {
    var e := Entry(mem, pt, IndexOf(Pt, v));
    if Present(e) || Huge(e) || !Addressable(phys) {
      assert SameWalks(mem, mem, cr3);
    } else {
      LeafWrite(mem, cr3, role, pt, v, phys);
    }
  }

  lemma SameThenRight(mem: Memory, mem': Memory, mem'': Memory, cr3: Frame, v: bv64, phys: Frame, r: MapResult)
    requires SameWalks(mem, mem', cr3) && MapsRight(mem', mem'', cr3, v, phys, r)
    ensures MapsRight(mem, mem'', cr3, v, phys, r)
  {
  }

  lemma SameOutcome(g: Gap, frames: nat, c: Created, g': Gap, phys: Frame)
    requires Descended(g, frames, c, g')
    ensures Outcome(g, frames, phys) == if c.Done? then Outcome(g', |c.rest|, phys) else Refusal(c)
  {
  }

  /** One `create_next_table` of the chain in `map_page`. */
  lemma CreateSmall(mem: Memory, cr3: Frame, role: map<Frame, seq<Index>>, l: Level, table: Frame, v: bv64,
                    phys: Frame, frames: seq<Frame>)
    requires Tree(mem, cr3, role) && Recursive(mem, cr3) && l != Pt && IndexOf(Pml4, v) != RECURSIVE_INDEX
    requires Small(WalkOf(mem, cr3, v)) && TableOf(mem, cr3, l, v) == Some(table) && table in role
    requires Unused(mem, role, frames)
    ensures var (mem', c) := CreateTable(mem, cr3, l, table, v, frames);
            var outcome := Outcome(GapOf(mem, l, table, v), |frames|, phys);
            if c.Done? then
              && Placed(mem', cr3, NewRole(mem, role, table, IndexOf(l, v), c.frame), l, v, c)
              && SameWalks(mem, mem', cr3) && Outcome(GapOf(mem', Below(l), c.frame, v), |c.rest|, phys) == outcome
            else mem' == mem && Refusal(c) == outcome
  {
    var (mem', c) := CreateNext(mem, table, IndexOf(l, v), frames);
    CreateIsNext(mem, cr3, role, l, table, v, frames);
    GapStep(mem, l, table, v, frames);
    if c.Done? {
      CreateStep(mem, cr3, role, l, table, v, frames);
      SameOutcome(GapOf(mem, l, table, v), |frames|, c, GapOf(mem', Below(l), c.frame, v), phys);
    } else {
      SameOutcome(GapOf(mem, l, table, v), |frames|, c, Gap(0, false, false), phys);
    }
  }

  lemma StillSmall(mem: Memory, mem': Memory, cr3: Frame, v: bv64)
    requires SameWalks(mem, mem', cr3) && IndexOf(Pml4, v) != RECURSIVE_INDEX && Small(WalkOf(mem, cr3, v))
    ensures Small(WalkOf(mem', cr3, v))
  {
  }

  lemma MapThrough(mem: Memory, cr3: Frame, l: Level, table: Frame, v: bv64, phys: Frame, frames: seq<Frame>)
    requires l != Pt
    ensures var (mem', c) := CreateTable(mem, cr3, l, table, v, frames);
            var end := MapFrom(mem, cr3, l, table, v, phys, frames);
            if c.Done? then
              var (mem'', r) := MapFrom(mem', cr3, Below(l), c.frame, v, phys, c.rest);
              && end == (mem'', r)
              && (SameWalks(mem, mem', cr3) && MapsRight(mem', mem'', cr3, v, phys, r) ==>
                    MapsRight(mem, mem'', cr3, v, phys, r))
            else
              end == (mem', Refusal(c)) && (mem' == mem ==> MapsRight(mem, mem', cr3, v, phys, Refusal(c)))
  {
    var (mem', c) := CreateTable(mem, cr3, l, table, v, frames);
    if c.Done? {
      var (mem'', r) := MapFrom(mem', cr3, Below(l), c.frame, v, phys, c.rest);
      if SameWalks(mem, mem', cr3) && MapsRight(mem', mem'', cr3, v, phys, r) {
        SameThenRight(mem, mem', mem'', cr3, v, phys, r);
      }
    } else {
      assert SameWalks(mem, mem, cr3);
    }
  }

  /** For a page under no large page, with frames that hold no table: `map_page` maps exactly that
      page, or panics for the reason that the gap tells, and keeps the tree and the recursive
      entry. */
  lemma {:induction false} MapSmall(mem: Memory, cr3: Frame, role: map<Frame, seq<Index>>, l: Level, table: Frame, v: bv64,
                                    phys: Frame, frames: seq<Frame>) returns (role': map<Frame, seq<Index>>)
    requires Tree(mem, cr3, role) && Recursive(mem, cr3) && IndexOf(Pml4, v) != RECURSIVE_INDEX
    requires Small(WalkOf(mem, cr3, v)) && TableOf(mem, cr3, l, v) == Some(table) && table in role
    requires Unused(mem, role, frames)
    ensures var (mem', r) := MapFrom(mem, cr3, l, table, v, phys, frames);
            && Tree(mem', cr3, role') && Recursive(mem', cr3) && MapsRight(mem, mem', cr3, v, phys, r)
            && r == Outcome(GapOf(mem, l, table, v), |frames|, phys)
    decreases Height(l)
  {
    role' := role;
    if l == Pt {
      LeafSmall(mem, cr3, role, table, v, phys);
      LeafOutcome(mem, table, v, phys);
    } else {
      var (mem', c) := CreateTable(mem, cr3, l, table, v, frames);
      CreateSmall(mem, cr3, role, l, table, v, phys, frames);
      if c.Done? {
        StillSmall(mem, mem', cr3, v);
        role' := MapSmall(mem', cr3, NewRole(mem, role, table, IndexOf(l, v), c.frame), Below(l), c.frame, v, phys, c.rest);
      }
      MapThrough(mem, cr3, l, table, v, phys, frames);
    }
  }

  // ---- A page under a large page ----

  /** Every entry of every table looks the same in both memories. */
  ghost predicate RoleSame(mem: Memory, mem': Memory, role: map<Frame, seq<Index>>) {
    && (forall g | g in role :: g in mem')
    && forall g, j | g in role :: SameEntry(Entry(mem, g, j), Entry(mem', g, j))
  }

  lemma RoleSameKeeps(mem: Memory, mem': Memory, cr3: Frame, role: map<Frame, seq<Index>>)
    requires Tree(mem, cr3, role) && Recursive(mem, cr3) && RoleSame(mem, mem', role)
    ensures InnerSame(mem, mem', role) && Tree(mem', cr3, role) && Recursive(mem', cr3) && SameWalks(mem, mem', cr3)
  {
    InnerSameTree(mem, mem', cr3, role);
    assert SameEntry(Entry(mem, cr3, RECURSIVE_INDEX), Entry(mem', cr3, RECURSIVE_INDEX));
    forall w | IndexOf(Pml4, w) != RECURSIVE_INDEX ensures WalkOf(mem', cr3, w) == WalkOf(mem, cr3, w) {
      TableRole(mem, cr3, role, PathTo(Pt, w));
      InnerSameWalk(mem, mem', cr3, role, IndexOf(Pml4, w), IndexOf(Pdpt, w), IndexOf(Pd, w), IndexOf(Pt, w));
    }
  }

  lemma WriteOff(mem: Memory, mem': Memory, role: map<Frame, seq<Index>>, f: Frame, i: Index, e: bv64)
    requires RoleSame(mem, mem', role) && f !in role
    ensures RoleSame(mem, Write(mem', f, i, e), role) && RoleSame(mem, Clear(mem', f), role)
  {
  }

  lemma WriteWritable(mem: Memory, mem': Memory, role: map<Frame, seq<Index>>, f: Frame, i: Index)
    requires RoleSame(mem, mem', role)
    ensures RoleSame(mem, Write(mem', f, i, SetWritable(Entry(mem', f, i))), role)
  {
    var e := SetWritable(Entry(mem', f, i));
    WritableBits(Entry(mem', f, i));
    forall g, j | g in role ensures SameEntry(Entry(mem, g, j), Entry(Write(mem', f, i, e), g, j)) {
      if f in mem' { EntryUpdate(mem', f, i, e, g, j); }
      assert SameEntry(Entry(mem, g, j), Entry(mem', g, j));
    }
  }

  /** The pointer to this table leads to no table, as long as the tables look the same. */
  ghost predicate Stray(mem: Memory, cr3: Frame, role: map<Frame, seq<Index>>, l: Level, v: bv64) {
    forall mem' | RoleSame(mem, mem', role) ::
      Walk(mem', cr3, TableAddr(l, v)).Some? ==> Walk(mem', cr3, TableAddr(l, v)).value !in role
  }

  lemma NextStray(mem0: Memory, mem: Memory, cr3: Frame, role: map<Frame, seq<Index>>, l: Level, table: Frame, v: bv64)
    requires RoleSame(mem0, mem, role) && Stray(mem0, cr3, role, Below(l), v)
    ensures var next := NextTable(mem, cr3, l, table, v); next.Table? ==> next.frame !in role
  {
  }

  lemma NextMutOff(mem0: Memory, mem: Memory, cr3: Frame, role: map<Frame, seq<Index>>, l: Level, table: Frame, v: bv64)
    requires RoleSame(mem0, mem, role) && Stray(mem0, cr3, role, Below(l), v)
    ensures var (mem', next) := NextMut(mem, cr3, l, table, v);
            RoleSame(mem0, mem', role) && (next.Table? ==> next.frame !in role)
  {
    var i := IndexOf(l, v);
    WriteWritable(mem0, mem, role, table, i);
    NextStray(mem0, Write(mem, table, i, SetWritable(Entry(mem, table, i))), cr3, role, l, table, v);
  }

  lemma NewOff(mem0: Memory, mem: Memory, cr3: Frame, role: map<Frame, seq<Index>>, l: Level, table: Frame, v: bv64, e: bv64)
    requires RoleSame(mem0, mem, role) && table !in role && Stray(mem0, cr3, role, Below(l), v)
    ensures var (mem', next) := NextMut(Write(mem, table, IndexOf(l, v), e), cr3, l, table, v);
            && RoleSame(mem0, mem', role)
            && (next.Table? ==> next.frame !in role && RoleSame(mem0, Clear(mem', next.frame), role))
  {
    var mem1 := Write(mem, table, IndexOf(l, v), e);
    WriteOff(mem0, mem, role, table, IndexOf(l, v), e);
    NextMutOff(mem0, mem1, cr3, role, l, table, v);
    var (mem', next) := NextMut(mem1, cr3, l, table, v);
    if next.Table? { WriteOff(mem0, mem', role, next.frame, 0, 0); }
  }

  lemma CreateOff(mem0: Memory, mem: Memory, cr3: Frame, role: map<Frame, seq<Index>>, l: Level, table: Frame, v: bv64,
                  frames: seq<Frame>)
    requires RoleSame(mem0, mem, role) && table !in role && Stray(mem0, cr3, role, Below(l), v)
    ensures var (mem', c) := CreateTable(mem, cr3, l, table, v, frames);
            RoleSame(mem0, mem', role) && (c.Done? ==> c.frame !in role)
  {
    var i, e := IndexOf(l, v), Entry(mem, table, IndexOf(l, v));
    if Present(e) {
      NextMutOff(mem0, mem, cr3, role, l, table, v);
    } else if frames != [] {
      if Addressable(frames[0]) {
        NewOff(mem0, mem, cr3, role, l, table, v, NewEntry(e, frames[0]));
      } else {
        WriteOff(mem0, mem, role, table, i, SetWritable(SetPresent(e)));
      }
    }
  }

  /** Once the pointers have left the tables, nothing that is written is a table. */
  lemma {:induction false} MapOff(mem0: Memory, mem: Memory, cr3: Frame, role: map<Frame, seq<Index>>, l: Level,
                                  table: Frame, v: bv64, phys: Frame, frames: seq<Frame>)
    requires RoleSame(mem0, mem, role) && table !in role
    requires forall l' | Height(l') < Height(l) :: Stray(mem0, cr3, role, l', v)
    ensures RoleSame(mem0, MapFrom(mem, cr3, l, table, v, phys, frames).0, role)
    decreases Height(l)
  {
    if l == Pt {
      WriteOff(mem0, mem, role, table, IndexOf(Pt, v), LeafEntry(Entry(mem, table, IndexOf(Pt, v)), phys));
    } else {
      CreateOff(mem0, mem, cr3, role, l, table, v, frames);
      var (mem', c) := CreateTable(mem, cr3, l, table, v, frames);
      if c.Done? { MapOff(mem0, mem', cr3, role, Below(l), c.frame, v, phys, c.rest); }
    }
  }

  predicate Large(leaf: Leaf) {
    leaf.Page1Gb? || leaf.Page2Mb?
  }

  /** The data that the pointers lead into are no tables. */
  predicate DataApart(leaf: Leaf, v: bv64, role: map<Frame, seq<Index>>) {
    match leaf
    case Page2Mb(base) => base !in role
    case Page1Gb(base) => base !in role && StrayTable(base, v) !in role
    case _ => true
  }

  lemma LargePresent(mem: Memory, cr3: Frame, l: Level, table: Frame, v: bv64)
    requires Large(WalkOf(mem, cr3, v)) && TableOf(mem, cr3, l, v) == Some(table)
    ensures l != Pt && Present(Entry(mem, table, IndexOf(l, v)))
  {
    TableAtSteps(mem, cr3, IndexOf(Pml4, v), IndexOf(Pdpt, v), IndexOf(Pd, v));
  }

  lemma NoneBelow(mem: Memory, cr3: Frame, l: Level, v: bv64)
    requires TableOf(mem, cr3, l, v).None?
    ensures forall l' | Height(l') < Height(l) :: TableOf(mem, cr3, l', v).None?
  {
    TableAtSteps(mem, cr3, IndexOf(Pml4, v), IndexOf(Pdpt, v), IndexOf(Pd, v));
  }

  lemma ResolvedSame(mem0: Memory, mem: Memory, cr3: Frame, role: map<Frame, seq<Index>>, l: Level, v: bv64)
    requires Tree(mem0, cr3, role) && Recursive(mem0, cr3) && RoleSame(mem0, mem, role)
    requires IndexOf(Pml4, v) != RECURSIVE_INDEX && TableOf(mem0, cr3, l, v).Some?
    ensures Walk(mem, cr3, TableAddr(l, v)) == TableOf(mem0, cr3, l, v)
  {
    RoleSameKeeps(mem0, mem, cr3, role);
    InnerSameTables(mem0, mem, cr3, role, PathTo(l, v));
    RecursiveWalk(mem, cr3, l, v);
  }

  /** The pointers that no table of the page stands behind are stray. */
  lemma StrayLarge(mem: Memory, cr3: Frame, role: map<Frame, seq<Index>>, l: Level, v: bv64)
    requires Tree(mem, cr3, role) && Recursive(mem, cr3) && IndexOf(Pml4, v) != RECURSIVE_INDEX
    requires Large(WalkOf(mem, cr3, v)) && DataApart(WalkOf(mem, cr3, v), v, role) && TableOf(mem, cr3, l, v).None?
    ensures Stray(mem, cr3, role, l, v)
  {
    forall mem' | RoleSame(mem, mem', role)
      ensures Walk(mem', cr3, TableAddr(l, v)).Some? ==> Walk(mem', cr3, TableAddr(l, v)).value !in role
    {
      RoleSameKeeps(mem, mem', cr3, role);
      assert WalkOf(mem', cr3, v) == WalkOf(mem, cr3, v);
      StrayWalk(mem, mem', cr3, l, v);
    }
  }

  lemma StrayWalk(mem: Memory, mem': Memory, cr3: Frame, l: Level, v: bv64)
    requires Recursive(mem', cr3) && Large(WalkOf(mem, cr3, v)) && WalkOf(mem', cr3, v) == WalkOf(mem, cr3, v)
    requires TableOf(mem, cr3, l, v).None?
    ensures var leaf, w := WalkOf(mem, cr3, v), Walk(mem', cr3, TableAddr(l, v));
            w == Some(if leaf.Page2Mb? || l == Pd then leaf.base else StrayTable(leaf.base, v))
  {
    var leaf := WalkOf(mem, cr3, v);
    TableAtSteps(mem, cr3, IndexOf(Pml4, v), IndexOf(Pdpt, v), IndexOf(Pd, v));
    match leaf
    case Page2Mb(base) =>
      LargePath(mem', cr3, IndexOf(Pml4, v), IndexOf(Pdpt, v), IndexOf(Pd, v), IndexOf(Pt, v), base);
      PtAddrIndices(v);
    case Page1Gb(base) =>
      HugeDirectory(mem', cr3, v, base);
      HugeTable(mem', cr3, v, base);
  }

  lemma CreatePresent(mem: Memory, cr3: Frame, l: Level, table: Frame, v: bv64, frames: seq<Frame>)
    requires table in mem && Present(Entry(mem, table, IndexOf(l, v)))
    ensures var mem' := Write(mem, table, IndexOf(l, v), SetWritable(Entry(mem, table, IndexOf(l, v))));
            CreateTable(mem, cr3, l, table, v, frames) ==
            (mem', match Walk(mem', cr3, TableAddr(Below(l), v)) case None => Crashed case Some(f) => Done(f, frames))
  {
    var i, e := IndexOf(l, v), Entry(mem, table, IndexOf(l, v));
    WritableBits(e);
    EntryUpdate(mem, table, i, SetWritable(e), table, i);
  }

  /** A table of the page is passed through `create_next_table` with its entry made writable. */
  lemma CreateThrough(mem0: Memory, mem: Memory, cr3: Frame, role: map<Frame, seq<Index>>, l: Level, table: Frame, v: bv64,
                      frames: seq<Frame>)
    requires Tree(mem0, cr3, role) && Recursive(mem0, cr3) && RoleSame(mem0, mem, role)
    requires IndexOf(Pml4, v) != RECURSIVE_INDEX && table in role && Present(Entry(mem0, table, IndexOf(l, v)))
    ensures var (mem', c) := CreateTable(mem, cr3, l, table, v, frames);
            && mem' == Write(mem, table, IndexOf(l, v), SetWritable(Entry(mem, table, IndexOf(l, v))))
            && RoleSame(mem0, mem', role)
            && c == (match Walk(mem', cr3, TableAddr(Below(l), v)) case None => Crashed case Some(f) => Done(f, frames))
  {
    var i := IndexOf(l, v);
    assert SameEntry(Entry(mem0, table, i), Entry(mem, table, i));
    WriteWritable(mem0, mem, role, table, i);
    CreatePresent(mem, cr3, l, table, v, frames);
  }

  /** Where the pointer goes that `create_next_table` follows from a table of the page. */
  lemma NextOfLarge(mem0: Memory, mem: Memory, cr3: Frame, role: map<Frame, seq<Index>>, l: Level, v: bv64)
    requires Tree(mem0, cr3, role) && Recursive(mem0, cr3) && RoleSame(mem0, mem, role)
    requires IndexOf(Pml4, v) != RECURSIVE_INDEX && Large(WalkOf(mem0, cr3, v))
    ensures var leaf, table, w := WalkOf(mem0, cr3, v), TableOf(mem0, cr3, l, v), Walk(mem, cr3, TableAddr(l, v));
            if table.Some? then w == table && w.value in role
            else w == Some(if leaf.Page2Mb? || l == Pd then leaf.base else StrayTable(leaf.base, v))
  {
    RoleSameKeeps(mem0, mem, cr3, role);
    assert WalkOf(mem, cr3, v) == WalkOf(mem0, cr3, v);
    if TableOf(mem0, cr3, l, v).Some? {
      ResolvedSame(mem0, mem, cr3, role, l, v);
      TableRole(mem0, cr3, role, PathTo(l, v));
    } else {
      StrayWalk(mem0, mem, cr3, l, v);
    }
  }

  /** Under a large page `map_page` leaves every table alone, but for writable bits. */
  lemma {:induction false} MapLarge(mem0: Memory, mem: Memory, cr3: Frame, role: map<Frame, seq<Index>>, l: Level,
                                    table: Frame, v: bv64, phys: Frame, frames: seq<Frame>)
    requires Tree(mem0, cr3, role) && Recursive(mem0, cr3) && RoleSame(mem0, mem, role)
    requires IndexOf(Pml4, v) != RECURSIVE_INDEX && TableOf(mem0, cr3, l, v) == Some(table) && table in role
    requires Large(WalkOf(mem0, cr3, v)) && DataApart(WalkOf(mem0, cr3, v), v, role)
    ensures RoleSame(mem0, MapFrom(mem, cr3, l, table, v, phys, frames).0, role)
    decreases Height(l)
  {
    LargePresent(mem0, cr3, l, table, v);
    CreateThrough(mem0, mem, cr3, role, l, table, v, frames);
    var (mem', c) := CreateTable(mem, cr3, l, table, v, frames);
    NextOfLarge(mem0, mem', cr3, role, Below(l), v);
    if TableOf(mem0, cr3, Below(l), v).Some? {
      MapLarge(mem0, mem', cr3, role, Below(l), c.frame, v, phys, c.rest);
    } else {
      StraysBelow(mem0, cr3, role, Below(l), v);
      MapOff(mem0, mem', cr3, role, Below(l), c.frame, v, phys, c.rest);
    }
  }

  lemma StraysBelow(mem: Memory, cr3: Frame, role: map<Frame, seq<Index>>, l: Level, v: bv64)
    requires Tree(mem, cr3, role) && Recursive(mem, cr3) && IndexOf(Pml4, v) != RECURSIVE_INDEX
    requires Large(WalkOf(mem, cr3, v)) && DataApart(WalkOf(mem, cr3, v), v, role) && TableOf(mem, cr3, l, v).None?
    ensures forall l' | Height(l') <= Height(l) :: Stray(mem, cr3, role, l', v)
  {
    NoneBelow(mem, cr3, l, v);
    forall l' | Height(l') <= Height(l) ensures Stray(mem, cr3, role, l', v) {
      assert Height(l') == Height(l) ==> l' == l;
      StrayLarge(mem, cr3, role, l', v);
    }
  }

  /** Frames that hold no table are as they were. */
  ghost predicate OffSame(mem: Memory, mem': Memory, role: map<Frame, seq<Index>>) {
    forall g | g !in role :: (g in mem <==> g in mem') && (g in mem ==> mem'[g] == mem[g])
  }

  /** Under a 2M page the tables are passed through, and the data are taken for the page table. */
  lemma {:induction false} DataReached(mem0: Memory, mem: Memory, cr3: Frame, role: map<Frame, seq<Index>>, l: Level,
                                       table: Frame, v: bv64, phys: Frame, frames: seq<Frame>)
    returns (mem': Memory)
    requires Tree(mem0, cr3, role) && Recursive(mem0, cr3) && RoleSame(mem0, mem, role) && OffSame(mem0, mem, role)
    requires IndexOf(Pml4, v) != RECURSIVE_INDEX && TableOf(mem0, cr3, l, v) == Some(table) && table in role
    requires WalkOf(mem0, cr3, v).Page2Mb?
    ensures RoleSame(mem0, mem', role) && OffSame(mem0, mem', role)
    ensures MapFrom(mem, cr3, l, table, v, phys, frames) == SetLeaf(mem', WalkOf(mem0, cr3, v).base, v, phys)
    decreases Height(l)
  {
    LargePresent(mem0, cr3, l, table, v);
    CreateThrough(mem0, mem, cr3, role, l, table, v, frames);
    var (mem1, c) := CreateTable(mem, cr3, l, table, v, frames);
    NextOfLarge(mem0, mem1, cr3, role, Below(l), v);
    if TableOf(mem0, cr3, Below(l), v).Some? {
      mem' := DataReached(mem0, mem1, cr3, role, Below(l), c.frame, v, phys, c.rest);
    } else {
      TablesAboveLarge(mem0, cr3, v, WalkOf(mem0, cr3, v).base);
      assert l == Pd;
      mem' := mem1;
    }
  }

  /** The word that a free-looking word of the data becomes. */
  function NewWord(word: bv64, phys: Frame, r: MapResult): bv64 {
    if r == Mapped then LeafEntry(word, phys) else word
  }

  lemma LeafWord(mem: Memory, mem1: Memory, role: map<Frame, seq<Index>>, v: bv64, base: Frame, phys: Frame)
    requires OffSame(mem, mem1, role) && base !in role && base in mem
    ensures var i := IndexOf(Pt, v);
            var (mem', r) := SetLeaf(mem1, base, v, phys);
            && r == SetLeaf(mem, base, v, phys).1
            && forall g, j | g !in role ::
                 Entry(mem', g, j) == if g == base && j == i then NewWord(Entry(mem, base, i), phys, r) else Entry(mem, g, j)
  {
    var i, word := IndexOf(Pt, v), Entry(mem, base, IndexOf(Pt, v));
    assert Entry(mem1, base, i) == word;
    var (mem', r) := SetLeaf(mem1, base, v, phys);
    forall g, j | g !in role
      ensures Entry(mem', g, j) == if g == base && j == i then NewWord(word, phys, r) else Entry(mem, g, j)
    {
      assert Entry(mem1, g, j) == Entry(mem, g, j);
      if r == Mapped { EntryUpdate(mem1, base, i, LeafEntry(word, phys), g, j); }
    }
  }

  /** What `map_page` does to a page under a 2M page: it writes its entry over a word of the data
      if that word looks free, and changes no translation. */
  lemma MapUnder2Mb(mem: Memory, cr3: Frame, role: map<Frame, seq<Index>>, v: bv64, base: Frame, phys: Frame,
                    frames: seq<Frame>)
    requires Tree(mem, cr3, role) && Recursive(mem, cr3) && IndexOf(Pml4, v) != RECURSIVE_INDEX
    requires WalkOf(mem, cr3, v) == Page2Mb(base) && base !in role && base in mem
    ensures var i := IndexOf(Pt, v);
            var (mem', r) := MapFrom(mem, cr3, Pml4, cr3, v, phys, frames);
            && r == SetLeaf(mem, base, v, phys).1 && RoleSame(mem, mem', role)
            && forall g, j | g !in role ::
                 Entry(mem', g, j) == if g == base && j == i then NewWord(Entry(mem, base, i), phys, r) else Entry(mem, g, j)
  {
    var mem1 := DataReached(mem, mem, cr3, role, Pml4, cr3, v, phys, frames);
    MapLarge(mem, mem, cr3, role, Pml4, cr3, v, phys, frames);
    LeafWord(mem, mem1, role, v, base, phys);
  }

  /** The hardware still finds the 2M page, and `translate_page` says that the page was mapped. */
  lemma MisledBy2Mb(mem: Memory, cr3: Frame, role: map<Frame, seq<Index>>, v: bv64, base: Frame, phys: Frame,
                    frames: seq<Frame>)
    requires Tree(mem, cr3, role) && Recursive(mem, cr3) && IndexOf(Pml4, v) != RECURSIVE_INDEX
    requires WalkOf(mem, cr3, v) == Page2Mb(base) && base !in role && base in mem
    ensures var (mem', r) := MapFrom(mem, cr3, Pml4, cr3, v, phys, frames);
            && SameWalks(mem, mem', cr3) && WalkOf(mem', cr3, v) == Page2Mb(base)
            && (r == Mapped ==> TranslatePage(mem', cr3, v) == Ok(phys))
  {
    MapUnder2Mb(mem, cr3, role, v, base, phys, frames);
    var (mem', r) := MapFrom(mem, cr3, Pml4, cr3, v, phys, frames);
    RoleSameKeeps(mem, mem', cr3, role);
    if r == Mapped {
      LeafEntryBits(Entry(mem, base, IndexOf(Pt, v)), phys);
      TranslateMisreads(mem', cr3, v, base);
    }
  }

  /** What `create_next_table` does to a directory: nothing, a write of the entry, or such a write
      and the clearing of the page table. */
  datatype Edit = Leave | Put(e: bv64) | PutAndClear(e: bv64)

  function Apply(mem: Memory, base: Frame, i: Index, stray: Frame, edit: Edit): Memory {
    match edit
    case Leave => mem
    case Put(e) => Write(mem, base, i, e)
    case PutAndClear(e) => Clear(Write(mem, base, i, e), stray)
  }

  /** What it does to a word that is taken for the entry, if the page table is then found at `stray`. */
  function HugeEdit(word: bv64, stray: Frame, frames: seq<Frame>): (Edit, Created) {
    if Present(word) then (Put(SetWritable(word)), Done(stray, frames))
    else if Huge(word) then (Leave, HugeEntry)
    else if frames == [] then (Leave, OutOfFrames)
    else if !Addressable(frames[0]) then (Put(SetWritable(SetPresent(word))), BadTable)
    else (PutAndClear(NewEntry(word, frames[0])), Done(stray, frames[1..]))
  }

  /** `create_next_table` when the first 4K of the data of a 1G page are taken for the page
      directory, and another 4K for the page table. */
  function HugeCreate(mem: Memory, base: Frame, stray: Frame, v: bv64, frames: seq<Frame>): (Memory, Created) {
    var (edit, c) := HugeEdit(Entry(mem, base, IndexOf(Pd, v)), stray, frames);
    (Apply(mem, base, IndexOf(Pd, v), stray, edit), c)
  }

  /** What becomes of the data, and how `map_page` ends. */
  function HugeMap(mem: Memory, base: Frame, stray: Frame, v: bv64, phys: Frame, frames: seq<Frame>): (Memory, MapResult) {
    var (mem', c) := HugeCreate(mem, base, stray, v, frames);
    if c.Done? then SetLeaf(mem', stray, v, phys) else (mem', Refusal(c))
  }

  lemma HugeLevels(mem: Memory, cr3: Frame, v: bv64)
    requires Recursive(mem, cr3) && WalkOf(mem, cr3, v).Page1Gb?
    ensures TableOf(mem, cr3, Pdpt, v).Some? && TableOf(mem, cr3, Pd, v).None? && TableOf(mem, cr3, Pt, v).None?
  {
    HugeTop(mem, cr3, v, WalkOf(mem, cr3, v).base);
    TableAtSteps(mem, cr3, IndexOf(Pml4, v), IndexOf(Pdpt, v), IndexOf(Pd, v));
  }

  lemma StrayReached(mem0: Memory, mem: Memory, cr3: Frame, role: map<Frame, seq<Index>>, v: bv64, base: Frame)
    requires Tree(mem0, cr3, role) && Recursive(mem0, cr3) && RoleSame(mem0, mem, role)
    requires IndexOf(Pml4, v) != RECURSIVE_INDEX && WalkOf(mem0, cr3, v) == Page1Gb(base)
    ensures Walk(mem, cr3, TableAddr(Pt, v)) == Some(StrayTable(base, v))
  {
    HugeLevels(mem0, cr3, v);
    NextOfLarge(mem0, mem, cr3, role, Pt, v);
  }

  /** Whatever present word stands in the directory, the page table is taken to be at the same place. */
  lemma HugeNext(mem0: Memory, mem: Memory, cr3: Frame, role: map<Frame, seq<Index>>, v: bv64, base: Frame, e: bv64)
    requires Tree(mem0, cr3, role) && Recursive(mem0, cr3) && RoleSame(mem0, mem, role)
    requires IndexOf(Pml4, v) != RECURSIVE_INDEX && WalkOf(mem0, cr3, v) == Page1Gb(base)
    requires base !in role && base in mem && Present(e)
    ensures var mem' := Update(mem, base, IndexOf(Pd, v), e);
            && Entry(mem', base, IndexOf(Pd, v)) == e
            && NextTable(mem', cr3, Pd, base, v) == Table(StrayTable(base, v))
  {
    WriteOff(mem0, mem, role, base, IndexOf(Pd, v), e);
    StrayReached(mem0, Update(mem, base, IndexOf(Pd, v), e), cr3, role, v, base);
    EntryUpdate(mem, base, IndexOf(Pd, v), e, base, IndexOf(Pd, v));
  }

  lemma UpdateTwice(mem: Memory, f: Frame, i: Index, e: bv64)
    requires f in mem
    ensures Update(Update(mem, f, i, e), f, i, e) == Update(mem, f, i, e)
  {
    EntryUpdate(mem, f, i, e, f, i);
    UpdateSame(Update(mem, f, i, e), f, i);
  }

  /** A new entry is written once more, as it is, before the table behind it is cleared. */
  lemma HugeNew(mem0: Memory, mem: Memory, cr3: Frame, role: map<Frame, seq<Index>>, v: bv64, base: Frame,
                word: bv64, frame: Frame)
    requires Tree(mem0, cr3, role) && Recursive(mem0, cr3) && RoleSame(mem0, mem, role)
    requires IndexOf(Pml4, v) != RECURSIVE_INDEX && WalkOf(mem0, cr3, v) == Page1Gb(base)
    requires base !in role && base in mem && Addressable(frame)
    ensures var mem' := Update(mem, base, IndexOf(Pd, v), NewEntry(word, frame));
            NextMut(mem', cr3, Pd, base, v) == (mem', Table(StrayTable(base, v)))
  {
    var i, e := IndexOf(Pd, v), NewEntry(word, frame);
    NewEntryBits(word, frame);
    NewEntryWritable(word, frame);
    WritableTwice(e);
    HugeNext(mem0, mem, cr3, role, v, base, e);
    UpdateTwice(mem, base, i, e);
  }

  lemma CreatedAt(mem: Memory, cr3: Frame, base: Frame, stray: Frame, v: bv64, frames: seq<Frame>)
    requires base in mem
    requires var i, word := IndexOf(Pd, v), Entry(mem, base, IndexOf(Pd, v));
             && (Present(word) ==> Walk(Write(mem, base, i, SetWritable(word)), cr3, TableAddr(Pt, v)) == Some(stray))
             && (!Present(word) && frames != [] && Addressable(frames[0]) ==>
                   var mem' := Update(mem, base, i, NewEntry(word, frames[0]));
                   NextMut(mem', cr3, Pd, base, v) == (mem', Table(stray)))
    ensures CreateTable(mem, cr3, Pd, base, v, frames) == HugeCreate(mem, base, stray, v, frames)
  {
    if Present(Entry(mem, base, IndexOf(Pd, v))) { CreatePresent(mem, cr3, Pd, base, v, frames); }
  }

  lemma HugeCreated(mem0: Memory, mem: Memory, cr3: Frame, role: map<Frame, seq<Index>>, v: bv64, base: Frame,
                    frames: seq<Frame>)
    requires Tree(mem0, cr3, role) && Recursive(mem0, cr3) && RoleSame(mem0, mem, role)
    requires IndexOf(Pml4, v) != RECURSIVE_INDEX && WalkOf(mem0, cr3, v) == Page1Gb(base)
    requires base !in role && base in mem
    ensures CreateTable(mem, cr3, Pd, base, v, frames) == HugeCreate(mem, base, StrayTable(base, v), v, frames)
  {
    var i, word := IndexOf(Pd, v), Entry(mem, base, IndexOf(Pd, v));
    WriteOff(mem0, mem, role, base, i, SetWritable(word));
    StrayReached(mem0, Write(mem, base, i, SetWritable(word)), cr3, role, v, base);
    if frames != [] && Addressable(frames[0]) { HugeNew(mem0, mem, cr3, role, v, base, word, frames[0]); }
    CreatedAt(mem, cr3, base, StrayTable(base, v), v, frames);
  }

  lemma MapOfCreate(mem: Memory, cr3: Frame, base: Frame, stray: Frame, v: bv64, phys: Frame, frames: seq<Frame>)
    requires CreateTable(mem, cr3, Pd, base, v, frames) == HugeCreate(mem, base, stray, v, frames)
    ensures MapFrom(mem, cr3, Pd, base, v, phys, frames) == HugeMap(mem, base, stray, v, phys, frames)
  {
    var (mem', c) := HugeCreate(mem, base, stray, v, frames);
    if c.Done? { assert MapFrom(mem', cr3, Pt, stray, v, phys, c.rest) == SetLeaf(mem', stray, v, phys); }
  }

  /** One table above a large page is passed through; frames that hold no table are as they were. */
  lemma PassThrough(mem0: Memory, mem: Memory, cr3: Frame, role: map<Frame, seq<Index>>, l: Level, table: Frame, v: bv64,
                    frames: seq<Frame>)
    requires Tree(mem0, cr3, role) && Recursive(mem0, cr3) && RoleSame(mem0, mem, role) && OffSame(mem0, mem, role)
    requires IndexOf(Pml4, v) != RECURSIVE_INDEX && TableOf(mem0, cr3, l, v) == Some(table) && table in role
    requires Large(WalkOf(mem0, cr3, v))
    ensures var (mem', c) := CreateTable(mem, cr3, l, table, v, frames);
            && l != Pt && RoleSame(mem0, mem', role) && OffSame(mem0, mem', role)
            && c == match Walk(mem', cr3, TableAddr(Below(l), v)) case None => Crashed case Some(f) => Done(f, frames)
  {
    LargePresent(mem0, cr3, l, table, v);
    CreateThrough(mem0, mem, cr3, role, l, table, v, frames);
  }

  /** The tables above a 1G page are passed through, and the data are taken for the directory. */
  lemma {:induction false} HugeReached(mem0: Memory, mem: Memory, cr3: Frame, role: map<Frame, seq<Index>>, l: Level,
                                       table: Frame, v: bv64, phys: Frame, frames: seq<Frame>)
    returns (mem': Memory)
    requires Tree(mem0, cr3, role) && Recursive(mem0, cr3) && RoleSame(mem0, mem, role) && OffSame(mem0, mem, role)
    requires IndexOf(Pml4, v) != RECURSIVE_INDEX && TableOf(mem0, cr3, l, v) == Some(table) && table in role
    requires WalkOf(mem0, cr3, v).Page1Gb?
    ensures RoleSame(mem0, mem', role) && OffSame(mem0, mem', role)
    ensures MapFrom(mem, cr3, l, table, v, phys, frames) ==
            MapFrom(mem', cr3, Pd, WalkOf(mem0, cr3, v).base, v, phys, frames)
    decreases Height(l)
  {
    PassThrough(mem0, mem, cr3, role, l, table, v, frames);
    HugeLevels(mem0, cr3, v);
    var (mem1, c) := CreateTable(mem, cr3, l, table, v, frames);
    NextOfLarge(mem0, mem1, cr3, role, Below(l), v);
    if TableOf(mem0, cr3, Below(l), v).Some? {
      mem' := HugeReached(mem0, mem1, cr3, role, Below(l), c.frame, v, phys, c.rest);
    } else {
      assert l == Pdpt;
      mem' := mem1;
    }
  }

  lemma OffWrites(mem: Memory, mem': Memory, role: map<Frame, seq<Index>>, f: Frame, i: Index, e: bv64)
    requires OffSame(mem, mem', role) && f !in role
    ensures Entry(mem', f, i) == Entry(mem, f, i)
    ensures OffSame(Write(mem, f, i, e), Write(mem', f, i, e), role) && OffSame(Clear(mem, f), Clear(mem', f), role)
  {
  }

  lemma OffLeaf(mem: Memory, mem': Memory, role: map<Frame, seq<Index>>, f: Frame, v: bv64, phys: Frame)
    requires OffSame(mem, mem', role) && f !in role
    ensures var (data, r), (data', r') := SetLeaf(mem, f, v, phys), SetLeaf(mem', f, v, phys);
            r == r' && OffSame(data, data', role)
  {
    OffWrites(mem, mem', role, f, IndexOf(Pt, v), LeafEntry(Entry(mem, f, IndexOf(Pt, v)), phys));
  }

  lemma OffApply(mem: Memory, mem': Memory, role: map<Frame, seq<Index>>, base: Frame, i: Index, stray: Frame, edit: Edit)
    requires OffSame(mem, mem', role) && base !in role && stray !in role
    ensures Entry(mem', base, i) == Entry(mem, base, i)
    ensures OffSame(Apply(mem, base, i, stray, edit), Apply(mem', base, i, stray, edit), role)
  {
    match edit
    case Leave =>
    case Put(e) => OffWrites(mem, mem', role, base, i, e);
    case PutAndClear(e) =>
      OffWrites(mem, mem', role, base, i, e);
      OffWrites(Write(mem, base, i, e), Write(mem', base, i, e), role, stray, i, e);
  }

  /** The data after it depend on the data before it. */
  lemma HugeSame(mem: Memory, mem': Memory, role: map<Frame, seq<Index>>, base: Frame, stray: Frame, v: bv64,
                 phys: Frame, frames: seq<Frame>)
    requires OffSame(mem, mem', role) && base !in role && stray !in role
    ensures var (data, r), (data', r') := HugeMap(mem, base, stray, v, phys, frames),
                                          HugeMap(mem', base, stray, v, phys, frames);
            r == r' && OffSame(data, data', role)
  {
    var i := IndexOf(Pd, v);
    OffApply(mem, mem', role, base, i, stray, HugeEdit(Entry(mem, base, i), stray, frames).0);
    var made, made' := HugeCreate(mem, base, stray, v, frames), HugeCreate(mem', base, stray, v, frames);
    OffLeaf(made.0, made'.0, role, stray, v, phys);
  }

  /** What `map_page` does to a page under a 1G page: the tables look the same, no translation
      changes, and the data are written as if they were a directory and a page table. */
  lemma MapUnder1Gb(mem: Memory, cr3: Frame, role: map<Frame, seq<Index>>, v: bv64, base: Frame, phys: Frame,
                    frames: seq<Frame>)
    requires Tree(mem, cr3, role) && Recursive(mem, cr3) && IndexOf(Pml4, v) != RECURSIVE_INDEX
    requires WalkOf(mem, cr3, v) == Page1Gb(base) && base !in role && StrayTable(base, v) !in role && base in mem
    ensures var (mem', r) := MapFrom(mem, cr3, Pml4, cr3, v, phys, frames);
            var (data, how) := HugeMap(mem, base, StrayTable(base, v), v, phys, frames);
            r == how && RoleSame(mem, mem', role) && SameWalks(mem, mem', cr3) && OffSame(data, mem', role)
  {
    var mem1 := HugeReached(mem, mem, cr3, role, Pml4, cr3, v, phys, frames);
    HugeCreated(mem, mem1, cr3, role, v, base, frames);
    MapOfCreate(mem1, cr3, base, StrayTable(base, v), v, phys, frames);
    HugeSame(mem, mem1, role, base, StrayTable(base, v), v, phys, frames);
    MapLarge(mem, mem, cr3, role, Pml4, cr3, v, phys, frames);
    RoleSameKeeps(mem, MapFrom(mem, cr3, Pml4, cr3, v, phys, frames).0, cr3, role);
  }

  lemma OtherWords(mem: Memory, f: Frame, i: Index, e: bv64, g: Frame, j: Index)
    requires g != f
    ensures Entry(Write(mem, f, i, e), g, j) == Entry(mem, g, j) && Entry(Clear(mem, f), g, j) == Entry(mem, g, j)
  {
  }

  /** Data outside of these two places stay. */
  lemma DataKept(mem: Memory, base: Frame, stray: Frame, v: bv64, phys: Frame, frames: seq<Frame>, g: Frame, j: Index)
    requires g != base && g != stray
    ensures Entry(HugeMap(mem, base, stray, v, phys, frames).0, g, j) == Entry(mem, g, j)
  {
    var i := IndexOf(Pd, v);
    var edit := HugeEdit(Entry(mem, base, i), stray, frames).0;
    var mem' := Apply(mem, base, i, stray, edit);
    match edit {
      case Leave =>
      case Put(e) => OtherWords(mem, base, i, e, g, j);
      case PutAndClear(e) =>
        OtherWords(mem, base, i, e, g, j);
        OtherWords(Write(mem, base, i, e), stray, i, e, g, j);
    }
    OtherWords(mem', stray, IndexOf(Pt, v), LeafEntry(Entry(mem', stray, IndexOf(Pt, v)), phys), g, j);
  }

  /** The data that are lost: if the directory word looks free, a whole 4K of them is cleared and
      one word there becomes the entry, whatever these words held. */
  lemma DataLost(mem: Memory, base: Frame, stray: Frame, v: bv64, phys: Frame, frames: seq<Frame>, j: Index)
    requires stray in mem && frames != [] && Addressable(frames[0])
    requires !Present(Entry(mem, base, IndexOf(Pd, v))) && !Huge(Entry(mem, base, IndexOf(Pd, v)))
    ensures var (data, r) := HugeMap(mem, base, stray, v, phys, frames);
            && r == (if Addressable(phys) then Mapped else BadFrame)
            && Entry(data, stray, j) == if r == Mapped && j == IndexOf(Pt, v) then LeafEntry(0, phys) else 0
  {
    var mem' := HugeCreate(mem, base, stray, v, frames).0;
    ClearedLeaf(mem', stray, v, phys, j);
  }

  lemma ClearedLeaf(mem: Memory, f: Frame, v: bv64, phys: Frame, j: Index)
    requires f in mem && mem[f] == ZeroTable()
    ensures var (data, r) := SetLeaf(mem, f, v, phys);
            && r == (if Addressable(phys) then Mapped else BadFrame)
            && Entry(data, f, j) == if r == Mapped && j == IndexOf(Pt, v) then LeafEntry(0, phys) else 0
  {
    ZeroWords(j);
    ZeroWords(IndexOf(Pt, v));
    EntryUpdate(mem, f, IndexOf(Pt, v), LeafEntry(0, phys), f, j);
  }

  lemma ZeroWords(j: Index)
    ensures Get(ZeroTable(), j) == 0 && !Present(0) && !Huge(0)
  {
    ZeroEntry(j);
  }

  /** So a page that `map_page` says it mapped is mapped exactly if no large page covered it. */
  lemma MapExact(mem: Memory, cr3: Frame, role: map<Frame, seq<Index>>, v: bv64, phys: Frame, frames: seq<Frame>)
    requires Tree(mem, cr3, role) && Recursive(mem, cr3) && IndexOf(Pml4, v) != RECURSIVE_INDEX
    requires Unused(mem, role, frames) && WalkOf(mem, cr3, v) != Reserved && DataApart(WalkOf(mem, cr3, v), v, role)
    ensures var (mem', r) := MapFrom(mem, cr3, Pml4, cr3, v, phys, frames);
            r == Mapped ==> (Walk(mem', cr3, v) == Some(phys) && WalkOf(mem', cr3, v).Page4Kb? <==> Small(WalkOf(mem, cr3, v)))
  {
    var (mem', r) := MapFrom(mem, cr3, Pml4, cr3, v, phys, frames);
    if Small(WalkOf(mem, cr3, v)) {
      var role' := MapSmall(mem, cr3, role, Pml4, cr3, v, phys, frames);
    } else {
      MapLarge(mem, mem, cr3, role, Pml4, cr3, v, phys, frames);
      RoleSameKeeps(mem, mem', cr3, role);
    }
  }

  /** In the memory in which `translate_page` is misled, `map_page` of the next page is too: it
      says it mapped it, `translate_page` agrees, and the hardware finds the 2M page. */
  lemma MapDisagrees(phys: Frame)
    requires Addressable(phys) && phys != Frame(0x20_1000)
    ensures var mem, cr3, v := MisleadingMemory(), Frame(0x1000), 0x1000;
            var (mem', r) := MapFrom(mem, cr3, Pml4, cr3, v, phys, []);
            && r == Mapped && TranslatePage(mem', cr3, v) == Ok(phys)
            && Walk(mem', cr3, v) == Some(Frame(0x20_1000)) != Some(phys)
  {
    var mem, cr3, v := MisleadingMemory(), Frame(0x1000), 0x1000 as bv64;
    MisleadingTree();
    MisleadingWalk();
    MapUnder2Mb(mem, cr3, MisleadingRole(), v, Frame(0x20_0000), phys, []);
    MisledBy2Mb(mem, cr3, MisleadingRole(), v, Frame(0x20_0000), phys, []);
    MisleadingLeaf(phys);
    WalkIn2Mb(MapFrom(mem, cr3, Pml4, cr3, v, phys, []).0, cr3, v, Frame(0x20_0000));
  }

  lemma MisleadingLeaf(phys: Frame)
    requires Addressable(phys)
    ensures SetLeaf(MisleadingMemory(), Frame(0x20_0000), 0x1000, phys).1 == Mapped
    ensures In2Mb(Frame(0x20_0000), 0x1000) == Frame(0x20_1000)
  {
    MisleadingEntries(1);
  }

  function MisleadingRole(): map<Frame, seq<Index>> {
    map[Frame(0x1000) := [], Frame(0x2000) := [0], Frame(0x3000) := [0, 0]]
  }

  lemma MisleadingTree()
    ensures Tree(MisleadingMemory(), Frame(0x1000), MisleadingRole()) && Recursive(MisleadingMemory(), Frame(0x1000))
  {
    var mem, role := MisleadingMemory(), MisleadingRole();
    MisleadingEntries(RECURSIVE_INDEX);
    forall f, i | f in role && Inner(role[f], i) && Follow(mem, Some(f), i).Some?
      ensures Follow(mem, Some(f), i).value in role && role[Follow(mem, Some(f), i).value] == role[f] + [i]
    {
      MisleadingEntries(i);
    }
  }

  lemma MisleadingWalk()
    ensures WalkOf(MisleadingMemory(), Frame(0x1000), 0x1000) == Page2Mb(Frame(0x20_0000))
    ensures Entry(MisleadingMemory(), Frame(0x20_0000), 1) == 0
  {
    MisleadingEntries(0);
    MisleadingEntries(1);
  }

  /** The physical memory as the kernel sees it: the PML4 directly, every other table through
      its recursive address. */
  class PageCtrl {
    const pml4: Frame
    var mem: Memory
    ghost var role: map<Frame, seq<Index>>

    ghost predicate Valid()
      reads this
    {
      Tree(mem, pml4, role) && Recursive(mem, pml4)
    }

    /** A page outside the recursive slot and under no large page. */
    ghost predicate Mappable(v: bv64)
      reads this
    {
      IndexOf(Pml4, v) != RECURSIVE_INDEX && Small(WalkOf(mem, pml4, v))
    }

    /** A page outside the recursive slot and under a large page that holds no tables. */
    ghost predicate Covered(v: bv64)
      reads this
    {
      IndexOf(Pml4, v) != RECURSIVE_INDEX && Large(WalkOf(mem, pml4, v)) && DataApart(WalkOf(mem, pml4, v), v, role)
    }

    constructor (mem: Memory, pml4: Frame, ghost role: map<Frame, seq<Index>>)
      ensures this.mem == mem && this.pml4 == pml4 && this.role == role
    {
      this.mem, this.pml4, this.role := mem, pml4, role;
    }

    /** `init_paging`: nothing if the entry that it needs is in use. The tables are then usable
        exactly if that entry had no stale huge bit. */
    static method InitPaging(mem: Memory, pml4: Frame, ghost role: map<Frame, seq<Index>>) returns (ctrl: PageCtrl?)
      requires pml4 in mem && Addressable(pml4)
      ensures ctrl == null <==> Present(Entry(mem, pml4, RECURSIVE_INDEX))
      ensures ctrl != null ==> fresh(ctrl) && ctrl.mem == AddRecursive(mem, pml4) && ctrl.pml4 == pml4 && ctrl.role == role
      ensures ctrl != null && Tree(mem, pml4, role) ==>
                (ctrl.Valid() <==> !Huge(Entry(mem, pml4, RECURSIVE_INDEX))) && SameWalks(mem, ctrl.mem, pml4)
    {
      if Present(Entry(mem, pml4, RECURSIVE_INDEX)) { return null; }
      ctrl := new PageCtrl(AddRecursive(mem, pml4), pml4, role);
      if Tree(mem, pml4, role) { AddRecursiveWorks(mem, pml4, role); }
    }

    method Zero(f: Frame)
      modifies `mem
      ensures mem == Clear(old(mem), f)
    {
      if f !in mem { return; }
      for k := 0 to 512
        invariant f in mem && mem == old(mem)[f := mem[f]]
        invariant forall j | 0 <= j < k :: mem[f][j] == 0
      {
        mem := mem[f := mem[f][k := 0]];
      }
      assert mem[f] == ZeroTable();
    }

    method NextTableMut(l: Level, v: bv64, table: Frame) returns (next: Next)
      modifies `mem
      ensures (mem, next) == NextMut(old(mem), pml4, l, table, v)
    {
      var i := IndexOf(l, v);
      var e := Entry(mem, table, i);
      if !Present(e) { return Missing; }
      WritableKept(mem, table, i);
      if e & WRITABLE == 0 {
        mem := Write(mem, table, i, SetWritable(e));
      }
      var frame := Walk(mem, pml4, TableAddr(Below(l), v));
      next := if frame.None? then Faulted else Table(frame.value);
    }

    /** For every memory and page: the memory and the answer that the source leaves. On the path
        of a page under no large page, no translation changes and the table is the walk's. */
    method CreateNextTable(l: Level, v: bv64, table: Frame, frames: seq<Frame>) returns (r: Created)
      modifies `mem
      ensures (mem, r) == CreateTable(old(mem), pml4, l, table, v, frames)
      ensures old(Valid() && Mappable(v) && l != Pt && TableOf(mem, pml4, l, v) == Some(table) && table in role) &&
              old(Unused(mem, role, frames)) ==>
                SameWalks(old(mem), mem, pml4) && (r.Done? ==> TableOf(mem, pml4, Below(l), v) == Some(r.frame))
    {
      if Valid() && Mappable(v) && l != Pt && TableOf(mem, pml4, l, v) == Some(table) && table in role &&
         Unused(mem, role, frames) {
        CreateSmall(mem, pml4, role, l, table, v, pml4, frames);
      }
      r := CreateRaw(l, v, table, frames);
    }

    method CreateRaw(l: Level, v: bv64, table: Frame, frames: seq<Frame>) returns (r: Created)
      modifies `mem
      ensures (mem, r) == CreateTable(old(mem), pml4, l, table, v, frames)
    {
      var i := IndexOf(l, v);
      var e := Entry(mem, table, i);
      if Present(e) {
        var next := NextTableMut(l, v, table);
        return if next.Table? then Done(next.frame, frames) else Crashed;
      }
      if Huge(e) { return HugeEntry; }
      if frames == [] { return OutOfFrames; }
      if !Addressable(frames[0]) {
        mem := Write(mem, table, i, SetWritable(SetPresent(e)));
        return BadTable;
      }
      mem := Write(mem, table, i, NewEntry(e, frames[0]));
      var next := NextTableMut(l, v, table);
      if !next.Table? { return Crashed; }
      Zero(next.frame);
      r := Done(next.frame, frames[1..]);
    }

    /** Every outcome for every memory and page. For a page under no large page it maps exactly
        that page or says why not; for one under a large page it changes no translation. */
    method MapPage(v: bv64, phys: Frame, frames: seq<Frame>) returns (r: MapResult)
      modifies this
      ensures (mem, r) == MapFrom(old(mem), pml4, Pml4, pml4, v, phys, frames)
      ensures old(Valid() && Mappable(v) && Unused(mem, role, frames)) ==>
                && Valid() && MapsRight(old(mem), mem, pml4, v, phys, r)
                && r == old(Outcome(GapOf(mem, Pml4, pml4, v), |frames|, phys))
                && (r == AlreadyMapped <==> old(WalkOf(mem, pml4, v)).Page4Kb?)
      ensures old(Valid() && Covered(v)) ==> Valid() && SameWalks(old(mem), mem, pml4)
    {
      ghost var role' := role;
      if Valid() && Mappable(v) && Unused(mem, role, frames) {
        role' := MapSmall(mem, pml4, role, Pml4, pml4, v, phys, frames);
        GapMeans(mem, pml4, Pml4, pml4, v);
      } else if Valid() && Covered(v) {
        MapLarge(mem, mem, pml4, role, Pml4, pml4, v, phys, frames);
        RoleSameKeeps(mem, MapFrom(mem, pml4, Pml4, pml4, v, phys, frames).0, pml4, role);
      }
      r := MapRaw(v, phys, frames);
      role := role';
    }

    method MapRaw(v: bv64, phys: Frame, frames: seq<Frame>) returns (r: MapResult)
      modifies `mem
      ensures (mem, r) == MapFrom(old(mem), pml4, Pml4, pml4, v, phys, frames)
    {
      var pdpt := CreateRaw(Pml4, v, pml4, frames);
      if !pdpt.Done? { return Refusal(pdpt); }
      assert MapFrom(old(mem), pml4, Pml4, pml4, v, phys, frames) == MapFrom(mem, pml4, Pdpt, pdpt.frame, v, phys, pdpt.rest);
      var pd := CreateRaw(Pdpt, v, pdpt.frame, pdpt.rest);
      if !pd.Done? { return Refusal(pd); }
      assert MapFrom(old(mem), pml4, Pml4, pml4, v, phys, frames) == MapFrom(mem, pml4, Pd, pd.frame, v, phys, pd.rest);
      var pt := CreateRaw(Pd, v, pd.frame, pd.rest);
      if !pt.Done? { return Refusal(pt); }
      assert MapFrom(old(mem), pml4, Pml4, pml4, v, phys, frames) == SetLeaf(mem, pt.frame, v, phys);
      var i := IndexOf(Pt, v);
      var e := Entry(mem, pt.frame, i);
      if Present(e) { return AlreadyMapped; }
      if Huge(e) { return StaleHugeBit; }
      if !Addressable(phys) { return BadFrame; }
      mem := Write(mem, pt.frame, i, LeafEntry(e, phys));
      r := Mapped;
    }
  }

  /** Setting a bit that is set writes nothing new. */
  lemma WritableKept(mem: Memory, f: Frame, i: Index)
    ensures Entry(mem, f, i) & WRITABLE != 0 ==> Write(mem, f, i, SetWritable(Entry(mem, f, i))) == mem
    ensures Present(Entry(mem, f, i)) ==> Present(Entry(Write(mem, f, i, SetWritable(Entry(mem, f, i))), f, i))
  {
    var e := Entry(mem, f, i);
    if e & WRITABLE != 0 { WritableTwice(e); }
    WritableBits(e);
    if f in mem {
      UpdateSame(mem, f, i);
      EntryUpdate(mem, f, i, SetWritable(e), f, i);
    }
  }
}
