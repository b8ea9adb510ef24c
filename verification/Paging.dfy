/** The 4-level page tables of hal-x86_64/src/mm.rs, reached through a recursive PML4 entry.
    The reference is the 4-level walk of section 4.5 of the Intel SDM, volume 3A; physical
    memory maps a frame address to 512 entries and the TLB is taken to be coherent. */
module Paging {
  import opened Wrappers

  type Index = bv9
  type Table = t: seq<bv64> | |t| == 512 witness seq(512, _ => 0)

  /** A physical 4K frame, by its address. */
  datatype Frame = Frame(addr: bv64)

  type Memory = map<Frame, Table>

  const PRESENT: bv64 := 0x1
  const WRITABLE: bv64 := 0x2
  const HUGE: bv64 := 0x80
  const ADDR_MASK: bv64 := 0x000f_ffff_ffff_f000
  const SIGN: bv64 := 0xffff_0000_0000_0000
  const RECURSIVE: bv64 := 0x1ff
  const RECURSIVE_INDEX: Index := 0x1ff

  datatype Level = Pml4 | Pdpt | Pd | Pt

  // ---- Entries ----

  predicate Present(e: bv64) { e & PRESENT != 0 }

  predicate Huge(e: bv64) { e & HUGE != 0 }

  function PhysAddr(e: bv64): Frame { Frame(e & ADDR_MASK) }

  function SetPresent(e: bv64): bv64 { e | PRESENT }

  function SetWritable(e: bv64): bv64 { e | WRITABLE }

  /** `set_phys_addr` asserts that the address has no other bits than those of the mask. */
  predicate Addressable(f: Frame) { f.addr & !ADDR_MASK == 0 }

  function SetPhysAddr(e: bv64, f: Frame): bv64 { (e & !ADDR_MASK) | f.addr }

  function Get(t: Table, i: Index): bv64 {
    t[i as int]
  }

  function Set(t: Table, i: Index, e: bv64): Table {
    t[i as int := e]
  }

  lemma IndexInjective(i: Index, j: Index)
    requires i as int == j as int
    ensures i == j
  {
  }

  lemma GetSet(t: Table, i: Index, e: bv64, j: Index)
    ensures Get(Set(t, i, e), j) == if i == j then e else Get(t, j)
  {
    if i as int == j as int { IndexInjective(i, j); }
  }

  // ---- Addresses ----

  /** `index_of`, as the machine word the source computes. */
  function WideIndex(l: Level, v: bv64): (i: bv64)
    ensures i <= RECURSIVE
  {
    match l
    case Pml4 => (v >> 39) & RECURSIVE
    case Pdpt => (v >> 30) & RECURSIVE
    case Pd => (v >> 21) & RECURSIVE
    case Pt => (v >> 12) & RECURSIVE
  }

  function IndexOf(l: Level, v: bv64): Index {
    WideIndex(l, v) as bv9
  }

  function TableAddr(l: Level, v: bv64): bv64 {
    match l
    case Pml4 =>
      SIGN | (RECURSIVE << 39) | (RECURSIVE << 30) | (RECURSIVE << 21) | (RECURSIVE << 12)
    case Pdpt =>
      SIGN | (RECURSIVE << 39) | (RECURSIVE << 30) | (RECURSIVE << 21) | (WideIndex(Pml4, v) << 12)
    case Pd =>
      SIGN | (RECURSIVE << 39) | (RECURSIVE << 30) | (WideIndex(Pml4, v) << 21) | (WideIndex(Pdpt, v) << 12)
    case Pt =>
      SIGN | (RECURSIVE << 39) | (WideIndex(Pml4, v) << 30) | (WideIndex(Pdpt, v) << 21) | (WideIndex(Pd, v) << 12)
  }

  /** Bits 63 to 48 repeat bit 47. */
  predicate Canonical(v: bv64) {
    v & 0xffff_8000_0000_0000 == 0 || v & 0xffff_8000_0000_0000 == 0xffff_8000_0000_0000
  }

  predicate PageAligned(v: bv64) { v & 0xfff == 0 }

  lemma TableAddrWellFormed(l: Level, v: bv64)
    ensures Canonical(TableAddr(l, v)) && PageAligned(TableAddr(l, v))
  {
  }

  /** The address of a table is the page's own path, shifted down by recursive indices. */
  lemma PtAddrIndices(v: bv64)
    ensures IndexOf(Pml4, TableAddr(Pt, v)) == RECURSIVE_INDEX
    ensures IndexOf(Pdpt, TableAddr(Pt, v)) == IndexOf(Pml4, v)
    ensures IndexOf(Pd, TableAddr(Pt, v)) == IndexOf(Pdpt, v)
    ensures IndexOf(Pt, TableAddr(Pt, v)) == IndexOf(Pd, v)
  {
  }

  lemma PdAddrIndices(v: bv64)
    ensures IndexOf(Pml4, TableAddr(Pd, v)) == RECURSIVE_INDEX
    ensures IndexOf(Pdpt, TableAddr(Pd, v)) == RECURSIVE_INDEX
    ensures IndexOf(Pd, TableAddr(Pd, v)) == IndexOf(Pml4, v)
    ensures IndexOf(Pt, TableAddr(Pd, v)) == IndexOf(Pdpt, v)
  {
  }

  lemma PdptAddrIndices(v: bv64)
    ensures IndexOf(Pml4, TableAddr(Pdpt, v)) == RECURSIVE_INDEX
    ensures IndexOf(Pdpt, TableAddr(Pdpt, v)) == RECURSIVE_INDEX
    ensures IndexOf(Pd, TableAddr(Pdpt, v)) == RECURSIVE_INDEX
    ensures IndexOf(Pt, TableAddr(Pdpt, v)) == IndexOf(Pml4, v)
  {
  }

  lemma Pml4AddrIndices(v: bv64)
    ensures forall l: Level :: IndexOf(l, TableAddr(Pml4, v)) == RECURSIVE_INDEX
  {
  }

  predicate SamePath(v: bv64, w: bv64) {
    forall l: Level :: IndexOf(l, v) == IndexOf(l, w)
  }

  /** Two canonical page addresses with the same four indices are the same page. */
  lemma PathInjective(v: bv64, w: bv64)
    requires Canonical(v) && Canonical(w) && PageAligned(v) && PageAligned(w) && SamePath(v, w)
    ensures v == w
  {
    assert IndexOf(Pml4, v) == IndexOf(Pml4, w) && IndexOf(Pdpt, v) == IndexOf(Pdpt, w);
    assert IndexOf(Pd, v) == IndexOf(Pd, w) && IndexOf(Pt, v) == IndexOf(Pt, w);
  }

  // ---- The hardware walk ----

  function Entry(mem: Memory, frame: Frame, i: Index): bv64 {
    if frame in mem then Get(mem[frame], i) else 0
  }

  /** What a walk ends on: nothing, a large page, or a 4K page whose entry has bit 7
      (the PAT bit, which the source reads as "huge") set or not. `Reserved` is the fault for
      a PML4 entry with bit 7 set. */
  datatype Leaf = Fault | Reserved | Page1Gb(base: Frame) | Page2Mb(base: Frame) | Page4Kb(base: Frame, pat: bool)

  function WalkPath(mem: Memory, cr3: Frame, i4: Index, i3: Index, i2: Index, i1: Index): Leaf {
    var e4 := Entry(mem, cr3, i4);
    if !Present(e4) then Fault else if Huge(e4) then Reserved else
    var e3 := Entry(mem, PhysAddr(e4), i3);
    if !Present(e3) then Fault else if Huge(e3) then Page1Gb(PhysAddr(e3)) else
    var e2 := Entry(mem, PhysAddr(e3), i2);
    if !Present(e2) then Fault else if Huge(e2) then Page2Mb(PhysAddr(e2)) else
    Last(Entry(mem, PhysAddr(e2), i1))
  }

  function Last(e: bv64): Leaf {
    if !Present(e) then Fault else Page4Kb(PhysAddr(e), Huge(e))
  }

  function WalkOf(mem: Memory, cr3: Frame, v: bv64): Leaf {
    WalkPath(mem, cr3, IndexOf(Pml4, v), IndexOf(Pdpt, v), IndexOf(Pd, v), IndexOf(Pt, v))
  }

  function In2Mb(base: Frame, v: bv64): Frame {
    Frame((base.addr & !0x1f_ffff) | (v & 0x1f_f000))
  }

  /** The physical 4K frame that holds page `v`, if the walk does not fault. */
  function Translate(leaf: Leaf, v: bv64): Option<Frame> {
    match leaf
    case Fault => None
    case Reserved => None
    case Page1Gb(base) => Some(Frame((base.addr & !0x3fff_ffff) | (v & 0x3fff_f000)))
    case Page2Mb(base) => Some(In2Mb(base, v))
    case Page4Kb(base, _) => Some(base)
  }

  function Walk(mem: Memory, cr3: Frame, v: bv64): Option<Frame> {
    Translate(WalkOf(mem, cr3, v), v)
  }

  function Follow(mem: Memory, frame: Option<Frame>, i: Index): Option<Frame> {
    if frame.None? then None else
      var e := Entry(mem, frame.value, i);
      if Present(e) && !Huge(e) then Some(PhysAddr(e)) else None
  }

  /** The table a direct walk reaches by a list of indices, from the PML4 down. */
  function TableAt(mem: Memory, cr3: Frame, path: seq<Index>): Option<Frame> {
    if path == [] then Some(cr3)
    else Follow(mem, TableAt(mem, cr3, path[..|path| - 1]), path[|path| - 1])
  }

  function PathTo(l: Level, v: bv64): seq<Index> {
    match l
    case Pml4 => []
    case Pdpt => [IndexOf(Pml4, v)]
    case Pd => [IndexOf(Pml4, v), IndexOf(Pdpt, v)]
    case Pt => [IndexOf(Pml4, v), IndexOf(Pdpt, v), IndexOf(Pd, v)]
  }

  /** The frame of the table that a direct walk for `v` uses at level `l`. */
  function TableOf(mem: Memory, cr3: Frame, l: Level, v: bv64): Option<Frame> {
    TableAt(mem, cr3, PathTo(l, v))
  }

  /** PML4 entry 511 points back at the PML4. */
  predicate Recursive(mem: Memory, cr3: Frame) {
    var e := Entry(mem, cr3, RECURSIVE_INDEX);
    Present(e) && !Huge(e) && PhysAddr(e) == cr3
  }

  lemma TableAtSteps(mem: Memory, cr3: Frame, i4: Index, i3: Index, i2: Index)
    ensures TableAt(mem, cr3, []) == Some(cr3)
    ensures TableAt(mem, cr3, [i4]) == Follow(mem, Some(cr3), i4)
    ensures TableAt(mem, cr3, [i4, i3]) == Follow(mem, TableAt(mem, cr3, [i4]), i3)
    ensures TableAt(mem, cr3, [i4, i3, i2]) == Follow(mem, TableAt(mem, cr3, [i4, i3]), i2)
  {
    assert [i4][..0] == [] && [i4, i3][..1] == [i4] && [i4, i3, i2][..2] == [i4, i3];
  }

  /** A walk that starts with recursive indices ends one level early for each of them. */
  lemma RecursivePath(mem: Memory, cr3: Frame, i4: Index, i3: Index, i2: Index)
    requires Recursive(mem, cr3)
    ensures var r := RECURSIVE_INDEX;
            && WalkPath(mem, cr3, r, r, r, r) == Last(Entry(mem, cr3, r))
            && (TableAt(mem, cr3, [i4]).Some? ==> WalkPath(mem, cr3, r, r, r, i4) == Last(Entry(mem, cr3, i4)))
            && (TableAt(mem, cr3, [i4]).Some? && TableAt(mem, cr3, [i4, i3]).Some? ==>
                  WalkPath(mem, cr3, r, r, i4, i3) == Last(Entry(mem, TableAt(mem, cr3, [i4]).value, i3)))
            && (TableAt(mem, cr3, [i4, i3]).Some? && TableAt(mem, cr3, [i4, i3, i2]).Some? ==>
                  WalkPath(mem, cr3, r, i4, i3, i2) == Last(Entry(mem, TableAt(mem, cr3, [i4, i3]).value, i2)))
  {
    TableAtSteps(mem, cr3, i4, i3, i2);
  }

  /** The address computed by `table_addr` is right: through the recursive entry the
      hardware finds the very table the direct walk for `v` uses at that level. */
  lemma RecursiveWalk(mem: Memory, cr3: Frame, l: Level, v: bv64)
    requires Recursive(mem, cr3) && TableOf(mem, cr3, l, v).Some?
    ensures Walk(mem, cr3, TableAddr(l, v)) == TableOf(mem, cr3, l, v)
  {
    var i4, i3, i2 := IndexOf(Pml4, v), IndexOf(Pdpt, v), IndexOf(Pd, v);
    RecursivePath(mem, cr3, i4, i3, i2);
    TableAtSteps(mem, cr3, i4, i3, i2);
    match l
    case Pml4 => Pml4AddrIndices(v);
    case Pdpt => PdptAddrIndices(v);
    case Pd => PdAddrIndices(v);
    case Pt => PtAddrIndices(v);
  }

  // ---- The tree of tables ----

  /** `role` names every table by the indices that lead to it from the PML4. As a frame has
      one name, no table is shared between two entries. */
  ghost predicate Tree(mem: Memory, cr3: Frame, role: map<Frame, seq<Index>>) {
    && cr3 in role && role[cr3] == []
    && (forall f | f in role :: f in mem && |role[f]| <= 3)
    && (forall f, i | f in role && Inner(role[f], i) && Follow(mem, Some(f), i).Some? ::
          Follow(mem, Some(f), i).value in role && role[Follow(mem, Some(f), i).value] == role[f] + [i])
  }

  /** An entry that leads to another table, other than the recursive one. */
  predicate Inner(path: seq<Index>, i: Index) {
    |path| < 3 && !(path == [] && i == RECURSIVE_INDEX)
  }

  lemma {:induction false} TableRole(mem: Memory, cr3: Frame, role: map<Frame, seq<Index>>, path: seq<Index>)
    requires Tree(mem, cr3, role) && |path| <= 3 && (path == [] || path[0] != RECURSIVE_INDEX)
    ensures TableAt(mem, cr3, path).Some? ==>
              TableAt(mem, cr3, path).value in role && role[TableAt(mem, cr3, path).value] == path
  {
    if path != [] {
      var up, i := path[..|path| - 1], path[|path| - 1];
      TableRole(mem, cr3, role, up);
      assert path == up + [i];
      if TableAt(mem, cr3, path).Some? { assert Inner(up, i); }
    }
  }

  function Update(mem: Memory, f: Frame, i: Index, e: bv64): Memory
    requires f in mem
  {
    mem[f := Set(mem[f], i, e)]
  }

  lemma EntryUpdate(mem: Memory, f: Frame, i: Index, e: bv64, g: Frame, j: Index)
    requires f in mem
    ensures Entry(Update(mem, f, i, e), g, j) == if g == f && j == i then e else Entry(mem, g, j)
  {
    GetSet(mem[f], i, e, j);
  }

  /** What a walk can tell about an entry. */
  predicate SameEntry(e: bv64, e': bv64) {
    Present(e) == Present(e') && Huge(e) == Huge(e') && PhysAddr(e) == PhysAddr(e')
  }

  predicate SameAt(mem: Memory, mem': Memory, f: Option<Frame>, i: Index) {
    f.Some? ==> SameEntry(Entry(mem, f.value, i), Entry(mem', f.value, i))
  }

  /** If the entries on the path of a page look the same, the walk ends the same. */
  lemma WalkSame(mem: Memory, mem': Memory, cr3: Frame, i4: Index, i3: Index, i2: Index, i1: Index)
    requires SameAt(mem, mem', Some(cr3), i4) && SameAt(mem, mem', TableAt(mem, cr3, [i4]), i3)
    requires SameAt(mem, mem', TableAt(mem, cr3, [i4, i3]), i2)
    requires SameAt(mem, mem', TableAt(mem, cr3, [i4, i3, i2]), i1)
    ensures WalkPath(mem', cr3, i4, i3, i2, i1) == WalkPath(mem, cr3, i4, i3, i2, i1)
  {
    TableAtSteps(mem, cr3, i4, i3, i2);
  }

  // ---- Linking a fresh, zeroed table ----

  function ZeroTable(): (t: Table)
    ensures forall k | 0 <= k < 512 :: t[k] == 0
  {
    seq(512, (k: int) => 0 as bv64)
  }

  /** The entry `create_next_table` writes over a free one. */
  function NewEntry(e: bv64, f: Frame): bv64 {
    SetPhysAddr(SetWritable(SetPresent(e)), f)
  }

  lemma NewEntryBits(e: bv64, f: Frame)
    requires Addressable(f)
    ensures Present(NewEntry(e, f)) && Huge(NewEntry(e, f)) == Huge(e) && PhysAddr(NewEntry(e, f)) == f
  {
  }

  lemma NewEntryWritable(e: bv64, f: Frame)
    requires Addressable(f)
    ensures NewEntry(e, f) & WRITABLE != 0
  {
  }

  /** The entry points at the new frame, which holds `t`. */
  function Link(mem: Memory, f: Frame, i: Index, nf: Frame, t: Table): Memory
    requires f in mem
  {
    Update(mem, f, i, NewEntry(Entry(mem, f, i), nf))[nf := t]
  }

  lemma LinkEntry(mem: Memory, f: Frame, i: Index, nf: Frame, t: Table, g: Frame, j: Index)
    requires f in mem && nf != f
    ensures Entry(Link(mem, f, i, nf, t), g, j) ==
            if g == nf then Get(t, j) else if g == f && j == i then NewEntry(Entry(mem, f, i), nf) else Entry(mem, g, j)
  {
    EntryUpdate(mem, f, i, NewEntry(Entry(mem, f, i), nf), g, j);
  }

  /** A free entry of an inner table, and a frame that is no table yet. */
  ghost predicate CanLink(mem: Memory, cr3: Frame, role: map<Frame, seq<Index>>, f: Frame, i: Index, nf: Frame) {
    && Tree(mem, cr3, role) && f in role && Inner(role[f], i)
    && !Present(Entry(mem, f, i)) && !Huge(Entry(mem, f, i))
    && nf !in role && Addressable(nf)
  }

  lemma LinkKeepsTree(mem: Memory, cr3: Frame, role: map<Frame, seq<Index>>, f: Frame, i: Index, nf: Frame)
    requires CanLink(mem, cr3, role, f, i, nf)
    ensures Tree(Link(mem, f, i, nf, ZeroTable()), cr3, role[nf := role[f] + [i]])
  {
    var mem', role' := Link(mem, f, i, nf, ZeroTable()), role[nf := role[f] + [i]];
    NewEntryBits(Entry(mem, f, i), nf);
    forall g, j | g in role' && Inner(role'[g], j) && Follow(mem', Some(g), j).Some?
      ensures Follow(mem', Some(g), j).value in role' && role'[Follow(mem', Some(g), j).value] == role'[g] + [j]
    {
      LinkEntry(mem, f, i, nf, ZeroTable(), g, j);
    }
  }

  lemma LinkKeepsRecursive(mem: Memory, cr3: Frame, role: map<Frame, seq<Index>>, f: Frame, i: Index, nf: Frame, t: Table)
    requires CanLink(mem, cr3, role, f, i, nf) && Recursive(mem, cr3)
    ensures Recursive(Link(mem, f, i, nf, t), cr3)
  {
    LinkEntry(mem, f, i, nf, t, cr3, RECURSIVE_INDEX);
  }

  /** Tables on the way to a table with a shorter name are where they were. */
  lemma {:induction false} LinkKeepsTables(mem: Memory, cr3: Frame, role: map<Frame, seq<Index>>, f: Frame, i: Index,
                                           nf: Frame, t: Table, path: seq<Index>)
    requires CanLink(mem, cr3, role, f, i, nf) && (path == [] || path[0] != RECURSIVE_INDEX)
    requires |path| <= |role[f]|
    ensures TableAt(Link(mem, f, i, nf, t), cr3, path) == TableAt(mem, cr3, path)
  {
    if path != [] {
      var up, j := path[..|path| - 1], path[|path| - 1];
      LinkKeepsTables(mem, cr3, role, f, i, nf, t, up);
      TableRole(mem, cr3, role, up);
      var up' := TableAt(mem, cr3, up);
      if up'.Some? { LinkEntry(mem, f, i, nf, t, up'.value, j); }
    }
  }

  lemma LinkReached(mem: Memory, cr3: Frame, role: map<Frame, seq<Index>>, f: Frame, i: Index, nf: Frame, t: Table)
    requires CanLink(mem, cr3, role, f, i, nf) && TableAt(mem, cr3, role[f]) == Some(f)
    requires role[f] == [] || role[f][0] != RECURSIVE_INDEX
    ensures TableAt(Link(mem, f, i, nf, t), cr3, role[f] + [i]) == Some(nf)
  {
    NewEntryBits(Entry(mem, f, i), nf);
    LinkKeepsTables(mem, cr3, role, f, i, nf, t, role[f]);
    LinkEntry(mem, f, i, nf, t, f, i);
    assert (role[f] + [i])[..|role[f]|] == role[f];
  }

  /** Not present anywhere on the way: the walk faults. */
  lemma FaultBelow(mem: Memory, cr3: Frame, i4: Index, i3: Index, i2: Index, i1: Index)
    requires
      || !Present(Entry(mem, cr3, i4))
      || (TableAt(mem, cr3, [i4]).Some? && !Present(Entry(mem, TableAt(mem, cr3, [i4]).value, i3)))
      || (TableAt(mem, cr3, [i4, i3]).Some? && !Present(Entry(mem, TableAt(mem, cr3, [i4, i3]).value, i2)))
      || (TableAt(mem, cr3, [i4, i3, i2]).Some? && !Present(Entry(mem, TableAt(mem, cr3, [i4, i3, i2]).value, i1)))
    ensures WalkPath(mem, cr3, i4, i3, i2, i1) == Fault
  {
    TableAtSteps(mem, cr3, i4, i3, i2);
  }

  lemma LinkOffPath(mem: Memory, cr3: Frame, role: map<Frame, seq<Index>>, f: Frame, i: Index, nf: Frame,
                    i4: Index, i3: Index, i2: Index, i1: Index)
    requires CanLink(mem, cr3, role, f, i, nf) && i4 != RECURSIVE_INDEX
    requires !(f == cr3 && i == i4) && !(TableAt(mem, cr3, [i4]) == Some(f) && i == i3)
    requires !(TableAt(mem, cr3, [i4, i3]) == Some(f) && i == i2)
    ensures WalkPath(Link(mem, f, i, nf, ZeroTable()), cr3, i4, i3, i2, i1) == WalkPath(mem, cr3, i4, i3, i2, i1)
  {
    TableRole(mem, cr3, role, [i4]);
    TableRole(mem, cr3, role, [i4, i3]);
    TableRole(mem, cr3, role, [i4, i3, i2]);
    LinkEntry(mem, f, i, nf, ZeroTable(), cr3, i4);
    var t3, t2, t1 := TableAt(mem, cr3, [i4]), TableAt(mem, cr3, [i4, i3]), TableAt(mem, cr3, [i4, i3, i2]);
    if t3.Some? { LinkEntry(mem, f, i, nf, ZeroTable(), t3.value, i3); }
    if t2.Some? { LinkEntry(mem, f, i, nf, ZeroTable(), t2.value, i2); }
    if t1.Some? { LinkEntry(mem, f, i, nf, ZeroTable(), t1.value, i1); }
    WalkSame(mem, Link(mem, f, i, nf, ZeroTable()), cr3, i4, i3, i2, i1);
  }

  lemma ZeroEntry(j: Index)
    ensures !Present(Get(ZeroTable(), j)) && !Huge(Get(ZeroTable(), j))
  {
  }

  /** The page's path goes through the new table, where nothing is present. */
  lemma LinkOnPath(mem: Memory, cr3: Frame, role: map<Frame, seq<Index>>, f: Frame, i: Index, nf: Frame,
                   path: seq<Index>, j: Index)
    requires CanLink(mem, cr3, role, f, i, nf) && TableAt(mem, cr3, role[f]) == Some(f)
    requires path == role[f] + [i] && path[0] != RECURSIVE_INDEX
    ensures var mem' := Link(mem, f, i, nf, ZeroTable());
            TableAt(mem', cr3, path) == Some(nf) && !Present(Entry(mem', nf, j))
  {
    LinkReached(mem, cr3, role, f, i, nf, ZeroTable());
    LinkEntry(mem, f, i, nf, ZeroTable(), nf, j);
    ZeroEntry(j);
  }

  lemma LinkUnmapped(mem: Memory, cr3: Frame, role: map<Frame, seq<Index>>, f: Frame, i: Index, nf: Frame,
                     i4: Index, i3: Index, i2: Index, i1: Index)
    requires CanLink(mem, cr3, role, f, i, nf) && i4 != RECURSIVE_INDEX
    requires (f == cr3 && i == i4) || (TableAt(mem, cr3, [i4]) == Some(f) && i == i3)
          || (TableAt(mem, cr3, [i4, i3]) == Some(f) && i == i2)
    ensures WalkPath(Link(mem, f, i, nf, ZeroTable()), cr3, i4, i3, i2, i1) == Fault
  {
    TableRole(mem, cr3, role, [i4]);
    TableRole(mem, cr3, role, [i4, i3]);
    if f == cr3 && i == i4 {
      LinkOnPath(mem, cr3, role, f, i, nf, [i4], i3);
    } else if TableAt(mem, cr3, [i4]) == Some(f) && i == i3 {
      LinkOnPath(mem, cr3, role, f, i, nf, [i4, i3], i2);
    } else {
      LinkOnPath(mem, cr3, role, f, i, nf, [i4, i3, i2], i1);
    }
    FaultBelow(Link(mem, f, i, nf, ZeroTable()), cr3, i4, i3, i2, i1);
  }

  /** The link is invisible to every page: what was not mapped is still not mapped. */
  lemma LinkKeepsWalk(mem: Memory, cr3: Frame, role: map<Frame, seq<Index>>, f: Frame, i: Index, nf: Frame,
                      i4: Index, i3: Index, i2: Index, i1: Index)
    requires CanLink(mem, cr3, role, f, i, nf) && i4 != RECURSIVE_INDEX
    ensures WalkPath(Link(mem, f, i, nf, ZeroTable()), cr3, i4, i3, i2, i1) == WalkPath(mem, cr3, i4, i3, i2, i1)
  {
    if (f == cr3 && i == i4) || (TableAt(mem, cr3, [i4]) == Some(f) && i == i3)
       || (TableAt(mem, cr3, [i4, i3]) == Some(f) && i == i2) {
      LinkUnmapped(mem, cr3, role, f, i, nf, i4, i3, i2, i1);
      FaultBelow(mem, cr3, i4, i3, i2, i1);
    } else {
      LinkOffPath(mem, cr3, role, f, i, nf, i4, i3, i2, i1);
    }
  }

  // ---- Writes that leave the tree of tables alone ----

  /** Every entry that leads to a table looks the same in both memories. */
  ghost predicate InnerSame(mem: Memory, mem': Memory, role: map<Frame, seq<Index>>) {
    && (forall g | g in role :: g in mem')
    && forall g, j | g in role && Inner(role[g], j) :: SameEntry(Entry(mem, g, j), Entry(mem', g, j))
  }

  lemma InnerSameTree(mem: Memory, mem': Memory, cr3: Frame, role: map<Frame, seq<Index>>)
    requires Tree(mem, cr3, role) && InnerSame(mem, mem', role)
    ensures Tree(mem', cr3, role)
  {
  }

  lemma {:induction false} InnerSameTables(mem: Memory, mem': Memory, cr3: Frame, role: map<Frame, seq<Index>>,
                                           path: seq<Index>)
    requires Tree(mem, cr3, role) && InnerSame(mem, mem', role)
    requires |path| <= 3 && (path == [] || path[0] != RECURSIVE_INDEX)
    ensures TableAt(mem', cr3, path) == TableAt(mem, cr3, path)
  {
    if path != [] {
      var up, j := path[..|path| - 1], path[|path| - 1];
      InnerSameTables(mem, mem', cr3, role, up);
      TableRole(mem, cr3, role, up);
      var t := TableAt(mem, cr3, up);
      if t.Some? { assert SameEntry(Entry(mem, t.value, j), Entry(mem', t.value, j)); }
    }
  }

  lemma InnerSameWalk(mem: Memory, mem': Memory, cr3: Frame, role: map<Frame, seq<Index>>,
                      i4: Index, i3: Index, i2: Index, i1: Index)
    requires Tree(mem, cr3, role) && InnerSame(mem, mem', role) && i4 != RECURSIVE_INDEX
    requires SameAt(mem, mem', TableAt(mem, cr3, [i4, i3, i2]), i1)
    ensures WalkPath(mem', cr3, i4, i3, i2, i1) == WalkPath(mem, cr3, i4, i3, i2, i1)
  {
    TableRole(mem, cr3, role, [i4]);
    TableRole(mem, cr3, role, [i4, i3]);
    assert SameEntry(Entry(mem, cr3, i4), Entry(mem', cr3, i4));
    var t3, t2 := TableAt(mem, cr3, [i4]), TableAt(mem, cr3, [i4, i3]);
    if t3.Some? { assert SameEntry(Entry(mem, t3.value, i3), Entry(mem', t3.value, i3)); }
    if t2.Some? { assert SameEntry(Entry(mem, t2.value, i2), Entry(mem', t2.value, i2)); }
    WalkSame(mem, mem', cr3, i4, i3, i2, i1);
  }

  lemma WritableFlags(e: bv64)
    ensures (e | WRITABLE) & PRESENT == e & PRESENT && (e | WRITABLE) & HUGE == e & HUGE
  {
  }

  lemma WritableAddr(e: bv64)
    ensures (e | WRITABLE) & ADDR_MASK == e & ADDR_MASK
  {
  }

  lemma WritableBits(e: bv64)
    ensures SameEntry(e, SetWritable(e))
  {
    WritableFlags(e);
    WritableAddr(e);
  }

  /** The entry `map_page` writes over a free one. */
  function LeafEntry(e: bv64, phys: Frame): bv64 {
    SetPresent(SetPhysAddr(e, phys))
  }

  lemma LeafEntryBits(e: bv64, phys: Frame)
    requires Addressable(phys)
    ensures Present(LeafEntry(e, phys)) && Huge(LeafEntry(e, phys)) == Huge(e) && PhysAddr(LeafEntry(e, phys)) == phys
  {
  }

  /** Making an entry writable changes no translation. */
  lemma WritableKeeps(mem: Memory, cr3: Frame, role: map<Frame, seq<Index>>, f: Frame, i: Index)
    requires Tree(mem, cr3, role) && Recursive(mem, cr3) && f in role
    ensures var mem' := Update(mem, f, i, SetWritable(Entry(mem, f, i)));
            && InnerSame(mem, mem', role) && Tree(mem', cr3, role) && Recursive(mem', cr3)
            && forall g, j :: SameEntry(Entry(mem, g, j), Entry(mem', g, j))
  {
    var mem' := Update(mem, f, i, SetWritable(Entry(mem, f, i)));
    WritableBits(Entry(mem, f, i));
    forall g, j ensures SameEntry(Entry(mem, g, j), Entry(mem', g, j)) {
      EntryUpdate(mem, f, i, SetWritable(Entry(mem, f, i)), g, j);
    }
    InnerSameTree(mem, mem', cr3, role);
  }

  /** Writing entry `i` of a last-level table touches no inner entry. */
  lemma LeafKeeps(mem: Memory, cr3: Frame, role: map<Frame, seq<Index>>, f: Frame, i: Index, e: bv64)
    requires Tree(mem, cr3, role) && Recursive(mem, cr3) && f in role && |role[f]| == 3
    ensures var mem' := Update(mem, f, i, e);
            InnerSame(mem, mem', role) && Tree(mem', cr3, role) && Recursive(mem', cr3)
  {
    var mem' := Update(mem, f, i, e);
    forall g, j | g in role && Inner(role[g], j) ensures SameEntry(Entry(mem, g, j), Entry(mem', g, j)) {
      EntryUpdate(mem, f, i, e, g, j);
    }
    EntryUpdate(mem, f, i, e, cr3, RECURSIVE_INDEX);
    InnerSameTree(mem, mem', cr3, role);
  }

  /** Every page but the one named by the table and the entry translates as before. */
  lemma LeafOthers(mem: Memory, cr3: Frame, role: map<Frame, seq<Index>>, f: Frame, i: Index, e: bv64, w: bv64)
    requires Tree(mem, cr3, role) && Recursive(mem, cr3) && f in role && |role[f]| == 3
    requires IndexOf(Pml4, w) != RECURSIVE_INDEX
    requires role[f] != PathTo(Pt, w) || i != IndexOf(Pt, w)
    ensures WalkOf(Update(mem, f, i, e), cr3, w) == WalkOf(mem, cr3, w)
  {
    var i4, i3, i2, i1 := IndexOf(Pml4, w), IndexOf(Pdpt, w), IndexOf(Pd, w), IndexOf(Pt, w);
    LeafKeeps(mem, cr3, role, f, i, e);
    TableRole(mem, cr3, role, [i4, i3, i2]);
    var t := TableAt(mem, cr3, [i4, i3, i2]);
    if t.Some? { EntryUpdate(mem, f, i, e, t.value, i1); }
    InnerSameWalk(mem, Update(mem, f, i, e), cr3, role, i4, i3, i2, i1);
  }

  /** And that page is mapped to the frame in the entry. */
  lemma LeafMapped(mem: Memory, cr3: Frame, role: map<Frame, seq<Index>>, f: Frame, v: bv64, e: bv64)
    requires Tree(mem, cr3, role) && Recursive(mem, cr3) && f in role && |role[f]| == 3
    requires IndexOf(Pml4, v) != RECURSIVE_INDEX && TableOf(mem, cr3, Pt, v) == Some(f)
    ensures WalkOf(Update(mem, f, IndexOf(Pt, v), e), cr3, v) == Last(e)
  {
    var i4, i3, i2, i1 := IndexOf(Pml4, v), IndexOf(Pdpt, v), IndexOf(Pd, v), IndexOf(Pt, v);
    var mem' := Update(mem, f, i1, e);
    LeafKeeps(mem, cr3, role, f, i1, e);
    InnerSameTables(mem, mem', cr3, role, [i4, i3, i2]);
    EntryUpdate(mem, f, i1, e, f, i1);
    WalkLast(mem', cr3, i4, i3, i2, i1);
  }

  lemma WalkLast(mem: Memory, cr3: Frame, i4: Index, i3: Index, i2: Index, i1: Index)
    requires TableAt(mem, cr3, [i4, i3, i2]).Some?
    ensures WalkPath(mem, cr3, i4, i3, i2, i1) == Last(Entry(mem, TableAt(mem, cr3, [i4, i3, i2]).value, i1))
  {
    TableAtSteps(mem, cr3, i4, i3, i2);
    assert TableAt(mem, cr3, [i4, i3]).Some? && TableAt(mem, cr3, [i4]).Some?;
  }

  // ---- Software translation ----

  datatype Translation = Ok(frame: Frame) | NotMapped | WrongSize | PageFault

  /** `next_table`: no table, or a pointer that the hardware resolves to a frame, if it can. */
  datatype Next = Missing | Faulted | Table(frame: Frame)

  function Below(l: Level): Level {
    match l
    case Pml4 => Pdpt
    case Pdpt => Pd
    case _ => Pt
  }

  function NextTable(mem: Memory, cr3: Frame, l: Level, table: Frame, v: bv64): Next {
    if !Present(Entry(mem, table, IndexOf(l, v))) then Missing else
      var next := Walk(mem, cr3, TableAddr(Below(l), v));
      if next.None? then Faulted else Table(next.value)
  }

  /** `phys_page` of an entry of a last-level table. */
  function PhysPage(e: bv64): Translation {
    if !Present(e) then NotMapped else if Huge(e) then WrongSize else Ok(PhysAddr(e))
  }

  function Height(l: Level): nat {
    match l
    case Pml4 => 3
    case Pdpt => 2
    case Pd => 1
    case Pt => 0
  }

  /** `translate_page` of one table for a 4K page; the next is read through its `table_addr`. */
  function TranslateFrom(mem: Memory, cr3: Frame, l: Level, table: Frame, v: bv64): Translation
    decreases Height(l)
  {
    if l == Pt then PhysPage(Entry(mem, table, IndexOf(Pt, v))) else
      match NextTable(mem, cr3, l, table, v)
      case Missing => NotMapped
      case Faulted => PageFault
      case Table(next) => TranslateFrom(mem, cr3, Below(l), next, v)
  }

  function TranslatePage(mem: Memory, cr3: Frame, v: bv64): Translation {
    TranslateFrom(mem, cr3, Pml4, cr3, v)
  }

  /** No large page covers it. */
  predicate Small(leaf: Leaf) {
    leaf.Fault? || leaf.Page4Kb?
  }

  /** On a path of tables `next_table` follows the direct walk. */
  lemma NextTableRight(mem: Memory, cr3: Frame, l: Level, v: bv64)
    requires Recursive(mem, cr3) && l != Pt && Small(WalkOf(mem, cr3, v)) && TableOf(mem, cr3, l, v).Some?
    ensures var table, below := TableOf(mem, cr3, l, v).value, TableOf(mem, cr3, Below(l), v);
            && NextTable(mem, cr3, l, table, v) == (if below.Some? then Table(below.value) else Missing)
            && (below.Some? <==> Present(Entry(mem, table, IndexOf(l, v))))
  {
    TableAtSteps(mem, cr3, IndexOf(Pml4, v), IndexOf(Pdpt, v), IndexOf(Pd, v));
    if TableOf(mem, cr3, Below(l), v).Some? { RecursiveWalk(mem, cr3, Below(l), v); }
  }

  /** The answer `translate_page` owes for the end of a walk that meets no large page. */
  function Answer(leaf: Leaf): Translation {
    match leaf
    case Page4Kb(f, pat) => if pat then WrongSize else Ok(f)
    case _ => NotMapped
  }

  lemma WalkEnds(mem: Memory, cr3: Frame, l: Level, v: bv64)
    requires TableOf(mem, cr3, l, v).Some?
    ensures var e := Entry(mem, TableOf(mem, cr3, l, v).value, IndexOf(l, v));
            if l == Pt then WalkOf(mem, cr3, v) == Last(e) else !Present(e) ==> WalkOf(mem, cr3, v) == Fault
  {
    TableAtSteps(mem, cr3, IndexOf(Pml4, v), IndexOf(Pdpt, v), IndexOf(Pd, v));
  }

  lemma TranslateVia(mem: Memory, cr3: Frame, l: Level, table: Frame, v: bv64, next: Next)
    requires l != Pt && NextTable(mem, cr3, l, table, v) == next
    ensures next == Missing ==> TranslateFrom(mem, cr3, l, table, v) == NotMapped
    ensures next.Table? ==> TranslateFrom(mem, cr3, l, table, v) == TranslateFrom(mem, cr3, Below(l), next.frame, v)
  {
  }

  lemma {:induction false} TranslateFromAgrees(mem: Memory, cr3: Frame, l: Level, table: Frame, v: bv64)
    requires Recursive(mem, cr3) && Small(WalkOf(mem, cr3, v)) && TableOf(mem, cr3, l, v) == Some(table)
    ensures TranslateFrom(mem, cr3, l, table, v) == Answer(WalkOf(mem, cr3, v))
    decreases Height(l)
  {
    if l == Pt {
      WalkEnds(mem, cr3, Pt, v);
    } else {
      NextTableRight(mem, cr3, l, v);
      var below := TableOf(mem, cr3, Below(l), v);
      TranslateVia(mem, cr3, l, table, v, NextTable(mem, cr3, l, table, v));
      if below.Some? {
        TranslateFromAgrees(mem, cr3, Below(l), below.value, v);
      } else {
        WalkEnds(mem, cr3, l, v);
      }
    }
  }

  /** `translate_page` gives the hardware's answer for every page not under a large page. */
  lemma TranslateAgrees(mem: Memory, cr3: Frame, v: bv64)
    requires Recursive(mem, cr3) && Small(WalkOf(mem, cr3, v))
    ensures TranslatePage(mem, cr3, v) == Answer(WalkOf(mem, cr3, v))
  {
    TranslateFromAgrees(mem, cr3, Pml4, cr3, v);
  }

  lemma TablesAboveLarge(mem: Memory, cr3: Frame, v: bv64, base: Frame)
    requires Recursive(mem, cr3) && WalkOf(mem, cr3, v) == Page2Mb(base)
    ensures TableOf(mem, cr3, Pdpt, v).Some? && TableOf(mem, cr3, Pd, v).Some?
    ensures NextTable(mem, cr3, Pml4, cr3, v) == Table(TableOf(mem, cr3, Pdpt, v).value)
    ensures NextTable(mem, cr3, Pdpt, TableOf(mem, cr3, Pdpt, v).value, v) == Table(TableOf(mem, cr3, Pd, v).value)
  {
    TableAtSteps(mem, cr3, IndexOf(Pml4, v), IndexOf(Pdpt, v), IndexOf(Pd, v));
    RecursiveWalk(mem, cr3, Pdpt, v);
    RecursiveWalk(mem, cr3, Pd, v);
  }

  lemma LargePath(mem: Memory, cr3: Frame, i4: Index, i3: Index, i2: Index, i1: Index, base: Frame)
    requires Recursive(mem, cr3) && WalkPath(mem, cr3, i4, i3, i2, i1) == Page2Mb(base)
    ensures WalkPath(mem, cr3, RECURSIVE_INDEX, i4, i3, i2) == Page4Kb(base, true)
    ensures TableAt(mem, cr3, [i4, i3]).Some? && Present(Entry(mem, TableAt(mem, cr3, [i4, i3]).value, i2))
  {
    TableAtSteps(mem, cr3, i4, i3, i2);
  }

  lemma LargePageFollowed(mem: Memory, cr3: Frame, v: bv64, base: Frame)
    requires Recursive(mem, cr3) && WalkOf(mem, cr3, v) == Page2Mb(base) && TableOf(mem, cr3, Pd, v).Some?
    ensures NextTable(mem, cr3, Pd, TableOf(mem, cr3, Pd, v).value, v) == Table(base)
  {
    LargePath(mem, cr3, IndexOf(Pml4, v), IndexOf(Pdpt, v), IndexOf(Pd, v), IndexOf(Pt, v), base);
    PtAddrIndices(v);
  }

  /** Under a 2M page it does not: `next_table` does not look at the huge bit, so the first
      4K of the data are read as if they were a page table. */
  lemma TranslateMisreads(mem: Memory, cr3: Frame, v: bv64, base: Frame)
    requires Recursive(mem, cr3) && WalkOf(mem, cr3, v) == Page2Mb(base)
    ensures TranslatePage(mem, cr3, v) == PhysPage(Entry(mem, base, IndexOf(Pt, v)))
  {
    TablesAboveLarge(mem, cr3, v, base);
    LargePageFollowed(mem, cr3, v, base);
    var pdpt, pd := TableOf(mem, cr3, Pdpt, v), TableOf(mem, cr3, Pd, v);
    assert TranslateFrom(mem, cr3, Pd, pd.value, v) == TranslateFrom(mem, cr3, Pt, base, v);
    assert TranslateFrom(mem, cr3, Pdpt, pdpt.value, v) == TranslateFrom(mem, cr3, Pd, pd.value, v);
  }

  // ---- Large pages under the software's feet ----

  /** The frame that the page-table address of a page under a 1G page leads to: the recursive
      entry makes the hardware take the 1G entry for a 2M one. */
  function StrayTable(base: Frame, v: bv64): Frame {
    In2Mb(base, TableAddr(Pt, v))
  }

  lemma HugePath(mem: Memory, cr3: Frame, i4: Index, i3: Index, i2: Index, i1: Index, base: Frame)
    requires Recursive(mem, cr3) && WalkPath(mem, cr3, i4, i3, i2, i1) == Page1Gb(base)
    ensures var r := RECURSIVE_INDEX;
            WalkPath(mem, cr3, r, r, i4, i3) == Page4Kb(base, true) && WalkPath(mem, cr3, r, i4, i3, i2) == Page2Mb(base)
    ensures TableAt(mem, cr3, [i4]).Some? && Present(Entry(mem, TableAt(mem, cr3, [i4]).value, i3))
    ensures TableAt(mem, cr3, [i4, i3]) == None
  {
    TableAtSteps(mem, cr3, i4, i3, i2);
  }

  /** Under a 1G page: the pointer to the page directory leads to the first 4K of the data, the
      one to the page table to another 4K of it. */
  lemma HugeDirectory(mem: Memory, cr3: Frame, v: bv64, base: Frame)
    requires Recursive(mem, cr3) && WalkOf(mem, cr3, v) == Page1Gb(base)
    ensures Walk(mem, cr3, TableAddr(Pd, v)) == Some(base)
  {
    HugePath(mem, cr3, IndexOf(Pml4, v), IndexOf(Pdpt, v), IndexOf(Pd, v), IndexOf(Pt, v), base);
    PdAddrIndices(v);
  }

  lemma HugeTableWalk(mem: Memory, cr3: Frame, v: bv64, base: Frame)
    requires Recursive(mem, cr3) && WalkOf(mem, cr3, v) == Page1Gb(base)
    ensures WalkOf(mem, cr3, TableAddr(Pt, v)) == Page2Mb(base)
  {
    HugePath(mem, cr3, IndexOf(Pml4, v), IndexOf(Pdpt, v), IndexOf(Pd, v), IndexOf(Pt, v), base);
    PtAddrIndices(v);
  }

  lemma WalkIn2Mb(mem: Memory, cr3: Frame, x: bv64, base: Frame)
    requires WalkOf(mem, cr3, x) == Page2Mb(base)
    ensures Walk(mem, cr3, x) == Some(In2Mb(base, x))
  {
  }

  lemma HugeTable(mem: Memory, cr3: Frame, v: bv64, base: Frame)
    requires Recursive(mem, cr3) && WalkOf(mem, cr3, v) == Page1Gb(base)
    ensures Walk(mem, cr3, TableAddr(Pt, v)) == Some(StrayTable(base, v))
  {
    HugeTableWalk(mem, cr3, v, base);
    WalkIn2Mb(mem, cr3, TableAddr(Pt, v), base);
  }

  /** So `translate_page` reads two words of the data as if they were entries. */
  lemma TranslateMisreadsHuge(mem: Memory, cr3: Frame, v: bv64, base: Frame)
    requires Recursive(mem, cr3) && WalkOf(mem, cr3, v) == Page1Gb(base)
    ensures TranslatePage(mem, cr3, v) ==
            if !Present(Entry(mem, base, IndexOf(Pd, v))) then NotMapped
            else PhysPage(Entry(mem, StrayTable(base, v), IndexOf(Pt, v)))
  {
    HugeTop(mem, cr3, v, base);
    var pdpt := TableOf(mem, cr3, Pdpt, v).value;
    assert TranslateFrom(mem, cr3, Pml4, cr3, v) == TranslateFrom(mem, cr3, Pdpt, pdpt, v);
    assert TranslateFrom(mem, cr3, Pdpt, pdpt, v) == TranslateFrom(mem, cr3, Pd, base, v);
    HugeData(mem, cr3, v, base);
  }

  lemma HugeTop(mem: Memory, cr3: Frame, v: bv64, base: Frame)
    requires Recursive(mem, cr3) && WalkOf(mem, cr3, v) == Page1Gb(base)
    ensures TableOf(mem, cr3, Pdpt, v).Some?
    ensures NextTable(mem, cr3, Pml4, cr3, v) == Table(TableOf(mem, cr3, Pdpt, v).value)
    ensures NextTable(mem, cr3, Pdpt, TableOf(mem, cr3, Pdpt, v).value, v) == Table(base)
  {
    HugePath(mem, cr3, IndexOf(Pml4, v), IndexOf(Pdpt, v), IndexOf(Pd, v), IndexOf(Pt, v), base);
    TableAtSteps(mem, cr3, IndexOf(Pml4, v), IndexOf(Pdpt, v), IndexOf(Pd, v));
    RecursiveWalk(mem, cr3, Pdpt, v);
    HugeDirectory(mem, cr3, v, base);
  }

  lemma DataDirectory(mem: Memory, cr3: Frame, v: bv64, base: Frame, f: Frame)
    requires Walk(mem, cr3, TableAddr(Pt, v)) == Some(f)
    ensures NextTable(mem, cr3, Pd, base, v) == if Present(Entry(mem, base, IndexOf(Pd, v))) then Table(f) else Missing
  {
  }

  lemma FromDirectory(mem: Memory, cr3: Frame, v: bv64, base: Frame, f: Frame, here: bool)
    requires NextTable(mem, cr3, Pd, base, v) == if here then Table(f) else Missing
    ensures TranslateFrom(mem, cr3, Pd, base, v) ==
            if here then PhysPage(Entry(mem, f, IndexOf(Pt, v))) else NotMapped
  {
    assert TranslateFrom(mem, cr3, Pt, f, v) == PhysPage(Entry(mem, f, IndexOf(Pt, v)));
  }

  lemma HugeData(mem: Memory, cr3: Frame, v: bv64, base: Frame)
    requires Recursive(mem, cr3) && WalkOf(mem, cr3, v) == Page1Gb(base)
    ensures TranslateFrom(mem, cr3, Pd, base, v) ==
            if !Present(Entry(mem, base, IndexOf(Pd, v))) then NotMapped
            else PhysPage(Entry(mem, StrayTable(base, v), IndexOf(Pt, v)))
  {
    HugeTable(mem, cr3, v, base);
    DataDirectory(mem, cr3, v, base, StrayTable(base, v));
    FromDirectory(mem, cr3, v, base, StrayTable(base, v), Present(Entry(mem, base, IndexOf(Pd, v))));
  }

  /** A memory with page 0 under a 2M page whose first word looks like an entry. */
  function MisleadingMemory(): Memory {
    var pml4 := Set(Set(ZeroTable(), 0, 0x2003), RECURSIVE_INDEX, 0x1003);
    map[Frame(0x1000) := pml4, Frame(0x2000) := Set(ZeroTable(), 0, 0x3003),
        Frame(0x3000) := Set(ZeroTable(), 0, 0x20_0083), Frame(0x20_0000) := Set(ZeroTable(), 0, 0x5001)]
  }

  lemma MisleadingEntries(j: Index)
    ensures var mem := MisleadingMemory();
            && Entry(mem, Frame(0x1000), j) == (if j == RECURSIVE_INDEX then 0x1003 else if j == 0 then 0x2003 else 0)
            && Entry(mem, Frame(0x2000), j) == (if j == 0 then 0x3003 else 0)
            && Entry(mem, Frame(0x3000), j) == (if j == 0 then 0x20_0083 else 0)
            && Entry(mem, Frame(0x20_0000), j) == (if j == 0 then 0x5001 else 0)
  {
    assert Get(ZeroTable(), j) == 0;
    GetSet(Set(ZeroTable(), 0, 0x2003), RECURSIVE_INDEX, 0x1003, j);
    GetSet(ZeroTable(), 0, 0x2003, j);
    GetSet(ZeroTable(), 0, 0x3003, j);
    GetSet(ZeroTable(), 0, 0x20_0083, j);
    GetSet(ZeroTable(), 0, 0x5001, j);
  }

  /** There the hardware and `translate_page` disagree. */
  lemma TranslateDisagrees()
    ensures var mem, cr3 := MisleadingMemory(), Frame(0x1000);
            && Recursive(mem, cr3)
            && Walk(mem, cr3, 0) == Some(Frame(0x20_0000)) && TranslatePage(mem, cr3, 0) == Ok(Frame(0x5000))
  {
    var mem, cr3 := MisleadingMemory(), Frame(0x1000);
    MisleadingEntries(RECURSIVE_INDEX);
    MisleadingEntries(0);
    assert WalkOf(mem, cr3, 0) == Page2Mb(Frame(0x20_0000));
    TranslateMisreads(mem, cr3, 0, Frame(0x20_0000));
  }
}
