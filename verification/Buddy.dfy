/** The buddy allocator of alloc/src/buddy.rs over the regions of hal-core/src/mem.rs.
    A free list is a sequence from front to back; a free block's header is known by its list
    and its place there, and the locks around the lists are left out. Results called `Panic`
    are the source's panics. */
module Buddy {
  import opened Wrappers
  import opened PowersOfTwo
  import opened Sequences

  // ---- Regions ----

  datatype Region = Region(base: nat, size: nat)

  predicate Contains(r: Region, a: int) {
    r.base <= a < r.base + r.size
  }

  function Front(r: Region, n: nat): Region
    requires n <= r.size
  {
    Region(r.base, n)
  }

  function Back(r: Region, n: nat): Region
    requires n <= r.size
  {
    Region(r.base + n, r.size - n)
  }

  /** `split_back`: what is kept and what is split off. */
  function SplitBack(r: Region, n: nat): Option<(Region, Region)> {
    if n >= r.size then None else Some((Front(r, n), Back(r, n)))
  }

  /** `split_front`: what is kept and what is split off. */
  function SplitFront(r: Region, n: nat): Option<(Region, Region)> {
    if n > r.size then None else Some((Back(r, n), Front(r, n)))
  }

  function Merge(r: Region, s: Region): Region {
    Region(if r.base < s.base then r.base else s.base, r.size + s.size)
  }

  /** Either split cuts a region in two parts that share no address, and a merge undoes it. */
  lemma SplitPartitions(r: Region, n: nat, a: int)
    ensures SplitBack(r, n).Some? ==>
              var (kept, off) := SplitBack(r, n).value;
              && Merge(kept, off) == r == Merge(off, kept) && kept.size == n
              && (Contains(r, a) <==> Contains(kept, a) != Contains(off, a))
    ensures SplitFront(r, n).Some? ==>
              var (kept, off) := SplitFront(r, n).value;
              && Merge(kept, off) == r == Merge(off, kept) && off.size == n
              && (Contains(r, a) <==> Contains(kept, a) != Contains(off, a))
  {
  }

  // ---- Sums over free lists ----

  type Lists = seq<seq<Region>>

  ghost function Total(f: Region -> int, s: seq<Region>): int {
    if s == [] then 0 else f(s[0]) + Total(f, s[1..])
  }

  ghost function TotalAll(f: Region -> int, lists: Lists): int {
    if lists == [] then 0 else Total(f, lists[0]) + TotalAll(f, lists[1..])
  }

  lemma {:induction false} TotalConcat(f: Region -> int, s: seq<Region>, t: seq<Region>)
    ensures Total(f, s + t) == Total(f, s) + Total(f, t)
  {
    if s == [] {
      assert s + t == t;
    } else {
      TotalConcat(f, s[1..], t);
      assert (s + t)[1..] == s[1..] + t;
    }
  }

  lemma TotalPush(f: Region -> int, r: Region, s: seq<Region>)
    ensures Total(f, [r] + s) == f(r) + Total(f, s)
  {
  }

  lemma {:induction false} TotalUpdate(f: Region -> int, lists: Lists, i: nat, s: seq<Region>)
    requires i < |lists|
    ensures TotalAll(f, lists[i := s]) == TotalAll(f, lists) - Total(f, lists[i]) + Total(f, s)
  {
    if i == 0 {
      assert lists[0 := s][1..] == lists[1..];
    } else {
      TotalUpdate(f, lists[1..], i - 1, s);
      assert lists[i := s][1..] == lists[1..][i - 1 := s];
    }
  }

  function Without(s: seq<Region>, k: nat): seq<Region>
    requires k < |s|
  {
    s[..k] + s[k + 1..]
  }

  lemma TotalWithout(f: Region -> int, s: seq<Region>, k: nat)
    requires k < |s|
    ensures Total(f, Without(s, k)) == Total(f, s) - f(s[k])
  {
    TotalConcat(f, s[..k], s[k + 1..]);
    TotalConcat(f, s[..k], s[k..]);
    assert s == s[..k] + s[k..];
  }

  /** A measure of regions that cutting does not change. */
  ghost predicate Additive(f: Region -> int) {
    forall r: Region, n: nat | n <= r.size :: f(r) == f(Front(r, n)) + f(Back(r, n))
  }

  function Bytes(): Region -> int {
    (r: Region) => r.size
  }

  /** How often an address is covered. */
  function Cover(a: int): Region -> int {
    (r: Region) => if Contains(r, a) then 1 else 0
  }

  lemma MeasuresAdditive(a: int)
    ensures Additive(Bytes()) && Additive(Cover(a))
  {
  }

  // ---- Sizes and orders ----

  /** The least size that holds a layout, its alignment and a smallest block. */
  function Needed(m: nat, size: nat, align: nat): (n: nat)
    ensures n >= Pow(m) && n >= size && n >= align && (n == Pow(m) || n == size || n == align)
  {
    var s := if size < align then align else size;
    if s < Pow(m) then Pow(m) else s
  }

  /** `size_for`, before it asks whether the heap is that large. */
  function Rounded(m: nat, size: nat, align: nat): nat {
    var n := Needed(m, size, align);
    if IsPow2(n) then n else NextPow2(n)
  }

  function OrderOf(m: nat, size: nat): int {
    CeilLog(size) - m
  }

  lemma OrderOfPow(m: nat, k: nat)
    ensures OrderOf(m, Pow(m + k)) == k
  {
    LogsOfPow(m + k);
  }

  lemma NeededOrder(m: nat, n: nat, k: nat)
    requires n >= Pow(m)
    ensures NextPow2(n) == Pow(CeilLog(n)) && CeilLog(n) >= m
    ensures n <= Pow(m + k) ==> CeilLog(n) <= m + k
  {
    CeilLogMeans(n);
    if CeilLog(n) < m { PowMono(CeilLog(n), m); }
    if m + k < CeilLog(n) { PowMono(m + k, CeilLog(n)); }
  }

  /** The rounded size is the least block size that holds the layout and its alignment, and its
      order is the number of doublings. */
  lemma RoundedMeans(m: nat, size: nat, align: nat, k: nat)
    ensures var s := Rounded(m, size, align);
            && OrderOf(m, s) >= 0 && s == Pow(m + OrderOf(m, s)) && size <= s && align <= s
            && (size <= Pow(m + k) && align <= Pow(m + k) ==> OrderOf(m, s) <= k)
  {
    var n := Needed(m, size, align);
    PowMono(m, m + k);
    NeededOrder(m, n, k);
    NextPow2Least(n, m + k);
    LogsOfPow(CeilLog(n));
  }

  function OrderFor(m: nat, size: nat, align: nat): (o: nat)
    ensures Rounded(m, size, align) == Pow(m + o)
  {
    RoundedMeans(m, size, align, 0);
    OrderOf(m, Rounded(m, size, align))
  }

  /** The block at an address that a layout asks for. */
  function Asked(m: nat, addr: nat, size: nat, align: nat): Region {
    Region(addr, Rounded(m, size, align))
  }

  // ---- Carving a region ----

  /** The largest blocks first, from the front, until less than a smallest block is left. */
  function Tiles(m: nat, base: nat, size: nat): seq<Region>
    decreases size
  {
    if size < Pow(m) then [] else
      FloorLogMeans(size);
      var p := Pow(FloorLog(size));
      [Region(base, p)] + Tiles(m, base + p, size - p)
  }

  predicate Bit(n: nat, k: nat) {
    n / Pow(k) % 2 == 1
  }

  predicate HasBlock(s: seq<Region>, size: nat) {
    exists i | 0 <= i < |s| :: s[i].size == size
  }

  /** Each block starts where the one before it ends, and is smaller. */
  predicate Contiguous(s: seq<Region>, base: int, end: int) {
    if s == [] then base == end
    else s[0].base == base && (|s| > 1 ==> s[1].size < s[0].size) && Contiguous(s[1..], base + s[0].size, end)
  }

  lemma {:induction false} TilesContiguous(m: nat, base: nat, size: nat)
    ensures Contiguous(Tiles(m, base, size), base, base + size - size % Pow(m))
    decreases size
  {
    if size < Pow(m) {
      SmallMod(size, Pow(m));
    } else {
      var p := Pow(FloorLog(size));
      FloorLogMeans(size);
      TopAbove(m, size);
      TilesContiguous(m, base + p, size - p);
      ModBelow(m, FloorLog(size));
      ModAdd(size - p, p, Pow(m));
      assert Tiles(m, base, size)[1..] == Tiles(m, base + p, size - p);
      if size - p >= Pow(m) { FloorLogMeans(size - p); }
    }
  }

  lemma SmallMod(n: nat, b: nat)
    requires n < b
    ensures n % b == n && n / b == 0
  {
  }

  lemma TopAbove(m: nat, size: nat)
    requires size >= Pow(m)
    ensures FloorLog(size) >= m
  {
  }

  /** What is left behind the largest block has a smaller top bit. */
  lemma TopFalls(size: nat)
    requires size >= 1
    ensures Pow(FloorLog(size)) <= size < 2 * Pow(FloorLog(size))
    ensures size > Pow(FloorLog(size)) ==> FloorLog(size - Pow(FloorLog(size))) < FloorLog(size)
  {
    var f := FloorLog(size);
    FloorLogMeans(size);
    if size > Pow(f) {
      var f' := FloorLog(size - Pow(f));
      FloorLogMeans(size - Pow(f));
      if f' >= f { PowMono(f, f'); }
    }
  }

  lemma BitHigh(n: nat, k: nat)
    requires n < Pow(k)
    ensures !Bit(n, k)
  {
    SmallMod(n, Pow(k));
  }

  lemma BitStep(size: nat, k: nat)
    requires size >= 1
    ensures Pow(FloorLog(size)) <= size
    ensures var f := FloorLog(size);
            Bit(size, k) <==> k == f || (k < f && Bit(size - Pow(f), k))
  {
    var f := FloorLog(size);
    FloorLogMeans(size);
    if k > f {
      PowMono(f, k);
      BitHigh(size, k);
    } else if k == f {
      DivUnique(size, 1, size - Pow(f), Pow(f));
    } else {
      BitBelow(size - Pow(f), f, k);
    }
  }

  lemma BitBelow(rest: nat, f: nat, k: nat)
    requires k < f
    ensures Bit(rest + Pow(f), k) <==> Bit(rest, k)
  {
    PowSum(f - k, k);
    SameQuotientBit(rest, Pow(k), Pow(f - k), Pow(f - k - 1));
  }

  lemma SameQuotientBit(x: nat, b: nat, c: nat, h: nat)
    requires b > 0 && c == 2 * h
    ensures (x + c * b) / b % 2 == x / b % 2
  {
    DivAddMultiple(x, c, b);
    SameParity(x / b, h);
  }

  lemma SameParity(q: nat, h: nat)
    ensures (q + 2 * h) % 2 == q % 2
  {
  }

  /** One block for each bit of the size from the smallest block size up. */
  lemma {:induction false} TileBits(m: nat, base: nat, size: nat, k: nat)
    requires k >= m
    ensures HasBlock(Tiles(m, base, size), Pow(k)) <==> Bit(size, k)
    decreases size
  {
    if size < Pow(m) {
      PowMono(m, k);
      BitHigh(size, k);
    } else {
      var f := FloorLog(size);
      var p := Pow(f);
      FloorLogMeans(size);
      BitStep(size, k);
      TileBits(m, base + p, size - p, k);
      if k >= f {
        PowMono(f, k);
        BitHigh(size - p, k);
      } else {
        PowMono(k, f);
      }
      HasBlockStep(Region(base, p), Tiles(m, base + p, size - p), Pow(k));
    }
  }

  lemma HasBlockStep(r: Region, s: seq<Region>, size: nat)
    ensures HasBlock([r] + s, size) <==> r.size == size || HasBlock(s, size)
  {
    if r.size == size { assert ([r] + s)[0].size == size; }
    if HasBlock(s, size) {
      var i :| 0 <= i < |s| && s[i].size == size;
      assert ([r] + s)[i + 1].size == size;
    }
  }

  lemma {:induction false} TilesSized(m: nat, base: nat, size: nat, i: nat)
    requires i < |Tiles(m, base, size)|
    ensures var r := Tiles(m, base, size)[i];
            size >= Pow(m) && 0 <= OrderOf(m, r.size) <= FloorLog(size) - m && r.size == Pow(m + OrderOf(m, r.size))
    decreases size
  {
    var f := FloorLog(size);
    var p := Pow(f);
    TopFalls(size);
    TopAbove(m, size);
    OrderOfPow(m, f - m);
    if i > 0 { TilesSized(m, base + p, size - p, i - 1); }
  }

  lemma EmptyMeasure(f: Region -> int, base: nat)
    requires Additive(f)
    ensures f(Region(base, 0)) == 0
  {
    var r := Region(base, 0);
    assert f(r) == f(Front(r, 0)) + f(Back(r, 0));
  }

  /** The blocks are the region, up to what is less than a smallest block. */
  lemma {:induction false} TilesCover(f: Region -> int, m: nat, base: nat, size: nat)
    requires Additive(f)
    ensures size % Pow(m) <= size
    ensures Total(f, Tiles(m, base, size)) == f(Region(base, size - size % Pow(m)))
    decreases size
  {
    if size < Pow(m) {
      SmallMod(size, Pow(m));
      EmptyMeasure(f, base);
    } else {
      var p := Pow(FloorLog(size));
      FloorLogMeans(size);
      TopAbove(m, size);
      TilesCover(f, m, base + p, size - p);
      ModBelow(m, FloorLog(size));
      ModAdd(size - p, p, Pow(m));
      TotalPush(f, Region(base, p), Tiles(m, base + p, size - p));
      var whole := Region(base, size - size % Pow(m));
      assert f(whole) == f(Front(whole, p)) + f(Back(whole, p));
    }
  }

  /** When `add_region` can carve a region of this size without a panic, over `n` free lists. */
  predicate Carvable(m: nat, n: nat, size: nat) {
    size >= Pow(m) && size % Pow(m) != 1 && FloorLog(size) - m < n
  }

  /** The block that `add_region` takes off the front. */
  function Cut(size: nat): nat {
    if IsPow2(size) then size else PrevPow2(size)
  }

  lemma CutValue(size: nat)
    requires size >= 1
    ensures var p := Pow(FloorLog(size));
            && p <= size < 2 * p
            && (if size > 1 && size == p + 1 then 2 * Cut(size) == p else Cut(size) == p)
            && (IsPow2(size) <==> size == p) && Cut(size) >= 1
  {
    var k := FloorLog(size);
    FloorLogMeans(size);
    if size > 1 {
      PowerBelow(size, k);
      PrevPow2Right(size);
    }
  }

  lemma HalfPow(f: nat, p: nat)
    requires 2 * p == Pow(f)
    ensures f >= 1 && p == Pow(f - 1)
  {
  }

  /** In a carvable region the next block is the right one and the rest is carvable. */
  lemma CarveStep(m: nat, n: nat, size: nat)
    requires m >= 1 && Carvable(m, n, size)
    ensures Cut(size) == Pow(FloorLog(size)) <= size && 0 <= OrderOf(m, Cut(size)) == FloorLog(size) - m < n
    ensures size - Cut(size) < Pow(m) || Carvable(m, n, size - Cut(size))
  {
    var f := FloorLog(size);
    CutValue(size);
    TopAbove(m, size);
    ModBelow(m, f);
    OrderOfPow(m, f - m);
    var rest := size - Pow(f);
    ModAdd(rest, Pow(f), Pow(m));
    if rest == 1 { SmallMod(rest, Pow(m)); }
    if rest >= Pow(m) {
      FloorLogMeans(rest);
      if FloorLog(rest) > f { PowMono(f, FloorLog(rest)); }
    }
  }

  /** One byte above a power of two, half of it is cut off and one byte stays above. */
  lemma CutHalf(m: nat, n: nat, size: nat)
    requires m >= 1 && size > 1 && size == Pow(FloorLog(size)) + 1 && 0 <= OrderOf(m, Cut(size)) < n
    ensures Cut(size) + Pow(m) <= size && !Carvable(m, n, size - Cut(size))
  {
    var f, min := FloorLog(size), Pow(m);
    CutValue(size);
    HalfPow(f, Cut(size));
    LogsOfPow(f - 1);
    PowMono(m, f - 1);
    ModBelow(m, f - 1);
    ModAdd(1, Pow(f - 1), min);
    SmallMod(1, min);
  }

  /** In any other, a block that can be pushed leaves a rest that is not carvable either. */
  lemma CarveFails(m: nat, n: nat, size: nat)
    requires m >= 1 && size >= 1 && !Carvable(m, n, size) && 0 <= OrderOf(m, Cut(size)) < n
    ensures !IsPow2(size) && Cut(size) + Pow(m) <= size && !Carvable(m, n, size - Cut(size))
  {
    var f := FloorLog(size);
    var p, min := Pow(f), Pow(m);
    CutValue(size);
    if size == p + 1 && size > 1 {
      CutHalf(m, n, size);
    } else {
      LogsOfPow(f);
      PowMono(m, f);
      ModBelow(m, f);
      ModAdd(size - p, p, min);
      if size - p < min { SmallMod(size - p, min); }
    }
  }

  // ---- Free lists ----

  predicate Aligned(m: nat, base: nat) {
    base % Pow(m) == 0
  }

  /** Blocks on the list of order `i` are the smallest block doubled `i` times, and start at a
      multiple of the smallest block, at or above the base of the heap. */
  ghost predicate Sized(m: nat, b: nat, lists: Lists) {
    forall i, k | 0 <= i < |lists| && 0 <= k < |lists[i]| ::
      lists[i][k].size == Pow(m + i) && lists[i][k].base >= b && Aligned(m, lists[i][k].base)
  }

  predicate Fits(m: nat, lists: Lists, r: Region) {
    0 <= OrderOf(m, r.size) < |lists|
  }

  function Push(m: nat, lists: Lists, r: Region): Lists {
    if !Fits(m, lists, r) then lists else
      var o := OrderOf(m, r.size);
      lists[o := [r] + lists[o]]
  }

  lemma SizedBelow(m: nat, b: nat, b': nat, lists: Lists)
    requires Sized(m, b, lists) && b' <= b
    ensures Sized(m, b', lists)
  {
  }

  lemma PushKeeps(m: nat, b: nat, lists: Lists, r: Region)
    requires Sized(m, b, lists) && Fits(m, lists, r) && r.size == Pow(m + OrderOf(m, r.size))
    requires r.base >= b && Aligned(m, r.base)
    ensures Sized(m, b, Push(m, lists, r))
  {
  }

  lemma PushTotal(f: Region -> int, m: nat, lists: Lists, r: Region)
    requires Fits(m, lists, r)
    ensures TotalAll(f, Push(m, lists, r)) == TotalAll(f, lists) + f(r)
  {
    var o := OrderOf(m, r.size);
    TotalUpdate(f, lists, o, [r] + lists[o]);
    TotalPush(f, r, lists[o]);
  }

  /** Blocks pushed one after the other. */
  function PushAll(m: nat, lists: Lists, blocks: seq<Region>): Lists
    decreases |blocks|
  {
    if blocks == [] then lists else PushAll(m, Push(m, lists, blocks[0]), blocks[1..])
  }

  lemma {:induction false} PushAllTotal(f: Region -> int, m: nat, lists: Lists, blocks: seq<Region>)
    requires forall i | 0 <= i < |blocks| :: Fits(m, lists, blocks[i])
    ensures TotalAll(f, PushAll(m, lists, blocks)) == TotalAll(f, lists) + Total(f, blocks)
    decreases |blocks|
  {
    if blocks != [] {
      PushTotal(f, m, lists, blocks[0]);
      PushAllTotal(f, m, Push(m, lists, blocks[0]), blocks[1..]);
    }
  }

  lemma CarvableFits(m: nat, lists: Lists, base: nat, size: nat)
    requires size < Pow(m) || Carvable(m, |lists|, size)
    ensures forall i | 0 <= i < |Tiles(m, base, size)| :: Fits(m, lists, Tiles(m, base, size)[i])
  {
    forall i | 0 <= i < |Tiles(m, base, size)| ensures Fits(m, lists, Tiles(m, base, size)[i]) {
      TilesSized(m, base, size, i);
    }
  }

  /** No address is covered twice by free and allocated blocks. */
  ghost predicate Exclusive(free: Lists, live: Lists) {
    forall a :: TotalAll(Cover(a), free) + TotalAll(Cover(a), live) <= 1
  }

  /** None of these addresses is in a block. */
  ghost predicate Uncovered(free: Lists, live: Lists, base: nat, size: nat) {
    forall a | base <= a < base + size :: TotalAll(Cover(a), free) + TotalAll(Cover(a), live) <= 0
  }

  function AlignUp(base: nat, min: nat): nat
    requires min > 0
  {
    if base % min == 0 then base else base - base % min + min
  }

  lemma AlignUpAligned(base: nat, min: nat)
    requires min > 0
    ensures AlignUp(base, min) % min == 0 && base <= AlignUp(base, min) < base + min
  {
    var q, r := base / min, base % min;
    assert base == q * min + r;
    DivUnique(base - r, q, 0, min);
    ModAdd(base - r, min, min);
  }

  lemma AtAligned(m: nat, base: nat)
    ensures Aligned(m, AlignUp(base, Pow(m)))
  {
    AlignUpAligned(base, Pow(m));
  }

  /** A block that fits is as large as the order says. */
  lemma CutSized(m: nat, size: nat)
    requires size >= 1 && OrderOf(m, Cut(size)) >= 0
    ensures Cut(size) == Pow(m + OrderOf(m, Cut(size))) && Cut(size) <= size && Cut(size) % Pow(m) == 0
  {
    CutValue(size);
    if IsPow2(size) { LogsOfPow(FloorLog(size)); } else { LogsOfPow(CeilLog(size / 2)); }
    ModBelow(m, m + OrderOf(m, Cut(size)));
  }

  lemma BlockKeeps(m: nat, b: nat, b': nat, lists: Lists, live: Lists, block: Region, size: nat)
    requires Sized(m, b, lists) && Sized(m, b, live) && b' <= b && b' <= block.base
    requires size >= 1 && block.size == Cut(size) && Aligned(m, block.base)
    ensures Sized(m, b', lists) && Sized(m, b', live)
    ensures Fits(m, lists, block) ==> Sized(m, b', Push(m, lists, block))
    ensures Fits(m, lists, block) ==> TotalAll(Bytes(), Push(m, lists, block)) == TotalAll(Bytes(), lists) + block.size
  {
    SizedBelow(m, b, b', lists);
    SizedBelow(m, b, b', live);
    if Fits(m, lists, block) {
      CutSized(m, size);
      PushKeeps(m, b', lists, block);
      PushTotal(Bytes(), m, lists, block);
    }
  }

  datatype AddResult = Added | Refused | AddPanic

  /** The base address before a region was added. */
  const USIZE_MAX: nat := 0xFFFF_FFFF_FFFF_FFFF

  /** `base` is the lowest address of a region; `live` holds the allocated blocks by order. */
  class Alloc {
    const minLog2: nat
    var base: nat
    var heapSize: nat
    var allocatedSize: int
    var lists: Lists
    ghost var live: Lists

    ghost predicate Valid()
      reads this
    {
      && minLog2 >= 1 && |live| == |lists| && Sized(minLog2, base, lists) && Sized(minLog2, base, live)
      && (base == USIZE_MAX || Aligned(minLog2, base))
      && allocatedSize == TotalAll(Bytes(), live)
      && heapSize == allocatedSize + TotalAll(Bytes(), lists)
    }

    /** Every block lies at a multiple of its size from the base of the heap. */
    ghost predicate Gridded()
      reads this
    {
      OnGrid(base, lists) && OnGrid(base, live)
    }

    /** A block must have room for its header. */
    constructor (minSize: nat, header: nat, n: nat)
      requires header >= 2
      ensures Valid() && |lists| == n && heapSize == 0 && base == USIZE_MAX && NoBlocks(lists) && NoBlocks(live)
      ensures Pow(minLog2) >= minSize && Pow(minLog2) >= header
      ensures forall k: nat | Pow(k) >= minSize && Pow(k) >= header :: Pow(minLog2) <= Pow(k)
    {
      var size := if minSize < header then header else minSize;
      minLog2 := CeilLog(NextPow2(size));
      base, heapSize, allocatedSize := USIZE_MAX, 0, 0;
      lists, live := seq(n, _ => []), seq(n, _ => []);
      new;
      LogsOfPow(CeilLog(size));
      NextPow2Least(size, 0);
      forall k: nat | Pow(k) >= size ensures Pow(minLog2) <= Pow(k) { NextPow2Least(size, k); }
      EmptyTotal(Bytes(), lists);
    }

    method PushBlock(r: Region) returns (ok: bool)
      modifies `lists, `heapSize
      ensures ok <==> Fits(minLog2, old(lists), r)
      ensures lists == if ok then Push(minLog2, old(lists), r) else old(lists)
      ensures heapSize == if ok then old(heapSize) + r.size else old(heapSize)
    {
      var o := OrderOf(minLog2, r.size);
      if o < 0 || o >= |lists| { return false; }
      lists := lists[o := [r] + lists[o]];
      heapSize := heapSize + r.size;
      ok := true;
    }

    /** The block at the front of a region, and what is left behind it if that is large enough. */
    method CutBlock(r: Region) returns (block: Region, next: Option<Region>)
      requires r.size >= 1
      ensures block == Region(AlignUp(r.base, Pow(minLog2)), Cut(r.size))
      ensures next == Rest(minLog2, block.base, r.size)
    {
      next := None;
      var min, size := Pow(minLog2), r.size;
      block := r;
      if block.base % min != 0 { block := Region(AlignUp(block.base, min), size); }
      CutValue(size);
      if !IsPow2(size) {
        var (kept, off) := SplitBack(block, PrevPow2(size)).value;
        if off.size >= min { next := Some(off); }
        block := kept;
      }
    }

    /** One turn of the loop in `add_region`: a block goes on its list, the rest is next. */
    method AddBlock(r: Region, ghost at: nat) returns (ok: bool, next: Option<Region>)
      requires Valid() && at == AlignUp(r.base, Pow(minLog2))
      modifies `lists, `heapSize, `base
      ensures Valid() && |lists| == |old(lists)|
      ensures base == if r.size >= 1 && at < old(base) then at else old(base)
      ensures ok <==> r.size >= 1 && Fits(minLog2, old(lists), Region(at, Cut(r.size)))
      ensures ok ==> lists == Push(minLog2, old(lists), Region(at, Cut(r.size))) && next == Rest(minLog2, at, r.size)
    {
      if r.size == 0 { return false, None; }
      var block: Region;
      block, next := CutBlock(r);
      if block.base < base { base := block.base; }
      AtAligned(minLog2, r.base);
      BlockKeeps(minLog2, old(base), base, lists, live, block, r.size);
      ok := PushBlock(block);
    }

    /** The loop of `add_region`. */
    method Carve(region: Region) returns (ok: bool)
      requires Valid()
      modifies `lists, `heapSize, `base
      ensures Valid() && |lists| == |old(lists)|
      ensures ok <==> Carvable(minLog2, |lists|, region.size)
      ensures ok ==> lists == PushAll(minLog2, old(lists), Tiles(minLog2, AlignUp(region.base, Pow(minLog2)), region.size))
      ensures ok ==> base == Min(old(base), AlignUp(region.base, Pow(minLog2)))
    {
      var next := Some(region);
      ghost var start: nat := AlignUp(region.base, Pow(minLog2));
      ghost var at: nat := start;
      ghost var tiles := Tiles(minLog2, start, region.size);
      while next.Some?
        invariant Valid() && |lists| == |old(lists)|
        invariant Min(base, start) == Min(old(base), start) && start <= at && (next.None? ==> start < at)
        invariant start < at ==> base <= start
        invariant next.Some? ==> at == AlignUp(next.value.base, Pow(minLog2))
        invariant Carvable(minLog2, |lists|, region.size) <==>
                  next.None? || Carvable(minLog2, |lists|, next.value.size)
        invariant Carvable(minLog2, |lists|, region.size) ==>
            PushAll(minLog2, old(lists), tiles) == PushAll(minLog2, lists, Pending(minLog2, at, next))
        decreases if next.Some? then next.value.size + 1 else 0
      {
        CarveLoop(minLog2, lists, at, next.value.size);
        NextAligned(minLog2, next.value.base, next.value.size);
        ok, next := AddBlock(next.value, at);
        if !ok { return; }
        at := if next.Some? then next.value.base else at + 1;
      }
      ok := true;
    }

    /** Cuts a region into blocks and pushes them, or panics on the way. */
    method AddRegion(region: Region, free: bool) returns (r: AddResult)
      requires Valid()
      modifies `lists, `heapSize, `base
      ensures Valid() && |lists| == |old(lists)|
      ensures r == Refused <==> !free
      ensures r == Refused ==> lists == old(lists)
      ensures r == Added <==> free && Carvable(minLog2, |lists|, region.size)
      ensures r == Added ==>
                lists == PushAll(minLog2, old(lists), Tiles(minLog2, AlignUp(region.base, Pow(minLog2)), region.size))
      ensures r == Added ==> heapSize == old(heapSize) + region.size - region.size % Pow(minLog2)
      ensures r == Added ==> base == Min(old(base), AlignUp(region.base, Pow(minLog2)))
      ensures old(Exclusive(lists, live) && Uncovered(lists, live, AlignUp(region.base, Pow(minLog2)), region.size)) ==>
                r == Added ==> Exclusive(lists, live)
      ensures r == Added && GridFor(base, old(lists), live, AlignUp(region.base, Pow(minLog2)), region.size) ==> Gridded()
    {
      if !free { return Refused; }
      ghost var start: nat := AlignUp(region.base, Pow(minLog2));
      var ok := Carve(region);
      if !ok { return AddPanic; }
      CarvedTotal(Bytes(), minLog2, old(lists), start, region.size);
      if old(Exclusive(lists, live)) && old(Uncovered(lists, live, start, region.size)) {
        CarvedExclusive(minLog2, old(lists), live, start, region.size);
      }
      if GridFor(base, old(lists), live, start, region.size) {
        CarvedGrid(minLog2, base, old(lists), start, region.size);
      }
      r := Added;
    }

    method SplitDown(block: Region, from: nat, target: nat) returns (r: Region)
      requires target <= from <= |lists| && block.size == Pow(minLog2 + from)
      modifies `lists
      ensures r == Region(block.base, Pow(minLog2 + target))
      ensures lists == Split(minLog2, old(lists), block.base, target, from)
    {
      r := block;
      var order, size := from, block.size;
      while order > target
        invariant target <= order <= from && size == Pow(minLog2 + order) && r == Region(block.base, size)
        invariant |lists| == |old(lists)| && lists == Split(minLog2, old(lists), block.base, order, from)
      {
        order := order - 1;
        size := size / 2;
        var (kept, off) := SplitBack(r, size).value;
        r := kept;
        lists := lists[order := [off] + lists[order]];
      }
    }

    function SizeFor(size: nat, align: nat): Option<nat>
      reads this
    {
      var s := Rounded(minLog2, size, align);
      if s > heapSize then None else Some(s)
    }

    /** Pops the last block of list `k` and splits it down to order `o`. */
    method PopSplit(o: nat, k: nat) returns (block: Region)
      requires Sized(minLog2, base, lists) && o <= k < |lists| && lists[k] != []
      modifies `lists
      ensures block == TakenBlock(minLog2, old(lists), o, k) && lists == Taken(minLog2, old(lists), o, k)
    {
      var n := |lists[k]| - 1;
      block := lists[k][n];
      lists := lists[k := lists[k][..n]];
      if k > o {
        block := SplitDown(block, k, o);
      } else {
        assert lists == Split(minLog2, lists, block.base, o, k);
      }
    }

    /** Takes the last block of list `k`, split down to order `o`. */
    method Take(o: nat, k: nat) returns (block: Region)
      requires Valid() && o <= k < |lists| && lists[k] != []
      modifies `lists, `allocatedSize, `live
      ensures Valid() && |lists| == |old(lists)|
      ensures block == TakenBlock(minLog2, old(lists), o, k) && lists == Taken(minLog2, old(lists), o, k)
      ensures live == old(live)[o := old(live)[o] + [block]]
      ensures old(Exclusive(lists, live)) ==> Exclusive(lists, live)
    {
      TakenKeeps(minLog2, base, lists, live, o, k);
      block := PopSplit(o, k);
      allocatedSize := allocatedSize + block.size;
      live := live[o := live[o] + [block]];
    }

    /** Serves a layout from the first list that can, or says why not. */
    method AllocInner(size: nat, align: nat) returns (r: AllocResult)
      requires Valid()
      modifies `lists, `allocatedSize, `live
      ensures Valid() && |lists| == |old(lists)|
      ensures r == AllocPanic <==> Rounded(minLog2, size, align) <= heapSize && OrderFor(minLog2, size, align) > |lists|
      ensures r == NoMemory <==>
              || Rounded(minLog2, size, align) > heapSize
              || (OrderFor(minLog2, size, align) <= |lists| &&
                  forall j | OrderFor(minLog2, size, align) <= j < |lists| :: old(lists)[j] == [])
      ensures r.Block? ==>
                var o := OrderFor(minLog2, size, align);
                var k := FirstFit(old(lists), o);
                && k < |lists| && r.region == TakenBlock(minLog2, old(lists), o, k)
                && r.region.size == Rounded(minLog2, size, align)
                && lists == Taken(minLog2, old(lists), o, k) && live == old(live)[o := old(live)[o] + [r.region]]
      ensures !r.Block? ==> lists == old(lists) && live == old(live)
      ensures old(Exclusive(lists, live)) ==> Exclusive(lists, live)
      ensures old(Gridded()) ==> Gridded()
    {
      var s := SizeFor(size, align);
      if s.None? { return NoMemory; }
      var o := OrderFor(minLog2, size, align);
      if o > |lists| { return AllocPanic; }
      var k := o;
      while k < |lists| && lists[k] == []
        invariant o <= k <= |lists| && FirstFit(lists, o) == FirstFit(lists, k)
      {
        k := k + 1;
      }
      if k == |lists| { return NoMemory; }
      if Gridded() { TakenGrid(minLog2, base, lists, live, o, k); }
      var block := Take(o, k);
      r := Block(block);
    }

    /** The block was handed out for this layout and not freed since. */
    ghost predicate IsLive(addr: nat, size: nat, align: nat)
      reads this
    {
      var o := OrderFor(minLog2, size, align);
      o < |live| && Asked(minLog2, addr, size, align) in live[o]
    }

    /** The loop of `dealloc_inner`, which must end on a list where no free header is met. */
    method Release(freed: Region, o: nat, find: Finder) returns (stop: Stop)
      requires o <= |lists|
      modifies `lists
      ensures stop == Coalesce(old(lists), freed, o, find).stop
      ensures lists == FreedLists(old(lists), freed, o, find)
    {
      var block := freed;
      for cur := o to |lists|
        invariant |lists| == |old(lists)|
        invariant Coalesce(lists, block, cur, find) == Coalesce(old(lists), freed, o, find)
      {
        var h := Found(find, block, cur, lists);
        if h.NotFree? {
          lists := lists[cur := [block] + lists[cur]];
          return Pushed;
        }
        if h.list != cur { return WrongList; }
        var buddy := lists[cur][h.pos];
        lists := lists[cur := Without(lists[cur], h.pos)];
        if buddy.base < block.base { block, buddy := buddy, block; }
        block := Merge(block, buddy);
      }
      stop := PastLists;
    }

    /** The loop with its accounts, which balance for an allocated block. */
    method FreeBlock(block: Region, o: nat, find: Finder) returns (stop: Stop)
      requires Valid() && o <= |lists|
      modifies `lists, `allocatedSize, `live
      ensures stop == Coalesce(old(lists), block, o, find).stop
      ensures lists == FreedLists(old(lists), block, o, find)
      ensures stop != Pushed ==> live == old(live) && allocatedSize == old(allocatedSize)
      ensures stop == Pushed && o < |old(live)| && block in old(live)[o] ==> Valid() && live == Dead(old(live), o, block)
    {
      ghost var wasLive := o < |live| && block in live[o];
      if wasLive && Coalesce(lists, block, o, find).stop == Pushed {
        FreedKeeps(minLog2, base, lists, live, block, o, find);
      }
      stop := Release(block, o, find);
      if stop == Pushed {
        allocatedSize := allocatedSize - block.size;
        if wasLive { live := Dead(live, o, block); }
      }
    }

    /** `dealloc_inner` with any way to find a buddy: an allocated block is never refused, and
        the accounts balance whichever blocks are merged. */
    method DeallocWith(addr: nat, size: nat, align: nat, find: Finder) returns (r: DeallocResult)
      requires Valid()
      modifies `lists, `allocatedSize, `live
      ensures r == Oom <==> Rounded(minLog2, size, align) > heapSize
      ensures r == WrongBuddy <==> FreeStops(minLog2, heapSize, old(lists), addr, size, align, find, WrongList)
      ensures r == Freed <==> FreeStops(minLog2, heapSize, old(lists), addr, size, align, find, Pushed)
      ensures r == Freed || r == WrongBuddy ==>
                var o := OrderFor(minLog2, size, align);
                o <= |old(lists)| && lists == FreedLists(old(lists), Asked(minLog2, addr, size, align), o, find)
      ensures r != Freed ==> live == old(live) && allocatedSize == old(allocatedSize)
      ensures old(IsLive(addr, size, align)) ==> r != Oom && (r == Freed ==> Valid())
      ensures old(IsLive(addr, size, align)) && r == Freed ==>
                live == Dead(old(live), OrderFor(minLog2, size, align), Asked(minLog2, addr, size, align))
    {
      var s := SizeFor(size, align);
      var o := OrderFor(minLog2, size, align);
      if IsLive(addr, size, align) {
        assert s.Some? by { LiveFitsHeap(lists, live, o, Asked(minLog2, addr, size, align)); }
      }
      if s.None? { return Oom; }
      if o > |lists| { return DeallocPanic; }
      var stop := FreeBlock(Region(addr, s.value), o, find);
      match stop
      case Pushed => r := Freed;
      case WrongList => r := WrongBuddy;
      case PastLists => r := DeallocPanic;
    }

    /** Frees a block with the layout it was allocated with. In a heap whose blocks are apart
        this succeeds, merges nothing and leaves the blocks apart exactly if no free block starts
        at the flipped address; if one does it is of a smaller order, and nothing is freed. */
    method DeallocInner(addr: nat, size: nat, align: nat) returns (r: DeallocResult)
      requires Valid()
      modifies `lists, `allocatedSize, `live
      ensures r == Oom <==> Rounded(minLog2, size, align) > heapSize
      ensures r == WrongBuddy <==>
              FreeStops(minLog2, heapSize, old(lists), addr, size, align, TakeBuddy(base), WrongList)
      ensures old(IsLive(addr, size, align)) ==> r != Oom && (r == Freed ==> Valid())
      ensures old(IsLive(addr, size, align) && Exclusive(lists, live)) ==>
                var o := OrderFor(minLog2, size, align);
                var block := Asked(minLog2, addr, size, align);
                && o < |old(lists)| == |old(live)| && Valid() && Exclusive(lists, live)
                && r == (if Meets(base, old(lists), block, o) then WrongBuddy else Freed)
                && lists == (if r == Freed then old(lists)[o := [block] + old(lists)[o]] else old(lists))
                && live == (if r == Freed then Dead(old(live), o, block) else old(live))
      ensures old(IsLive(addr, size, align) && Exclusive(lists, live)) && OrderFor(minLog2, size, align) < minLog2 ==>
                r == Freed
      ensures old(IsLive(addr, size, align) && Exclusive(lists, live) && Gridded()) ==> r == Freed && Gridded()
    {
      if IsLive(addr, size, align) && Exclusive(lists, live) {
        ghost var o := OrderFor(minLog2, size, align);
        ghost var block := Asked(minLog2, addr, size, align);
        NothingMerged(minLog2, base, lists, live, block, o);
        if o < minLog2 && base != USIZE_MAX { SmallNeverMeets(minLog2, base, lists, block, o); }
        if Gridded() { GridFrees(minLog2, base, lists, live, block, o); }
      }
      r := DeallocWith(addr, size, align, TakeBuddy(base));
    }
  }

  /** Carving moves the whole region onto the lists, but for the bytes that are less than a
      smallest block. */
  lemma CarvedTotal(f: Region -> int, m: nat, lists: Lists, base: nat, size: nat)
    requires Carvable(m, |lists|, size) && Additive(f)
    ensures size % Pow(m) <= size
    ensures TotalAll(f, PushAll(m, lists, Tiles(m, base, size))) ==
            TotalAll(f, lists) + f(Region(base, size - size % Pow(m)))
  {
    CarvableFits(m, lists, base, size);
    PushAllTotal(f, m, lists, Tiles(m, base, size));
    TilesCover(f, m, base, size);
  }

  /** A region that was in no block can be added without making blocks overlap. */
  lemma CarvedExclusive(m: nat, lists: Lists, live: Lists, base: nat, size: nat)
    requires Carvable(m, |lists|, size) && Exclusive(lists, live)
    requires Uncovered(lists, live, base, size)
    ensures Exclusive(PushAll(m, lists, Tiles(m, base, size)), live)
  {
    var lists' := PushAll(m, lists, Tiles(m, base, size));
    forall a ensures TotalAll(Cover(a), lists') + TotalAll(Cover(a), live) <= 1 {
      MeasuresAdditive(a);
      CarvedTotal(Cover(a), m, lists, base, size);
    }
  }

  /** What one turn leaves of a region. */
  function Rest(m: nat, base: nat, size: nat): Option<Region> {
    if size < Cut(size) + Pow(m) then None else Some(Region(base + Cut(size), size - Cut(size)))
  }

  /** The blocks still to be cut. */
  function Pending(m: nat, base: nat, next: Option<Region>): seq<Region> {
    if next.None? then [] else Tiles(m, base, next.value.size)
  }

  lemma CarveLoop(m: nat, lists: Lists, base: nat, size: nat)
    requires m >= 1
    ensures size >= 1 ==> Cut(size) >= 1
    ensures Carvable(m, |lists|, size) ==>
              var rest := Rest(m, base, size);
              && size >= 1 && Fits(m, lists, Region(base, Cut(size)))
              && PushAll(m, lists, Tiles(m, base, size)) ==
                 PushAll(m, Push(m, lists, Region(base, Cut(size))), Pending(m, base + Cut(size), rest))
              && (rest.Some? ==> Carvable(m, |lists|, rest.value.size))
    ensures !Carvable(m, |lists|, size) && size >= 1 && Fits(m, lists, Region(base, Cut(size))) ==>
              Rest(m, base, size).Some? && !Carvable(m, |lists|, Rest(m, base, size).value.size)
  {
    if size >= 1 { CutValue(size); }
    if Carvable(m, |lists|, size) {
      CarveStep(m, |lists|, size);
      PendingStep(m, base, size);
    } else if size >= 1 && Fits(m, lists, Region(base, Cut(size))) {
      CarveFails(m, |lists|, size);
    }
  }

  lemma PendingStep(m: nat, base: nat, size: nat)
    requires size >= Pow(m) && Cut(size) == Pow(FloorLog(size)) <= size
    ensures Tiles(m, base, size) == [Region(base, Cut(size))] + Pending(m, base + Cut(size), Rest(m, base, size))
  {
  }

  lemma NextAligned(m: nat, base: nat, size: nat)
    ensures size >= 1 && OrderOf(m, Cut(size)) >= 0 ==>
              var next := AlignUp(base, Pow(m)) + Cut(size); AlignUp(next, Pow(m)) == next
  {
    if size >= 1 && OrderOf(m, Cut(size)) >= 0 {
      CutSized(m, size);
      AlignUpAligned(base, Pow(m));
      ModAdd(AlignUp(base, Pow(m)), Cut(size), Pow(m));
    }
  }

  // ---- Splitting a block down ----

  /** The back half of a block of order `j + 1`. */
  function Remainder(m: nat, base: nat, j: nat): Region {
    Region(base + Pow(m + j), Pow(m + j))
  }

  /** What `split_down` leaves on the lists: one remainder on each order from `lo` to below `hi`. */
  function Split(m: nat, lists: Lists, base: nat, lo: nat, hi: nat): (r: Lists)
    ensures |r| == |lists|
  {
    seq(|lists|, (j: nat) requires j < |lists| =>
      if lo <= j < hi then [Remainder(m, base, j)] + lists[j] else lists[j])
  }

  lemma SplitStep(m: nat, lists: Lists, base: nat, lo: nat, hi: nat)
    requires lo < hi <= |lists|
    ensures var p, before := Pow(m + hi - 1), Split(m, lists, base, lo, hi - 1);
            Split(m, lists, base, lo, hi) == before[hi - 1 := [Region(base + p, p)] + before[hi - 1]]
  {
  }

  lemma TwoHalves(f: Region -> int, base: nat, p: nat)
    requires Additive(f)
    ensures f(Region(base, 2 * p)) == f(Region(base, p)) + f(Region(base + p, p))
  {
    var whole := Region(base, 2 * p);
    assert f(whole) == f(Front(whole, p)) + f(Back(whole, p));
  }

  /** The block and its remainders are the block that was split. */
  lemma {:induction false} SplitTotal(f: Region -> int, m: nat, lists: Lists, base: nat, lo: nat, hi: nat)
    requires Additive(f) && lo <= hi <= |lists|
    ensures TotalAll(f, Split(m, lists, base, lo, hi)) + f(Region(base, Pow(m + lo))) ==
            TotalAll(f, lists) + f(Region(base, Pow(m + hi)))
    decreases hi
  {
    if lo == hi {
      assert Split(m, lists, base, lo, hi) == lists;
    } else {
      var p := Pow(m + hi - 1);
      var before, other := Split(m, lists, base, lo, hi - 1), Region(base + p, p);
      SplitTotal(f, m, lists, base, lo, hi - 1);
      SplitStep(m, lists, base, lo, hi);
      TotalUpdate(f, before, hi - 1, [other] + before[hi - 1]);
      TotalPush(f, other, before[hi - 1]);
      TwoHalves(f, base, p);
    }
  }

  lemma AlignedAbove(m: nat, base: nat, j: nat)
    requires Aligned(m, base)
    ensures Aligned(m, Remainder(m, base, j).base)
  {
    ModBelow(m, m + j);
    ModAdd(base, Pow(m + j), Pow(m));
  }

  lemma SplitSized(m: nat, b: nat, lists: Lists, base: nat, lo: nat, hi: nat)
    requires Sized(m, b, lists) && base >= b && Aligned(m, base)
    ensures Sized(m, b, Split(m, lists, base, lo, hi))
  {
    var split: Lists := Split(m, lists, base, lo, hi);
    forall i, k | 0 <= i < |split| && 0 <= k < |split[i]|
      ensures split[i][k].size == Pow(m + i) && split[i][k].base >= b && Aligned(m, split[i][k].base)
    {
      AlignedAbove(m, base, i);
      assert split[i][k] in lists[i] || split[i][k] == Remainder(m, base, i);
    }
  }

  // ---- Allocation ----

  datatype AllocResult = Block(region: Region) | NoMemory | AllocPanic

  /** The first order from `o` on that has a free block, or the number of lists. */
  function FirstFit(lists: Lists, o: nat): (k: nat)
    requires o <= |lists|
    ensures o <= k <= |lists| && (forall j | o <= j < k :: lists[j] == []) && (k < |lists| ==> lists[k] != [])
    decreases |lists| - o
  {
    if o == |lists| || lists[o] != [] then o else FirstFit(lists, o + 1)
  }

  /** The lists after the last block of list `k` was split down to order `o`. */
  function Taken(m: nat, lists: Lists, o: nat, k: nat): Lists
    requires o <= k < |lists| && lists[k] != []
  {
    var n := |lists[k]| - 1;
    Split(m, lists[k := lists[k][..n]], lists[k][n].base, o, k)
  }

  function TakenBlock(m: nat, lists: Lists, o: nat, k: nat): Region
    requires k < |lists| && lists[k] != []
  {
    Region(lists[k][|lists[k]| - 1].base, Pow(m + o))
  }

  /** Whatever is measured, the lists lose exactly the block handed out. */
  lemma TakenTotal(f: Region -> int, m: nat, b: nat, lists: Lists, o: nat, k: nat)
    requires Additive(f) && Sized(m, b, lists) && o <= k < |lists| && lists[k] != []
    ensures TotalAll(f, Taken(m, lists, o, k)) + f(TakenBlock(m, lists, o, k)) == TotalAll(f, lists)
  {
    var n := |lists[k]| - 1;
    var r := lists[k][n];
    assert r == Region(r.base, Pow(m + k));
    SplitTotal(f, m, lists[k := lists[k][..n]], r.base, o, k);
    TotalUpdate(f, lists, k, lists[k][..n]);
    TotalLast(f, lists[k]);
  }

  lemma TotalLast(f: Region -> int, s: seq<Region>)
    requires s != []
    ensures Total(f, s) == Total(f, s[..|s| - 1]) + f(s[|s| - 1])
  {
    TotalConcat(f, s[..|s| - 1], [s[|s| - 1]]);
    assert s == s[..|s| - 1] + [s[|s| - 1]];
  }

  lemma LiveTotal(f: Region -> int, live: Lists, o: nat, r: Region)
    requires o < |live|
    ensures TotalAll(f, live[o := live[o] + [r]]) == TotalAll(f, live) + f(r)
  {
    TotalUpdate(f, live, o, live[o] + [r]);
    TotalConcat(f, live[o], [r]);
  }

  lemma TakenKeeps(m: nat, b: nat, lists: Lists, live: Lists, o: nat, k: nat)
    requires Sized(m, b, lists) && Sized(m, b, live) && |live| == |lists| && o <= k < |lists| && lists[k] != []
    ensures var r := TakenBlock(m, lists, o, k);
            var lists', live' := Taken(m, lists, o, k), live[o := live[o] + [r]];
            && Sized(m, b, lists') && Sized(m, b, live') && |lists'| == |lists|
            && TotalAll(Bytes(), lists') + r.size == TotalAll(Bytes(), lists)
            && TotalAll(Bytes(), live') == TotalAll(Bytes(), live) + r.size
            && (Exclusive(lists, live) ==> Exclusive(lists', live'))
  {
    var r := TakenBlock(m, lists, o, k);
    var lists', live' := Taken(m, lists, o, k), live[o := live[o] + [r]];
    SplitSized(m, b, lists[k := lists[k][..|lists[k]| - 1]], r.base, o, k);
    MeasuresAdditive(0);
    TakenTotal(Bytes(), m, b, lists, o, k);
    LiveTotal(Bytes(), live, o, r);
    if Exclusive(lists, live) {
      forall a ensures TotalAll(Cover(a), lists') + TotalAll(Cover(a), live') <= 1 {
        MeasuresAdditive(a);
        TakenTotal(Cover(a), m, b, lists, o, k);
        LiveTotal(Cover(a), live, o, r);
      }
    }
  }

  lemma {:induction false} EmptyTotal(f: Region -> int, lists: Lists)
    requires forall i | 0 <= i < |lists| :: lists[i] == []
    ensures TotalAll(f, lists) == 0
  {
    if lists != [] { EmptyTotal(f, lists[1..]); }
  }

  // ---- Coalescing ----

  /** What is read at an address: the header of a free block, known by its list and its place
      there, or something else. */
  datatype Header = NotFree | FreeAt(list: nat, pos: nat)

  /** The header that `take_buddy` meets for a block of some order. */
  type Finder = (Region, nat, Lists) -> Header

  function Found(find: Finder, r: Region, o: nat, lists: Lists): (h: Header)
    ensures h.FreeAt? ==> h.list < |lists| && h.pos < |lists[h.list]|
  {
    var h := find(r, o, lists);
    if h.FreeAt? && h.list < |lists| && h.pos < |lists[h.list]| then h else NotFree
  }

  /** A free block of the order itself is met, so the two are merged. */
  predicate Merges(find: Finder, r: Region, o: nat, lists: Lists) {
    o < |lists| && Found(find, r, o, lists).FreeAt? && Found(find, r, o, lists).list == o
  }

  function BuddyOf(find: Finder, r: Region, o: nat, lists: Lists): (b: Region)
    requires Merges(find, r, o, lists)
    ensures b in lists[o]
  {
    lists[o][Found(find, r, o, lists).pos]
  }

  function LessBuddy(find: Finder, r: Region, o: nat, lists: Lists): (l: Lists)
    requires Merges(find, r, o, lists)
    ensures |l| == |lists|
  {
    lists[o := Without(lists[o], Found(find, r, o, lists).pos)]
  }

  /** How the loop of `dealloc_inner` ends: with the block on a list, at the header of a free
      block of another order, or behind the last list. */
  datatype Stop = Pushed | WrongList | PastLists

  datatype Merged = Merged(lists: Lists, block: Region, order: nat, stop: Stop)

  /** The lists, the merged block and its order where merging ends. */
  function Coalesce(lists: Lists, r: Region, o: nat, find: Finder): (c: Merged)
    requires o <= |lists|
    ensures |c.lists| == |lists| && o <= c.order <= |lists| && (c.stop == PastLists <==> c.order == |lists|)
    decreases |lists| - o
  {
    if o == |lists| then Merged(lists, r, o, PastLists)
    else if Merges(find, r, o, lists) then
      Coalesce(LessBuddy(find, r, o, lists), Merge(r, BuddyOf(find, r, o, lists)), o + 1, find)
    else
      Merged(lists, r, o, if Found(find, r, o, lists).FreeAt? then WrongList else Pushed)
  }

  /** Merging along the way adds up under the measure. */
  ghost predicate MergesAdd(f: Region -> int, lists: Lists, r: Region, o: nat, find: Finder)
    requires o <= |lists|
    decreases |lists| - o
  {
    Merges(find, r, o, lists) ==>
      var buddy := BuddyOf(find, r, o, lists);
      && f(Merge(r, buddy)) == f(r) + f(buddy)
      && MergesAdd(f, LessBuddy(find, r, o, lists), Merge(r, buddy), o + 1, find)
  }

  lemma {:induction false} CoalesceTotal(f: Region -> int, lists: Lists, r: Region, o: nat, find: Finder)
    requires o <= |lists| && MergesAdd(f, lists, r, o, find)
    ensures var c := Coalesce(lists, r, o, find);
            TotalAll(f, c.lists) + f(c.block) == TotalAll(f, lists) + f(r)
    decreases |lists| - o
  {
    if Merges(find, r, o, lists) {
      var k := Found(find, r, o, lists).pos;
      CoalesceTotal(f, LessBuddy(find, r, o, lists), Merge(r, BuddyOf(find, r, o, lists)), o + 1, find);
      TotalUpdate(f, lists, o, Without(lists[o], k));
      TotalWithout(f, lists[o], k);
    }
  }

  /** Bytes add up whichever block is taken for the buddy. */
  lemma {:induction false} BytesMerge(lists: Lists, r: Region, o: nat, find: Finder)
    requires o <= |lists|
    ensures MergesAdd(Bytes(), lists, r, o, find)
    decreases |lists| - o
  {
    if Merges(find, r, o, lists) {
      BytesMerge(LessBuddy(find, r, o, lists), Merge(r, BuddyOf(find, r, o, lists)), o + 1, find);
    }
  }

  /** Every buddy that is merged lies next to the block. */
  ghost predicate Adjacent(lists: Lists, r: Region, o: nat, find: Finder)
    requires o <= |lists|
    decreases |lists| - o
  {
    Merges(find, r, o, lists) ==>
      var buddy := BuddyOf(find, r, o, lists);
      && (r.base + r.size == buddy.base || buddy.base + buddy.size == r.base)
      && Adjacent(LessBuddy(find, r, o, lists), Merge(r, buddy), o + 1, find)
  }

  lemma {:induction false} AdjacentMerge(f: Region -> int, lists: Lists, r: Region, o: nat, find: Finder)
    requires o <= |lists| && Additive(f) && Adjacent(lists, r, o, find)
    ensures MergesAdd(f, lists, r, o, find)
    decreases |lists| - o
  {
    if Merges(find, r, o, lists) {
      var buddy := BuddyOf(find, r, o, lists);
      MergeNeighbours(f, r, buddy);
      AdjacentMerge(f, LessBuddy(find, r, o, lists), Merge(r, buddy), o + 1, find);
    }
  }

  lemma MergeNeighbours(f: Region -> int, r: Region, s: Region)
    requires Additive(f) && (r.base + r.size == s.base || s.base + s.size == r.base)
    ensures f(Merge(r, s)) == f(r) + f(s)
  {
    var whole := Merge(r, s);
    if r.base + r.size == s.base {
      assert f(whole) == f(Front(whole, r.size)) + f(Back(whole, r.size));
    } else {
      assert f(whole) == f(Front(whole, s.size)) + f(Back(whole, s.size));
    }
  }

  lemma MergeSized(m: nat, b: nat, lists: Lists, r: Region, o: nat, find: Finder)
    requires Merges(find, r, o, lists) && Sized(m, b, lists) && r.size == Pow(m + o) && r.base >= b && Aligned(m, r.base)
    ensures Sized(m, b, LessBuddy(find, r, o, lists))
    ensures var merged := Merge(r, BuddyOf(find, r, o, lists));
            merged.size == Pow(m + (o + 1)) && merged.base >= b && Aligned(m, merged.base)
  {
  }

  lemma {:induction false} CoalesceSized(m: nat, b: nat, lists: Lists, r: Region, o: nat, find: Finder)
    requires o <= |lists| && Sized(m, b, lists) && r.size == Pow(m + o) && r.base >= b && Aligned(m, r.base)
    ensures var c := Coalesce(lists, r, o, find);
            Sized(m, b, c.lists) && c.block.size == Pow(m + c.order) && c.block.base >= b && Aligned(m, c.block.base)
    decreases |lists| - o
  {
    if Merges(find, r, o, lists) {
      MergeSized(m, b, lists, r, o, find);
      CoalesceSized(m, b, LessBuddy(find, r, o, lists), Merge(r, BuddyOf(find, r, o, lists)), o + 1, find);
    }
  }

  /** Merging can only run past the last list if every list from the block's order on has a
      block. */
  lemma {:induction false} RunsPast(lists: Lists, r: Region, o: nat, find: Finder)
    requires o <= |lists| && Coalesce(lists, r, o, find).stop == PastLists
    ensures forall j | o <= j < |lists| :: lists[j] != []
    decreases |lists| - o
  {
    if o < |lists| {
      var lists' := LessBuddy(find, r, o, lists);
      RunsPast(lists', Merge(r, BuddyOf(find, r, o, lists)), o + 1, find);
      forall j | o <= j < |lists| ensures lists[j] != [] { assert j > o ==> lists[j] == lists'[j]; }
    }
  }

  // ---- Deallocation ----

  /** `WrongBuddy`: the debug assertion that a buddy has the size of the order fails. */
  datatype DeallocResult = Freed | Oom | DeallocPanic | WrongBuddy

  /** The lists after a block was merged and, if nothing stopped it, pushed. */
  function FreedLists(lists: Lists, r: Region, o: nat, find: Finder): Lists
    requires o <= |lists|
  {
    var c := Coalesce(lists, r, o, find);
    if c.stop == Pushed then c.lists[c.order := [c.block] + c.lists[c.order]] else c.lists
  }

  /** The layout is not refused, and merging ends this way. */
  predicate FreeStops(m: nat, heapSize: nat, lists: Lists, addr: nat, size: nat, align: nat, find: Finder, stop: Stop) {
    var o := OrderFor(m, size, align);
    && Rounded(m, size, align) <= heapSize && o <= |lists|
    && Coalesce(lists, Asked(m, addr, size, align), o, find).stop == stop
  }

  lemma FreedTotal(f: Region -> int, lists: Lists, r: Region, o: nat, find: Finder)
    requires o <= |lists| && MergesAdd(f, lists, r, o, find) && Coalesce(lists, r, o, find).stop == Pushed
    ensures TotalAll(f, FreedLists(lists, r, o, find)) == TotalAll(f, lists) + f(r)
  {
    var c := Coalesce(lists, r, o, find);
    CoalesceTotal(f, lists, r, o, find);
    TotalUpdate(f, c.lists, c.order, [c.block] + c.lists[c.order]);
    TotalPush(f, c.block, c.lists[c.order]);
  }

  ghost function Dead(live: Lists, o: nat, r: Region): Lists
    requires o < |live| && r in live[o]
  {
    live[o := Without(live[o], IndexIn(live[o], r))]
  }

  lemma DeadTotal(f: Region -> int, live: Lists, o: nat, r: Region)
    requires o < |live| && r in live[o]
    ensures TotalAll(f, Dead(live, o, r)) == TotalAll(f, live) - f(r)
  {
    var k := IndexIn(live[o], r);
    TotalUpdate(f, live, o, Without(live[o], k));
    TotalWithout(f, live[o], k);
  }

  lemma PushedSized(m: nat, b: nat, lists: Lists, r: Region, k: nat)
    requires k < |lists| && Sized(m, b, lists) && r.size == Pow(m + k) && r.base >= b && Aligned(m, r.base)
    ensures Sized(m, b, lists[k := [r] + lists[k]])
  {
  }

  lemma FreedSized(m: nat, b: nat, lists: Lists, r: Region, o: nat, find: Finder)
    requires o <= |lists| && Sized(m, b, lists) && r.size == Pow(m + o) && r.base >= b && Aligned(m, r.base)
    ensures Sized(m, b, FreedLists(lists, r, o, find))
  {
    var c := Coalesce(lists, r, o, find);
    CoalesceSized(m, b, lists, r, o, find);
    if c.stop == Pushed { PushedSized(m, b, c.lists, c.block, c.order); }
  }

  lemma DeadSized(m: nat, b: nat, live: Lists, o: nat, r: Region)
    requires Sized(m, b, live) && o < |live| && r in live[o]
    ensures Sized(m, b, Dead(live, o, r)) && r.size == Pow(m + o) && r.base >= b && Aligned(m, r.base)
  {
  }

  /** Freeing an allocated block keeps blocks apart if the buddies that are merged are neighbours. */
  lemma FreedExclusive(lists: Lists, live: Lists, r: Region, o: nat, find: Finder)
    requires |live| == |lists| && o < |live| && r in live[o] && Coalesce(lists, r, o, find).stop == Pushed
    requires Exclusive(lists, live) && Adjacent(lists, r, o, find)
    ensures Exclusive(FreedLists(lists, r, o, find), Dead(live, o, r))
  {
    var lists', live' := FreedLists(lists, r, o, find), Dead(live, o, r);
    forall a ensures TotalAll(Cover(a), lists') + TotalAll(Cover(a), live') <= 1 {
      MeasuresAdditive(a);
      AdjacentMerge(Cover(a), lists, r, o, find);
      FreedTotal(Cover(a), lists, r, o, find);
      DeadTotal(Cover(a), live, o, r);
    }
  }

  /** Freeing an allocated block keeps the accounts, whichever buddies are merged. */
  lemma FreedKeeps(m: nat, b: nat, lists: Lists, live: Lists, r: Region, o: nat, find: Finder)
    requires Sized(m, b, lists) && Sized(m, b, live) && |live| == |lists| && o < |live| && r in live[o]
    requires Coalesce(lists, r, o, find).stop == Pushed
    ensures var lists', live' := FreedLists(lists, r, o, find), Dead(live, o, r);
            && Sized(m, b, lists') && Sized(m, b, live')
            && TotalAll(Bytes(), lists') == TotalAll(Bytes(), lists) + r.size
            && TotalAll(Bytes(), live') == TotalAll(Bytes(), live) - r.size
  {
    DeadSized(m, b, live, o, r);
    FreedSized(m, b, lists, r, o, find);
    BytesMerge(lists, r, o, find);
    FreedTotal(Bytes(), lists, r, o, find);
    DeadTotal(Bytes(), live, o, r);
  }

  /** A live block is no larger than the heap, so its layout is never refused. */
  lemma LiveFitsHeap(lists: Lists, live: Lists, o: nat, r: Region)
    requires o < |live| && r in live[o]
    ensures r.size <= TotalAll(Bytes(), live) + TotalAll(Bytes(), lists)
  {
    DeadTotal(Bytes(), live, o, r);
    TotalAllAtLeastZero(Bytes(), Dead(live, o, r));
    TotalAllAtLeastZero(Bytes(), lists);
  }

  // ---- The buddy that the source looks for ----

  /** A number with one bit flipped, as `^ (1 << k)` does. */
  function Flip(n: nat, k: nat): int {
    if Bit(n, k) then n - Pow(k) else n + Pow(k)
  }

  /** The block of a list at an address. */
  function BlockAt(list: seq<Region>, addr: int): (k: Option<nat>)
    ensures k.Some? ==> k.value < |list| && list[k.value].base == addr
    ensures k.None? ==> forall i | 0 <= i < |list| :: list[i].base != addr
  {
    if list == [] then None
    else if list[0].base == addr then Some(0)
    else
      var k := BlockAt(list[1..], addr);
      if k.None? then None else Some(k.value + 1)
  }

  /** The header of a free block at an address, whichever list the block is on. */
  function HeaderAt(lists: Lists, addr: int): (h: Header)
    ensures h.FreeAt? ==> h.list < |lists| && h.pos < |lists[h.list]| && lists[h.list][h.pos].base == addr
    ensures h.NotFree? ==> !StartsAt(lists, addr)
  {
    if lists == [] then NotFree else
      var last := |lists| - 1;
      var k := BlockAt(lists[last], addr);
      if k.Some? then FreeAt(last, k.value) else HeaderAt(lists[..last], addr)
  }

  /** Some free block starts at the address. */
  predicate StartsAt(lists: Lists, addr: int) {
    exists j, k :: 0 <= j < |lists| && 0 <= k < |lists[j]| && lists[j][k].base == addr
  }

  /** `take_buddy`: flips bit `order` of the offset of the block from the base of the heap, and
      reads what is at that address. */
  function TakeBuddy(base: nat): Finder {
    (r: Region, o: nat, lists: Lists) =>
      if base == USIZE_MAX || r.base < base then NotFree else HeaderAt(lists, base + Flip(r.base - base, o))
  }

  /** Bit `o` of the offset is set, and a free block starts `2^o` below. */
  predicate Meets(base: nat, lists: Lists, r: Region, o: nat) {
    base != USIZE_MAX && r.base >= base && Bit(r.base - base, o) && StartsAt(lists, r.base - Pow(o))
  }

  lemma {:induction false} MemberTotal(f: Region -> int, s: seq<Region>, k: nat)
    requires k < |s| && forall r :: f(r) >= 0
    ensures Total(f, s) >= f(s[k])
  {
    if k == 0 { TotalAtLeastZero(f, s[1..]); } else { MemberTotal(f, s[1..], k - 1); }
  }

  lemma {:induction false} TotalAtLeastZero(f: Region -> int, s: seq<Region>)
    requires forall r :: f(r) >= 0
    ensures Total(f, s) >= 0
  {
    if s != [] { TotalAtLeastZero(f, s[1..]); }
  }

  lemma {:induction false} MemberTotalAll(f: Region -> int, lists: Lists, o: nat, k: nat)
    requires o < |lists| && k < |lists[o]| && forall r :: f(r) >= 0
    ensures TotalAll(f, lists) >= f(lists[o][k])
  {
    if o == 0 {
      MemberTotal(f, lists[0], k);
      TotalAllAtLeastZero(f, lists[1..]);
    } else {
      TotalAtLeastZero(f, lists[0]);
      MemberTotalAll(f, lists[1..], o - 1, k);
    }
  }

  lemma {:induction false} TotalAllAtLeastZero(f: Region -> int, lists: Lists)
    requires forall r :: f(r) >= 0
    ensures TotalAll(f, lists) >= 0
  {
    if lists != [] {
      TotalAtLeastZero(f, lists[0]);
      TotalAllAtLeastZero(f, lists[1..]);
    }
  }

  /** Blocks that are apart share no address. */
  lemma ApartBlocks(free: Lists, live: Lists, o: nat, k: nat, o': nat, k': nat, a: int)
    requires Exclusive(free, live) && o < |free| && k < |free[o]| && o' < |live| && k' < |live[o']|
    ensures !(Contains(free[o][k], a) && Contains(live[o'][k'], a))
  {
    MemberTotalAll(Cover(a), free, o, k);
    MemberTotalAll(Cover(a), live, o', k');
    assert TotalAll(Cover(a), free) + TotalAll(Cover(a), live) <= 1;
  }

  lemma BuddyRead(b: nat, r: Region, o: nat, lists: Lists)
    ensures Found(TakeBuddy(b), r, o, lists) ==
            if b == USIZE_MAX || r.base < b then NotFree else HeaderAt(lists, b + Flip(r.base - b, o))
  {
  }

  lemma BuddyNear(b: nat, r: Region, o: nat, lists: Lists)
    ensures var h := Found(TakeBuddy(b), r, o, lists);
            h.FreeAt? ==>
              var buddy := lists[h.list][h.pos]; buddy.base == r.base + Pow(o) || buddy.base + Pow(o) == r.base
  {
    BuddyRead(b, r, o, lists);
  }

  /** The debug assertion on the size of a buddy asks whether it is on the list of the order. */
  lemma ListBySize(m: nat, b: nat, lists: Lists, o: nat, j: nat, k: nat)
    requires Sized(m, b, lists) && j < |lists| && k < |lists[j]|
    ensures lists[j][k].size == Pow(m + o) <==> j == o
  {
    if j < o { PowMono(m + j, m + o); }
    if o < j { PowMono(m + o, m + j); }
  }

  /** What is near: no block of any order starts at distance `2^o` above an allocated block of
      order `o`, which is longer, and one that starts at that distance below is shorter. */
  lemma NearBlocks(m: nat, b: nat, lists: Lists, live: Lists, r: Region, o: nat, j: nat, k: nat)
    requires m >= 1 && Sized(m, b, lists) && Sized(m, b, live) && |live| == |lists| && Exclusive(lists, live)
    requires o < |live| && r in live[o] && j < |lists| && k < |lists[j]|
    ensures lists[j][k].base != r.base + Pow(o)
    ensures lists[j][k].base == r.base - Pow(o) ==> m + j <= o
  {
    var i, free := IndexIn(live[o], r), lists[j][k];
    PowMono(o, m + o);
    ApartBlocks(lists, live, j, k, o, i, free.base);
    ApartBlocks(lists, live, j, k, o, i, r.base);
    if o < m + j { PowMono(o, m + j); }
  }

  /** For an allocated block of a heap whose blocks are apart, `take_buddy` meets a free header
      exactly if bit `o` of its offset is set and a free block starts `2^o` below; that block is
      of an order at least `m` smaller. */
  lemma HeaderMet(m: nat, b: nat, lists: Lists, live: Lists, r: Region, o: nat)
    requires m >= 1 && Sized(m, b, lists) && Sized(m, b, live) && |live| == |lists| && Exclusive(lists, live)
    requires o < |live| && r in live[o]
    ensures var h := Found(TakeBuddy(b), r, o, lists);
            && (h.FreeAt? <==> Meets(b, lists, r, o))
            && (h.FreeAt? ==> h.list + m <= o && lists[h.list][h.pos].base == r.base - Pow(o))
  {
    var h := Found(TakeBuddy(b), r, o, lists);
    FoundStarts(b, r, o, lists);
    if StartsAt(lists, r.base + Pow(o)) {
      var j, k :| 0 <= j < |lists| && 0 <= k < |lists[j]| && lists[j][k].base == r.base + Pow(o);
      NearBlocks(m, b, lists, live, r, o, j, k);
    }
    if h.FreeAt? { NearBlocks(m, b, lists, live, r, o, h.list, h.pos); }
  }

  lemma FoundStarts(b: nat, r: Region, o: nat, lists: Lists)
    ensures var h := Found(TakeBuddy(b), r, o, lists);
            && (Meets(b, lists, r, o) ==> h.FreeAt?)
            && (h.FreeAt? ==> Meets(b, lists, r, o) || StartsAt(lists, r.base + Pow(o)))
            && (h.FreeAt? ==> lists[h.list][h.pos].base in {r.base - Pow(o), r.base + Pow(o)})
  {
    BuddyRead(b, r, o, lists);
    if b != USIZE_MAX && r.base >= b { HeaderStarts(lists, b + Flip(r.base - b, o)); }
  }

  lemma HeaderStarts(lists: Lists, addr: int)
    ensures HeaderAt(lists, addr).FreeAt? <==> StartsAt(lists, addr)
  {
  }

  /** So freeing never merges: either the block goes to the front of the list of its order, with
      no address in two blocks, or it stops at the header of a smaller block. */
  lemma NothingMerged(m: nat, b: nat, lists: Lists, live: Lists, r: Region, o: nat)
    requires m >= 1 && Sized(m, b, lists) && Sized(m, b, live) && |live| == |lists| && Exclusive(lists, live)
    requires o < |live| && r in live[o]
    ensures Coalesce(lists, r, o, TakeBuddy(b)) ==
            Merged(lists, r, o, if Meets(b, lists, r, o) then WrongList else Pushed)
    ensures !Meets(b, lists, r, o) ==>
              && FreedLists(lists, r, o, TakeBuddy(b)) == lists[o := [r] + lists[o]]
              && Exclusive(lists[o := [r] + lists[o]], Dead(live, o, r))
  {
    HeaderMet(m, b, lists, live, r, o);
    if !Meets(b, lists, r, o) { FreedExclusive(lists, live, r, o, TakeBuddy(b)); }
  }

  /** What is split stays split: a block that was allocated from list `k` is freed again exactly
      if no free block was at the flipped address before. Then the lists are as they were if
      nothing was split (but for the block's place in its list), and list `k` is one block
      shorter if something was. */
  lemma FreeAfterAlloc(m: nat, b: nat, lists: Lists, live: Lists, o: nat, k: nat)
    requires m >= 1 && Sized(m, b, lists) && Sized(m, b, live) && |live| == |lists| && Exclusive(lists, live)
    requires o <= k < |lists| && lists[k] != []
    ensures var n, block, taken := |lists[k]| - 1, TakenBlock(m, lists, o, k), Taken(m, lists, o, k);
            var c, after := Coalesce(taken, block, o, TakeBuddy(b)), FreedLists(taken, block, o, TakeBuddy(b));
            && c.stop == (if Meets(b, lists, block, o) then WrongList else Pushed)
            && (c.stop == Pushed ==> after == taken[o := [block] + taken[o]])
            && (c.stop == Pushed ==>
                  if k == o then after == lists[k := [lists[k][n]] + lists[k][..n]] else after[k] == lists[k][..n])
  {
    var block := TakenBlock(m, lists, o, k);
    TakenKeeps(m, b, lists, live, o, k);
    assert live[o := live[o] + [block]][o][|live[o]|] == block;
    NothingMerged(m, b, Taken(m, lists, o, k), live[o := live[o] + [block]], block, o);
    TakenStarts(m, lists, o, k, block.base - Pow(o));
    TakenBack(m, b, lists, o, k);
  }

  lemma TakenBack(m: nat, b: nat, lists: Lists, o: nat, k: nat)
    requires Sized(m, b, lists) && o <= k < |lists| && lists[k] != []
    ensures var n, block, taken := |lists[k]| - 1, TakenBlock(m, lists, o, k), Taken(m, lists, o, k);
            var after := taken[o := [block] + taken[o]];
            if k == o then after == lists[k := [lists[k][n]] + lists[k][..n]] else after[k] == lists[k][..n]
  {
    TakenUnsplit(m, b, lists, k);
  }

  /** Below the block handed out, free blocks start where they did. */
  lemma TakenStarts(m: nat, lists: Lists, o: nat, k: nat, a: int)
    requires o <= k < |lists| && lists[k] != [] && a < TakenBlock(m, lists, o, k).base
    ensures StartsAt(Taken(m, lists, o, k), a) <==> StartsAt(lists, a)
  {
    var taken: Lists := Taken(m, lists, o, k);
    if StartsAt(lists, a) {
      var j, i :| 0 <= j < |lists| && 0 <= i < |lists[j]| && lists[j][i].base == a;
      TakenHas(m, lists, o, k, j, i);
    }
    if StartsAt(taken, a) {
      var j, i :| 0 <= j < |taken| && 0 <= i < |taken[j]| && taken[j][i].base == a;
      TakenFrom(m, lists, o, k, j, i);
    }
  }

  lemma TakenHas(m: nat, lists: Lists, o: nat, k: nat, j: nat, i: nat)
    requires o <= k < |lists| && lists[k] != [] && j < |lists| && i < |lists[j]|
    requires lists[j][i].base < TakenBlock(m, lists, o, k).base
    ensures StartsAt(Taken(m, lists, o, k), lists[j][i].base)
  {
    TakenAt(m, lists, o, k, j);
    var i' := if o <= j < k then i + 1 else i;
    assert Taken(m, lists, o, k)[j][i'] == lists[j][i];
  }

  lemma TakenFrom(m: nat, lists: Lists, o: nat, k: nat, j: nat, i: nat)
    requires o <= k < |lists| && lists[k] != [] && j < |lists| && i < |Taken(m, lists, o, k)[j]|
    requires Taken(m, lists, o, k)[j][i].base < TakenBlock(m, lists, o, k).base
    ensures StartsAt(lists, Taken(m, lists, o, k)[j][i].base)
  {
    TakenAt(m, lists, o, k, j);
    var i' := if o <= j < k then i - 1 else i;
    assert Taken(m, lists, o, k)[j][i] == lists[j][i'];
  }

  lemma TakenAt(m: nat, lists: Lists, o: nat, k: nat, j: nat)
    requires o <= k < |lists| && lists[k] != [] && j < |lists|
    ensures var n := |lists[k]| - 1;
            Taken(m, lists, o, k)[j] ==
            if o <= j < k then [Remainder(m, lists[k][n].base, j)] + lists[j]
            else if j == k then lists[k][..n]
            else lists[j]
  {
  }

  lemma TakenUnsplit(m: nat, b: nat, lists: Lists, k: nat)
    requires Sized(m, b, lists) && k < |lists| && lists[k] != []
    ensures var n := |lists[k]| - 1;
            Taken(m, lists, k, k) == lists[k := lists[k][..n]] && TakenBlock(m, lists, k, k) == lists[k][n]
  {
  }

  // ---- Heaps in which every free succeeds ----

  /** The block lies at a multiple of its size from the base of the heap. */
  predicate Placed(b: nat, r: Region) {
    r.size > 0 && r.base >= b && (r.base - b) % r.size == 0
  }

  ghost predicate OnGrid(b: nat, lists: Lists) {
    forall i, k | 0 <= i < |lists| && 0 <= k < |lists[i]| :: Placed(b, lists[i][k])
  }

  /** Blocks lie on the grid of the base, and so does a region of this size. */
  ghost predicate GridFor(b: nat, lists: Lists, live: Lists, at: nat, size: nat) {
    && OnGrid(b, lists) && OnGrid(b, live)
    && b <= at && size >= 1 && (at - b) % Pow(FloorLog(size)) == 0
  }

  function Min(x: nat, y: nat): nat {
    if y < x then y else x
  }

  lemma ModDown(x: nat, j: nat, k: nat)
    requires j <= k && x % Pow(k) == 0
    ensures x % Pow(j) == 0
  {
    PowSum(k - j, j);
    FactorMod(x, Pow(k - j), Pow(j));
  }

  lemma GridBit(off: nat, m: nat, o: nat)
    requires m > o && off % Pow(m) == 0
    ensures !Bit(off, o)
  {
    PowSum(m - o, o);
    EvenQuotient(off, Pow(m - o - 1), Pow(o));
  }

  /** Blocks smaller than the square of the smallest block meet no header. */
  lemma SmallNeverMeets(m: nat, b: nat, lists: Lists, r: Region, o: nat)
    requires o < m && Aligned(m, r.base) && Aligned(m, b)
    ensures !Meets(b, lists, r, o)
  {
    if r.base >= b {
      AlignedOffset(m, b, r.base);
      GridBit(r.base - b, m, o);
    }
  }

  lemma AlignedOffset(m: nat, b: nat, base: nat)
    requires Aligned(m, base) && Aligned(m, b) && b <= base
    ensures (base - b) % Pow(m) == 0
  {
    ModAdd(base - b, b, Pow(m));
  }

  /** Nor does a block on the grid, whatever its order, and freeing it leaves the blocks there. */
  lemma GridFrees(m: nat, b: nat, lists: Lists, live: Lists, r: Region, o: nat)
    requires m >= 1 && Sized(m, b, live) && |live| == |lists| && o < |live| && r in live[o]
    requires OnGrid(b, lists) && OnGrid(b, live)
    ensures !Meets(b, lists, r, o)
    ensures OnGrid(b, lists[o := [r] + lists[o]]) && OnGrid(b, Dead(live, o, r))
  {
    GridBit(r.base - b, m + o, o);
  }

  lemma {:induction false} TilesGrid(m: nat, b: nat, base: nat, size: nat, i: nat)
    requires b <= base && size >= 1 && (base - b) % Pow(FloorLog(size)) == 0 && i < |Tiles(m, base, size)|
    ensures Placed(b, Tiles(m, base, size)[i])
    decreases size
  {
    var f := FloorLog(size);
    var p := Pow(f);
    TopFalls(size);
    if i > 0 {
      ModAdd(base - b, p, p);
      ModDown(base + p - b, FloorLog(size - p), f);
      TilesGrid(m, b, base + p, size - p, i - 1);
    }
  }

  lemma PushGrid(m: nat, b: nat, lists: Lists, r: Region)
    requires OnGrid(b, lists) && Placed(b, r)
    ensures OnGrid(b, Push(m, lists, r))
  {
  }

  lemma {:induction false} PushAllGrid(m: nat, b: nat, lists: Lists, blocks: seq<Region>)
    requires OnGrid(b, lists) && forall i | 0 <= i < |blocks| :: Placed(b, blocks[i])
    ensures OnGrid(b, PushAll(m, lists, blocks))
    decreases |blocks|
  {
    if blocks != [] {
      PushGrid(m, b, lists, blocks[0]);
      PushAllGrid(m, b, Push(m, lists, blocks[0]), blocks[1..]);
    }
  }

  /** Carving a region that starts on the grid gives blocks on the grid. */
  lemma CarvedGrid(m: nat, b: nat, lists: Lists, base: nat, size: nat)
    requires OnGrid(b, lists) && b <= base && size >= 1 && (base - b) % Pow(FloorLog(size)) == 0
    ensures OnGrid(b, PushAll(m, lists, Tiles(m, base, size)))
  {
    var tiles := Tiles(m, base, size);
    forall i | 0 <= i < |tiles| ensures Placed(b, tiles[i]) { TilesGrid(m, b, base, size, i); }
    PushAllGrid(m, b, lists, tiles);
  }

  lemma RemainderPlaced(m: nat, b: nat, base: nat, j: nat, k: nat)
    requires j <= k && Placed(b, Region(base, Pow(m + k)))
    ensures Placed(b, Region(base, Pow(m + j))) && Placed(b, Remainder(m, base, j))
  {
    ModDown(base - b, m + j, m + k);
    ModAdd(base - b, Pow(m + j), Pow(m + j));
  }

  lemma SplitGrid(m: nat, b: nat, lists: Lists, base: nat, lo: nat, hi: nat)
    requires OnGrid(b, lists) && Placed(b, Region(base, Pow(m + hi)))
    ensures OnGrid(b, Split(m, lists, base, lo, hi))
  {
    var split: Lists := Split(m, lists, base, lo, hi);
    forall i, k | 0 <= i < |split| && 0 <= k < |split[i]| ensures Placed(b, split[i][k]) {
      if i < hi { RemainderPlaced(m, b, base, i, hi); }
      assert split[i][k] in lists[i] || (i < hi && split[i][k] == Remainder(m, base, i));
    }
  }

  /** Splitting keeps blocks on the grid. */
  lemma TakenGrid(m: nat, b: nat, lists: Lists, live: Lists, o: nat, k: nat)
    requires Sized(m, b, lists) && |live| == |lists| && o <= k < |lists| && lists[k] != []
    requires OnGrid(b, lists) && OnGrid(b, live)
    ensures OnGrid(b, Taken(m, lists, o, k)) && OnGrid(b, live[o := live[o] + [TakenBlock(m, lists, o, k)]])
  {
    var block := lists[k][|lists[k]| - 1];
    assert block == Region(block.base, Pow(m + k));
    RemainderPlaced(m, b, block.base, o, k);
    SplitGrid(m, b, lists[k := lists[k][..|lists[k]| - 1]], block.base, o, k);
  }

  // ---- Any calls on one region ----

  ghost predicate NoBlocks(lists: Lists) {
    forall i | 0 <= i < |lists| :: lists[i] == []
  }

  lemma {:induction false} NoCover(lists: Lists, a: int)
    requires forall i, k | 0 <= i < |lists| && 0 <= k < |lists[i]| :: !Contains(lists[i][k], a)
    ensures TotalAll(Cover(a), lists) == 0
  {
    if lists != [] {
      NoCoverOne(lists[0], a);
      forall i, k | 0 <= i < |lists[1..]| && 0 <= k < |lists[1..][i]| ensures !Contains(lists[1..][i][k], a) {
        assert lists[1..][i] == lists[i + 1];
      }
      NoCover(lists[1..], a);
    }
  }

  lemma {:induction false} NoCoverOne(s: seq<Region>, a: int)
    requires forall k | 0 <= k < |s| :: !Contains(s[k], a)
    ensures Total(Cover(a), s) == 0
  {
    if s != [] { NoCoverOne(s[1..], a); }
  }

  lemma NoBlocksApart(lists: Lists, live: Lists, base: nat, size: nat)
    requires NoBlocks(lists) && NoBlocks(live)
    ensures Exclusive(lists, live) && Uncovered(lists, live, base, size)
  {
    forall a ensures TotalAll(Cover(a), lists) == 0 && TotalAll(Cover(a), live) == 0 {
      NoCover(lists, a);
      NoCover(live, a);
    }
  }

  /** A request, or the return of one of the blocks held. */
  datatype Call = Ask(size: nat, align: nat) | GiveBack(k: nat)

  datatype Holding = Holding(addr: nat, size: nat, align: nat)

  /** Every holding is a live block of its own. */
  ghost predicate Held(m: nat, live: Lists, held: seq<Holding>) {
    && (forall i | 0 <= i < |held| :: HeldOne(m, live, held[i]))
    && forall i, j | 0 <= i < j < |held| :: held[i].addr != held[j].addr
  }

  ghost predicate HeldOne(m: nat, live: Lists, h: Holding) {
    var o := OrderFor(m, h.size, h.align);
    o < |live| && Asked(m, h.addr, h.size, h.align) in live[o]
  }

  lemma HeldMore(m: nat, live: Lists, held: seq<Holding>, h: Holding, o: nat)
    requires Held(m, live, held) && o == OrderFor(m, h.size, h.align) && o < |live|
    requires forall i | 0 <= i < |held| :: held[i].addr != h.addr
    ensures Held(m, live[o := live[o] + [Asked(m, h.addr, h.size, h.align)]], held + [h])
  {
    var block := Asked(m, h.addr, h.size, h.align);
    var live' := live[o := live[o] + [block]];
    assert live'[o][|live[o]|] == block;
    forall i | 0 <= i < |held| + 1 ensures HeldOne(m, live', (held + [h])[i]) {
      if i < |held| {
        assert HeldOne(m, live, held[i]);
      }
    }
  }

  lemma HeldLess(m: nat, live: Lists, held: seq<Holding>, k: nat)
    requires Held(m, live, held) && k < |held|
    ensures HeldOne(m, live, held[k])
    ensures var o := OrderFor(m, held[k].size, held[k].align);
            Held(m, Dead(live, o, Asked(m, held[k].addr, held[k].size, held[k].align)), held[..k] + held[k + 1..])
  {
    var o, block := OrderFor(m, held[k].size, held[k].align), Asked(m, held[k].addr, held[k].size, held[k].align);
    assert HeldOne(m, live, held[k]);
    var live', held' := Dead(live, o, block), held[..k] + held[k + 1..];
    forall i | 0 <= i < |held'| ensures HeldOne(m, live', held'[i]) {
      var h := held[if i < k then i else i + 1];
      assert HeldOne(m, live, h);
      StillLive(live, o, block, OrderFor(m, h.size, h.align), Asked(m, h.addr, h.size, h.align));
    }
  }

  lemma StillLive(live: Lists, o: nat, r: Region, o': nat, r': Region)
    requires o < |live| && r in live[o] && o' < |live| && r' in live[o'] && r' != r
    ensures r' in Dead(live, o, r)[o']
  {
    if o' == o {
      var k, i := IndexIn(live[o], r), IndexIn(live[o], r');
      assert Without(live[o], k)[if i < k then i else i - 1] == r';
    }
  }

  /** A block handed out starts where no live block does. */
  lemma NewAddress(m: nat, b: nat, lists: Lists, live: Lists, held: seq<Holding>, o: nat, k: nat)
    requires Sized(m, b, lists) && Sized(m, b, live) && Exclusive(lists, live) && Held(m, live, held)
    requires o <= k < |lists| && lists[k] != []
    ensures forall i | 0 <= i < |held| :: held[i].addr != TakenBlock(m, lists, o, k).base
  {
    forall i | 0 <= i < |held| ensures held[i].addr != TakenBlock(m, lists, o, k).base {
      assert HeldOne(m, live, held[i]);
      var o' := OrderFor(m, held[i].size, held[i].align);
      var n := IndexIn(live[o'], Asked(m, held[i].addr, held[i].size, held[i].align));
      ApartBlocks(lists, live, k, |lists[k]| - 1, o', n, held[i].addr);
    }
  }

  datatype Answer = Got(alloc: AllocResult) | Gave(dealloc: DeallocResult) | Nothing

  /** How many blocks are held after these answers. */
  function Holds(answers: seq<Answer>): int {
    if answers == [] then 0 else
      var last := answers[|answers| - 1];
      Holds(answers[..|answers| - 1]) + (if last.Got? && last.alloc.Block? then 1 else if last.Gave? then -1 else 0)
  }

  /** A request is answered, and a block that is held and given back is freed. */
  predicate Answered(call: Call, held: int, answer: Answer) {
    match call
    case Ask(_, _) => answer.Got?
    case GiveBack(k) => answer == if k < held then Gave(Freed) else Nothing
  }

  lemma FirstGrid(b: nat, lists: Lists, live: Lists, size: nat)
    requires NoBlocks(lists) && NoBlocks(live) && size >= 1
    ensures GridFor(b, lists, live, b, size)
  {
  }

  /** Whatever is asked for and given back, in any order, a heap that consists of one region
      frees every block that is given back, and its blocks stay apart and on the grid. */
  method OneRegion(a: Alloc, region: Region, calls: seq<Call>) returns (answers: seq<Answer>)
    requires a.Valid() && NoBlocks(a.lists) && NoBlocks(a.live)
    requires AlignUp(region.base, Pow(a.minLog2)) <= a.base
    modifies a
    ensures Carvable(a.minLog2, |old(a.lists)|, region.size) ==>
              && |answers| == |calls|
              && (forall i | 0 <= i < |calls| :: Answered(calls[i], Holds(answers[..i]), answers[i]))
              && a.Valid() && Exclusive(a.lists, a.live) && a.Gridded()
  {
    answers := [];
    NoBlocksApart(a.lists, a.live, AlignUp(region.base, Pow(a.minLog2)), region.size);
    if region.size >= 1 { FirstGrid(AlignUp(region.base, Pow(a.minLog2)), a.lists, a.live, region.size); }
    var added := a.AddRegion(region, true);
    if added != Added { return; }
    var held: seq<Holding> := [];
    for i := 0 to |calls|
      invariant a.Valid() && Exclusive(a.lists, a.live) && a.Gridded() && Held(a.minLog2, a.live, held)
      invariant |answers| == i && |held| == Holds(answers)
      invariant forall j | 0 <= j < i :: Answered(calls[j], Holds(answers[..j]), answers[j])
    {
      var answer: Answer;
      answer, held := Serve(a, calls[i], held);
      HoldsMore(answers, answer);
      answers := answers + [answer];
    }
  }

  lemma HoldsMore(answers: seq<Answer>, answer: Answer)
    ensures Holds(answers + [answer]) ==
            Holds(answers) + (if answer.Got? && answer.alloc.Block? then 1 else if answer.Gave? then -1 else 0)
    ensures forall j | 0 <= j <= |answers| :: (answers + [answer])[..j] == answers[..j]
    ensures answers[..|answers|] == answers
  {
    assert (answers + [answer])[..|answers|] == answers;
  }

  /** One call. */
  method Serve(a: Alloc, call: Call, held: seq<Holding>) returns (answer: Answer, held': seq<Holding>)
    requires a.Valid() && Exclusive(a.lists, a.live) && a.Gridded() && Held(a.minLog2, a.live, held)
    modifies a
    ensures a.Valid() && Exclusive(a.lists, a.live) && a.Gridded() && Held(a.minLog2, a.live, held')
    ensures Answered(call, |held|, answer)
    ensures |held'| == |held| + (if answer.Got? && answer.alloc.Block? then 1 else if answer.Gave? then -1 else 0)
  {
    answer, held' := Nothing, held;
    match call
    case Ask(size, align) =>
      var r := a.AllocInner(size, align);
      answer := Got(r);
      if r.Block? {
        ghost var o := OrderFor(a.minLog2, size, align);
        NewAddress(a.minLog2, a.base, old(a.lists), old(a.live), held, o, FirstFit(old(a.lists), o));
        HeldMore(a.minLog2, old(a.live), held, Holding(r.region.base, size, align), o);
        held' := held + [Holding(r.region.base, size, align)];
      }
    case GiveBack(k) =>
      if k < |held| {
        HeldLess(a.minLog2, a.live, held, k);
        var r := a.DeallocInner(held[k].addr, held[k].size, held[k].align);
        answer, held' := Gave(r), held[..k] + held[k + 1..];
      }
  }

  // ---- Heaps built by calls ----

  lemma SmallNumbers()
    ensures Pow(5) == 32 && Pow(6) == 64 && Pow(7) == 128 && Pow(8) == 256 && Pow(12) == 4096
  {
  }

  lemma ExponentSix(m: nat)
    requires 48 <= Pow(m) <= 64
    ensures m == 6
  {
    SmallNumbers();
    if m < 6 { PowMono(m, 5); }
    if m > 6 { PowMono(7, m); }
  }

  lemma OneTile(m: nat, n: nat, base: nat, k: nat)
    requires m >= 1 && k < n
    ensures Carvable(m, n, Pow(m + k)) && Pow(m + k) % Pow(m) == 0
    ensures Tiles(m, base, Pow(m + k)) == [Region(base, Pow(m + k))]
  {
    PowMono(m, m + k);
    ModBelow(m, m + k);
    LogsOfPow(m + k);
  }

  /** A layout that is a block size asks for that block. */
  lemma AsksFor(m: nat, k: nat)
    ensures Rounded(m, Pow(m + k), 1) == Pow(m + k) && OrderFor(m, Pow(m + k), 1) == k
  {
    PowMono(m, m + k);
    LogsOfPow(m + k);
  }

  ghost predicate Clear(lists: Lists, r: Region) {
    forall i, k, x | 0 <= i < |lists| && 0 <= k < |lists[i]| && Contains(r, x) :: !Contains(lists[i][k], x)
  }

  /** Adds one aligned block. */
  method AddOne(a: Alloc, base: nat, k: nat)
    requires a.Valid() && k < |a.lists| && Aligned(a.minLog2, base) && Exclusive(a.lists, a.live)
    requires Clear(a.lists, Region(base, Pow(a.minLog2 + k))) && Clear(a.live, Region(base, Pow(a.minLog2 + k)))
    modifies a`lists, a`heapSize, a`base
    ensures a.Valid() && Exclusive(a.lists, a.live) && a.base == Min(old(a.base), base)
    ensures a.heapSize == old(a.heapSize) + Pow(a.minLog2 + k)
    ensures a.lists == old(a.lists)[k := [Region(base, Pow(a.minLog2 + k))] + old(a.lists)[k]]
  {
    var r := Region(base, Pow(a.minLog2 + k));
    OneTile(a.minLog2, |a.lists|, base, k);
    OrderOfPow(a.minLog2, k);
    forall x | base <= x < base + r.size
      ensures TotalAll(Cover(x), a.lists) + TotalAll(Cover(x), a.live) <= 0
    {
      assert Contains(r, x);
      NoCover(a.lists, x);
      NoCover(a.live, x);
    }
    var added := a.AddRegion(r, true);
  }

  /** A heap whose headers have 48 bytes, so that the smallest block has 64. */
  method NewHeap(n: nat) returns (a: Alloc)
    ensures fresh(a) && a.Valid() && a.minLog2 == 6 && a.base == USIZE_MAX && a.heapSize == 0 && |a.lists| == n
    ensures Exclusive(a.lists, a.live) && NoBlocks(a.lists) && NoBlocks(a.live)
  {
    a := new Alloc(0, 48, n);
    SmallNumbers();
    assert Pow(a.minLog2) <= Pow(6);
    ExponentSix(a.minLog2);
    NoBlocksApart(a.lists, a.live, 0, 0);
  }

  /** With one list and four smallest blocks, a request for as many bytes as the heap has is
      larger than every list can hold, and panics. */
  method Overrun() returns (r: AllocResult)
    ensures r == AllocPanic
  {
    var a := NewHeap(1);
    SmallNumbers();
    for k := 0 to 4
      invariant fresh(a) && a.Valid() && a.minLog2 == 6 && |a.lists| == 1 && a.heapSize == 64 * k
      invariant NoBlocks(a.live) && Exclusive(a.lists, a.live)
      invariant forall i | 0 <= i < |a.lists[0]| :: a.lists[0][i].base + 64 <= 64 * k
    {
      AddOne(a, 64 * k, 0);
    }
    AsksFor(6, 2);
    r := a.AllocInner(256, 1);
  }

  /** The seven lists hold smallest blocks and blocks of the largest order. */
  ghost predicate Only(lists: Lists, small: seq<Region>, large: seq<Region>) {
    |lists| == 7 && lists[0] == small && lists[6] == large && forall i | 0 < i < 6 :: lists[i] == []
  }

  ghost predicate Beside(blocks: seq<Region>, r: Region) {
    forall k | 0 <= k < |blocks| :: blocks[k].base + blocks[k].size <= r.base || r.base + r.size <= blocks[k].base
  }

  lemma OnlyClear(lists: Lists, small: seq<Region>, r: Region)
    requires Only(lists, small, []) && Beside(small, r)
    ensures Clear(lists, r)
  {
  }

  /** Adds a smallest block to smallest blocks. */
  method AddSmall(a: Alloc, small: seq<Region>, base: nat)
    requires a.Valid() && a.minLog2 == 6 && Exclusive(a.lists, a.live) && NoBlocks(a.live) && Only(a.lists, small, [])
    requires base % 64 == 0 && Beside(small, Region(base, 64))
    modifies a`lists, a`heapSize, a`base
    ensures a.Valid() && Exclusive(a.lists, a.live) && Only(a.lists, [Region(base, 64)] + small, [])
    ensures a.base == Min(old(a.base), base) && a.heapSize == old(a.heapSize) + 64
  {
    SmallNumbers();
    OnlyClear(a.lists, small, Region(base, 64));
    AddOne(a, base, 0);
  }

  function SmallBlocks(): seq<Region> {
    [Region(8192, 64), Region(64, 64), Region(16384, 64)]
  }

  /** Three smallest blocks. */
  method ThreeSmall() returns (a: Alloc)
    ensures fresh(a) && a.Valid() && a.minLog2 == 6 && a.base == 64 && a.heapSize == 192
    ensures Exclusive(a.lists, a.live) && NoBlocks(a.live) && Only(a.lists, SmallBlocks(), [])
  {
    a := NewHeap(7);
    AddSmall(a, [], 16384);
    AddSmall(a, [Region(16384, 64)], 64);
    AddSmall(a, [Region(64, 64), Region(16384, 64)], 8192);
  }

  /** And a block of 64 times their size behind one of them. */
  method Crowd() returns (a: Alloc)
    ensures fresh(a) && a.Valid() && a.minLog2 == 6 && a.base == 64 && a.heapSize == 4288
    ensures Exclusive(a.lists, a.live) && NoBlocks(a.live) && Only(a.lists, SmallBlocks(), [Region(128, 4096)])
  {
    a := ThreeSmall();
    SmallNumbers();
    OnlyClear(a.lists, SmallBlocks(), Region(128, 4096));
    AddOne(a, 128, 6);
  }

  lemma CrowdMeets(lists: Lists)
    requires Only(lists, SmallBlocks(), [])
    ensures Meets(64, lists, Region(128, 4096), 6)
  {
    SmallNumbers();
    assert lists[0][1].base == 64;
    assert Bit(64, 6);
  }

  lemma CrowdTaken(lists: Lists)
    requires Only(lists, SmallBlocks(), [Region(128, 4096)])
    ensures FirstFit(lists, 6) == 6 && TakenBlock(6, lists, 6, 6) == Region(128, 4096)
    ensures Only(Taken(6, lists, 6, 6), SmallBlocks(), [])
  {
    SmallNumbers();
  }

  /** The large block is allocated. */
  method LargeHeld() returns (a: Alloc)
    ensures fresh(a) && a.Valid() && a.minLog2 == 6 && a.base == 64 && Exclusive(a.lists, a.live)
    ensures Only(a.lists, SmallBlocks(), []) && a.IsLive(128, 4096, 1)
  {
    a := Crowd();
    SmallNumbers();
    AsksFor(6, 6);
    CrowdTaken(a.lists);
    var block := a.AllocInner(4096, 1);
    assert a.live[6][0] == Region(128, 4096);
  }

  /** It cannot be freed, in a heap whose blocks are apart. The header that is met is in the
      middle of its list. */
  method Unfreeable() returns (a: Alloc, r: DeallocResult)
    ensures fresh(a) && a.Valid() && Exclusive(a.lists, a.live)
    ensures r == WrongBuddy
  {
    a := LargeHeld();
    SmallNumbers();
    AsksFor(6, 6);
    CrowdMeets(a.lists);
    r := a.DeallocInner(128, 4096, 1);
  }
}
