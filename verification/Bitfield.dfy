/** The packing specs of bitfield/src/pack.rs, for machine words of any width. A word is the
    sequence of its bits, least significant first. */
module Bitfield {
  type Word = seq<bool>

  // ---- Machine words ----

  function Zero(w: nat): Word {
    seq(w, _ => false)
  }

  function OneHot(w: nat, k: nat): Word {
    seq(w, i => i == k)
  }

  /** The bits from `lo` to below `hi`. */
  function Range(w: nat, lo: nat, hi: nat): Word {
    seq(w, i => lo <= i < hi)
  }

  function And(a: Word, b: Word): Word
    requires |a| == |b|
  {
    seq(|a|, i requires 0 <= i < |a| => a[i] && b[i])
  }

  function Or(a: Word, b: Word): Word
    requires |a| == |b|
  {
    seq(|a|, i requires 0 <= i < |a| => a[i] || b[i])
  }

  function Not(a: Word): Word {
    seq(|a|, i requires 0 <= i < |a| => !a[i])
  }

  function Shl(a: Word, n: nat): Word {
    seq(|a|, i requires 0 <= i < |a| => i >= n && a[i - n])
  }

  function Shr(a: Word, n: nat): Word {
    seq(|a|, i requires 0 <= i < |a| => i + n < |a| && a[i + n])
  }

  function LeadingZeros(a: Word): nat {
    if a == [] || a[|a| - 1] then 0 else 1 + LeadingZeros(a[..|a| - 1])
  }

  function Value(a: Word): nat {
    if a == [] then 0 else (if a[0] then 1 else 0) + 2 * Value(a[1..])
  }

  /** `saturating_sub(1)`, borrowing from the first bit that is set. */
  function Dec(a: Word): Word {
    if Value(a) == 0 then a
    else if a[0] then [false] + a[1..]
    else [true] + Dec(a[1..])
  }

  /** The borrow is a subtraction. */
  lemma {:induction false} DecValue(a: Word)
    ensures |Dec(a)| == |a|
    ensures Value(Dec(a)) == if Value(a) == 0 then 0 else Value(a) - 1
  {
    if Value(a) != 0 && !a[0] { DecValue(a[1..]); }
  }

  lemma {:induction false} OneHotValue(w: nat, k: nat)
    requires k < w
    ensures Value(OneHot(w, k)) != 0
  {
    var a := OneHot(w, k);
    if k > 0 {
      assert a[1..] == OneHot(w - 1, k - 1);
      OneHotValue(w - 1, k - 1);
    }
  }

  lemma {:induction false} DecOneHot(w: nat, k: nat)
    requires k < w
    ensures Dec(OneHot(w, k)) == Range(w, 0, k)
  {
    var a := OneHot(w, k);
    OneHotValue(w, k);
    if k > 0 {
      assert a[1..] == OneHot(w - 1, k - 1);
      DecOneHot(w - 1, k - 1);
    }
  }

  lemma {:induction false} LeadingZerosRange(w: nat, lo: nat, hi: nat)
    requires hi <= w
    ensures LeadingZeros(Range(w, lo, hi)) == if lo < hi then w - hi else w
  {
    if w > 0 && !(lo < hi == w) {
      assert Range(w, lo, hi)[..w - 1] == Range(w - 1, lo, if hi == w then w - 1 else hi);
      LeadingZerosRange(w - 1, lo, if hi == w then w - 1 else hi);
    }
  }

  // ---- Packing specs ----

  /** `mask` is already shifted. */
  datatype Pack = Pack(mask: Word, shift: nat)

  /** `mk_mask`: the first `n` bits. */
  function MkMask(w: nat, n: nat): (m: Word)
    requires w > 0
    ensures |m| == w
  {
    if n == 0 then Zero(w) else
      var top := OneHot(w, (n - 1) % w);
      DecValue(top);
      Or(top, Dec(top))
  }

  lemma SmallRemainder(k: nat, w: nat)
    requires k < w
    ensures k % w == k
  {
  }

  lemma TopAndRest(w: nat, k: nat)
    ensures Or(OneHot(w, k), Range(w, 0, k)) == Range(w, 0, k + 1)
  {
  }

  lemma MkMaskRange(w: nat, n: nat)
    requires w > 0 && n <= w
    ensures MkMask(w, n) == Range(w, 0, n)
  {
    if n > 0 {
      SmallRemainder(n - 1, w);
      DecOneHot(w, n - 1);
      TopAndRest(w, n - 1);
    }
  }

  function LeastSignificant(w: nat, n: nat): Pack
    requires w > 0
  {
    Pack(MkMask(w, n), 0)
  }

  function ShiftNext(p: Pack): nat {
    LeadingZerosBound(p.mask);
    |p.mask| - LeadingZeros(p.mask)
  }

  lemma {:induction false} LeadingZerosBound(a: Word)
    ensures LeadingZeros(a) <= |a|
  {
    if a != [] && !a[|a| - 1] { LeadingZerosBound(a[..|a| - 1]); }
  }

  /** `next`: the `n` bits after those of `p`. */
  function Next(p: Pack, n: nat): Pack
    requires |p.mask| > 0
  {
    var at := ShiftNext(p);
    Pack(Shl(MkMask(|p.mask|, n), at), at)
  }

  /** `remaining`: all the bits after those of `p`. */
  function Remaining(p: Pack): Pack
    requires |p.mask| > 0
  {
    Next(p, |p.mask| - ShiftNext(p))
  }

  /** The spec covers the `n` bits from `at` on. */
  predicate Field(p: Pack, w: nat, at: nat, n: nat) {
    p.shift == at && at + n <= w && p.mask == Range(w, at, at + n)
  }

  lemma FirstField(w: nat, n: nat)
    requires 0 < w && n <= w
    ensures Field(LeastSignificant(w, n), w, 0, n)
  {
    MkMaskRange(w, n);
  }

  lemma ShiftNextField(p: Pack, w: nat, at: nat, n: nat)
    requires Field(p, w, at, n)
    ensures ShiftNext(p) == if n > 0 then at + n else 0
  {
    LeadingZerosRange(w, at, at + n);
  }

  /** The next field starts where a field ends, unless that field has no bits: then it starts at
      bit 0. Behind a field that ends at the top bit the source's shift overflows. */
  lemma NextField(p: Pack, w: nat, at: nat, n: nat, k: nat)
    requires w > 0 && Field(p, w, at, n) && at + n + k <= w && (n > 0 ==> at + n < w)
    ensures Field(Next(p, k), w, if n > 0 then at + n else 0, k)
  {
    ShiftNextField(p, w, at, n);
    MkMaskRange(w, k);
  }

  lemma RemainingField(p: Pack, w: nat, at: nat, n: nat)
    requires Field(p, w, at, n) && n > 0 && at + n < w
    ensures Field(Remaining(p), w, at + n, w - at - n)
  {
    ShiftNextField(p, w, at, n);
    NextField(p, w, at, n, w - at - n);
  }

  // ---- Layouts ----

  function Sum(widths: seq<nat>): nat {
    if widths == [] then 0 else Sum(widths[..|widths| - 1]) + widths[|widths| - 1]
  }

  /** The specs of consecutive fields: `least_significant`, then `next` again and again. */
  function Layout(w: nat, widths: seq<nat>): (ps: seq<Pack>)
    requires w > 0 && widths != []
    ensures |ps| == |widths| && forall i | 0 <= i < |ps| :: |ps[i].mask| == w
  {
    var n := |widths| - 1;
    if n == 0 then [LeastSignificant(w, widths[0])] else
      var front := Layout(w, widths[..n]);
      front + [Next(front[n - 1], widths[n])]
  }

  /** A word has room for the fields, and every field starts inside it. */
  predicate Fitting(w: nat, widths: seq<nat>) {
    Sum(widths) <= w && forall i | 0 < i < |widths| :: Sum(widths[..i]) < w
  }

  /** No empty field between others. */
  predicate NoEmptyBetween(widths: seq<nat>) {
    forall i | 0 < i < |widths| - 1 :: widths[i] == 0 ==> Sum(widths[..i]) == 0
  }

  /** Every field starts where those before it end. */
  ghost predicate Contiguous(w: nat, widths: seq<nat>, ps: seq<Pack>) {
    |ps| == |widths| && forall i | 0 <= i < |ps| :: Field(ps[i], w, Sum(widths[..i]), widths[i])
  }

  lemma SumStep(widths: seq<nat>, i: nat)
    requires i < |widths|
    ensures Sum(widths[..i + 1]) == Sum(widths[..i]) + widths[i]
  {
    assert widths[..i + 1][..i] == widths[..i];
  }

  lemma {:induction false} SumMono(widths: seq<nat>, i: nat, j: nat)
    requires i <= j <= |widths|
    ensures Sum(widths[..i]) <= Sum(widths[..j])
  {
    if i < j {
      SumMono(widths, i, j - 1);
      SumStep(widths, j - 1);
    }
  }

  lemma FittingPrefix(w: nat, widths: seq<nat>)
    requires |widths| > 1 && Fitting(w, widths)
    ensures Fitting(w, widths[..|widths| - 1])
    ensures NoEmptyBetween(widths) ==> NoEmptyBetween(widths[..|widths| - 1])
  {
    var n := |widths| - 1;
    var front := widths[..n];
    assert forall i | 0 < i < n :: front[..i] == widths[..i];
    assert widths[..|widths|] == widths;
    SumMono(widths, n, |widths|);
  }

  lemma ContiguousStep(w: nat, widths: seq<nat>, ps: seq<Pack>, p: Pack)
    requires widths != [] && Contiguous(w, widths[..|widths| - 1], ps)
    requires Field(p, w, Sum(widths[..|widths| - 1]), widths[|widths| - 1])
    ensures Contiguous(w, widths, ps + [p])
  {
    var n := |widths| - 1;
    var front := widths[..n];
    forall i | 0 <= i < n ensures Field(ps[i], w, Sum(widths[..i]), widths[i]) {
      assert Field(ps[i], w, Sum(front[..i]), front[i]) && front[..i] == widths[..i];
    }
  }

  lemma {:induction false} LayoutRight(w: nat, widths: seq<nat>)
    requires w > 0 && widths != [] && Fitting(w, widths) && NoEmptyBetween(widths)
    ensures Contiguous(w, widths, Layout(w, widths))
    decreases |widths|
  {
    var n := |widths| - 1;
    if n == 0 {
      FirstField(w, widths[0]);
    } else {
      var front := widths[..n];
      FittingPrefix(w, widths);
      LayoutRight(w, front);
      var ps := Layout(w, front);
      assert front[..n - 1] == widths[..n - 1] && Field(ps[n - 1], w, Sum(front[..n - 1]), front[n - 1]);
      SumStep(widths, n - 1);
      NextField(ps[n - 1], w, Sum(widths[..n - 1]), widths[n - 1], widths[n]);
      ContiguousStep(w, widths, ps, Next(ps[n - 1], widths[n]));
    }
  }

  lemma LayoutWrong(w: nat, widths: seq<nat>)
    requires w > 0 && widths != [] && Fitting(w, widths) && !NoEmptyBetween(widths)
    ensures !Contiguous(w, widths, Layout(w, widths))
  {
    var ps := Layout(w, widths);
    var i :| 0 < i < |widths| - 1 && widths[i] == 0 && Sum(widths[..i]) != 0;
    if Contiguous(w, widths, ps) {
      assert Field(ps[i], w, Sum(widths[..i]), 0) && Field(ps[i + 1], w, Sum(widths[..i + 1]), widths[i + 1]);
      SumStep(widths, i);
      LayoutAt(w, widths, i + 1);
      ShiftNextField(ps[i], w, Sum(widths[..i]), 0);
    }
  }

  lemma {:induction false} LayoutAt(w: nat, widths: seq<nat>, i: nat)
    requires w > 0 && 0 < i < |widths|
    ensures Layout(w, widths)[i] == Next(Layout(w, widths)[i - 1], widths[i])
    decreases |widths|
  {
    if i < |widths| - 1 { LayoutAt(w, widths[..|widths| - 1], i); }
  }

  /** The specs are contiguous exactly when no field between two others is empty; leading empty
      fields and a last one do no harm. */
  lemma LayoutContiguous(w: nat, widths: seq<nat>)
    requires w > 0 && widths != [] && Fitting(w, widths)
    ensures Contiguous(w, widths, Layout(w, widths)) <==> NoEmptyBetween(widths)
  {
    if NoEmptyBetween(widths) { LayoutRight(w, widths); } else { LayoutWrong(w, widths); }
  }

  predicate Apart(p: Pack, q: Pack) {
    |p.mask| == |q.mask| && forall i | 0 <= i < |p.mask| :: !(p.mask[i] && q.mask[i])
  }

  /** Fields of a contiguous layout do not overlap. */
  lemma LayoutDisjoint(w: nat, widths: seq<nat>, ps: seq<Pack>, i: nat, j: nat)
    requires Contiguous(w, widths, ps) && i < j < |ps|
    ensures Apart(ps[i], ps[j])
  {
    SumStep(widths, i);
    SumMono(widths, i + 1, j);
    assert Field(ps[i], w, Sum(widths[..i]), widths[i]) && Field(ps[j], w, Sum(widths[..j]), widths[j]);
  }

  // ---- Packing ----

  function Bits(p: Pack): nat {
    var m := Shr(p.mask, p.shift);
    LeadingZerosBound(m);
    |m| - LeadingZeros(m)
  }

  /** `max_value`; the source overflows for a spec as wide as the word. */
  function MaxValue(p: Pack): (m: Word)
    ensures |m| == |p.mask|
  {
    var top := OneHot(|p.mask|, Bits(p));
    DecValue(top);
    Dec(top)
  }

  function PackTruncating(p: Pack, value: Word, base: Word): (r: Word)
    requires |value| == |base| == |p.mask|
    ensures |r| == |base|
  {
    Or(And(base, Not(p.mask)), Shl(And(value, MaxValue(p)), p.shift))
  }

  /** A word in memory. */
  class Cell {
    var bits: Word

    constructor (bits: Word)
      ensures this.bits == bits
    {
      this.bits := bits;
    }

    method PackIntoTruncating(p: Pack, value: Word)
      requires |value| == |bits| == |p.mask|
      modifies this
      ensures bits == PackTruncating(p, value, old(bits))
    {
      var low := And(value, MaxValue(p));
      bits := And(bits, Not(p.mask));
      bits := Or(bits, Shl(low, p.shift));
    }
  }

  function UnpackBits(p: Pack, src: Word): (r: Word)
    requires |src| == |p.mask|
    ensures |r| == |src|
  {
    Shr(And(src, p.mask), p.shift)
  }

  lemma BitsOfField(p: Pack, w: nat, at: nat, n: nat)
    requires Field(p, w, at, n)
    ensures Bits(p) == n && (n < w ==> MaxValue(p) == Range(w, 0, n))
  {
    assert Shr(p.mask, at) == Range(w, 0, n);
    LeadingZerosRange(w, 0, n);
    if n < w { DecOneHot(w, n); }
  }

  /** Bit by bit: the field holds the low bits of the value, everything else the base. */
  lemma PackBit(p: Pack, w: nat, at: nat, n: nat, value: Word, base: Word, i: nat)
    requires Field(p, w, at, n) && n < w && |value| == |base| == w && i < w
    ensures PackTruncating(p, value, base)[i] == if at <= i < at + n then value[i - at] else base[i]
  {
    BitsOfField(p, w, at, n);
  }

  /** And unpacking gives the bits of the field, moved down. */
  lemma UnpackBit(p: Pack, w: nat, at: nat, n: nat, src: Word, i: nat)
    requires Field(p, w, at, n) && |src| == w && i < w
    ensures UnpackBits(p, src)[i] == (i < n && src[at + i])
  {
  }

  function Truncated(value: Word, n: nat): Word {
    And(value, Range(|value|, 0, n))
  }

  /** What is packed is read back. */
  lemma ReadBack(p: Pack, w: nat, at: nat, n: nat, value: Word, base: Word)
    requires Field(p, w, at, n) && n < w && |value| == |base| == w
    ensures UnpackBits(p, PackTruncating(p, value, base)) == Truncated(value, n)
  {
    var packed := PackTruncating(p, value, base);
    forall i | 0 <= i < w ensures UnpackBits(p, packed)[i] == Truncated(value, n)[i] {
      UnpackBit(p, w, at, n, packed, i);
      if i < n { PackBit(p, w, at, n, value, base, at + i); }
    }
  }

  /** Two ranges of a word with no common bit. */
  predicate Separate(at: nat, n: nat, at': nat, n': nat) {
    at + n <= at' || at' + n' <= at
  }

  /** Packing one field leaves the others alone. */
  lemma Preserves(p: Pack, q: Pack, w: nat, at: nat, n: nat, at': nat, n': nat, value: Word, base: Word)
    requires Field(p, w, at, n) && n < w && Field(q, w, at', n') && Separate(at, n, at', n')
    requires |value| == |base| == w
    ensures UnpackBits(q, PackTruncating(p, value, base)) == UnpackBits(q, base)
  {
    var packed := PackTruncating(p, value, base);
    forall i | 0 <= i < w ensures UnpackBits(q, packed)[i] == UnpackBits(q, base)[i] {
      UnpackBit(q, w, at', n', packed, i);
      UnpackBit(q, w, at', n', base, i);
      if i < n' { PackBit(p, w, at, n, value, base, at' + i); }
    }
  }

  /** The order in which two fields are packed does not matter. */
  lemma Commutes(p: Pack, q: Pack, w: nat, at: nat, n: nat, at': nat, n': nat, value: Word, value': Word, base: Word)
    requires Field(p, w, at, n) && n < w && Field(q, w, at', n') && n' < w && Separate(at, n, at', n')
    requires |value| == |value'| == |base| == w
    ensures PackTruncating(q, value', PackTruncating(p, value, base)) ==
            PackTruncating(p, value, PackTruncating(q, value', base))
  {
    var x, y := PackTruncating(p, value, base), PackTruncating(q, value', base);
    forall i | 0 <= i < w ensures PackTruncating(q, value', x)[i] == PackTruncating(p, value, y)[i] {
      PackBit(q, w, at', n', value', x, i);
      PackBit(p, w, at, n, value, base, i);
      PackBit(p, w, at, n, value, y, i);
      PackBit(q, w, at', n', value', base, i);
    }
  }

  lemma LayoutSeparate(widths: seq<nat>, i: nat, j: nat)
    requires i < |widths| && j < |widths| && i != j
    ensures Separate(Sum(widths[..i]), widths[i], Sum(widths[..j]), widths[j])
  {
    SumStep(widths, i);
    SumStep(widths, j);
    if i < j { SumMono(widths, i + 1, j); } else { SumMono(widths, j + 1, i); }
  }

  /** For any word width and any widths that fit, with no empty field between others: packing a
      field of the layout is read back, leaves every other field alone, and commutes with packing
      another one. */
  lemma LayoutPacks(w: nat, widths: seq<nat>, i: nat, j: nat, value: Word, value': Word, base: Word)
    requires w > 0 && widths != [] && Fitting(w, widths) && NoEmptyBetween(widths)
    requires i < |widths| && j < |widths| && i != j && widths[i] < w && widths[j] < w
    requires |value| == |value'| == |base| == w
    ensures var ps := Layout(w, widths);
            var packed := PackTruncating(ps[i], value, base);
            && UnpackBits(ps[i], packed) == Truncated(value, widths[i])
            && UnpackBits(ps[j], packed) == UnpackBits(ps[j], base)
            && PackTruncating(ps[j], value', packed) == PackTruncating(ps[i], value, PackTruncating(ps[j], value', base))
  {
    var ps := Layout(w, widths);
    LayoutRight(w, widths);
    LayoutSeparate(widths, i, j);
    var at, n, at', n' := Sum(widths[..i]), widths[i], Sum(widths[..j]), widths[j];
    assert Field(ps[i], w, at, n) && Field(ps[j], w, at', n');
    ReadBack(ps[i], w, at, n, value, base);
    Preserves(ps[i], ps[j], w, at, n, at', n', value, base);
    Commutes(ps[i], ps[j], w, at, n, at', n', value, value', base);
  }

  // ---- Pairs ----

  datatype Pair = Pair(src: Pack, dst: Pack, shl: nat, shr: nat)

  function PairWith(src: Pack, dst: Pack): Pair {
    if dst.shift > src.shift then Pair(src, dst, dst.shift - src.shift, 0)
    else Pair(src, dst, 0, src.shift - dst.shift)
  }

  /** Moves the field at the pair's `dst` place of `dst` to its `src` place in `src`. */
  function PackFromSrc(pair: Pair, src: Word, dst: Word): (r: Word)
    requires |src| == |dst| == |pair.src.mask| == |pair.dst.mask|
    ensures |r| == |src|
  {
    Or(And(src, Not(pair.src.mask)), Shl(Shr(And(dst, pair.dst.mask), pair.shl), pair.shr))
  }

  /** Moves the field at the pair's `src` place of `src` to its `dst` place in `dst`. */
  function PackFromDst(pair: Pair, src: Word, dst: Word): (r: Word)
    requires |src| == |dst| == |pair.src.mask| == |pair.dst.mask|
    ensures |r| == |dst|
  {
    Or(And(dst, Not(pair.dst.mask)), Shr(Shl(And(src, pair.src.mask), pair.shl), pair.shr))
  }

  lemma FromSrcBit(p: Pack, q: Pack, w: nat, at: nat, at': nat, n: nat, src: Word, dst: Word, i: nat)
    requires Field(p, w, at, n) && Field(q, w, at', n) && |src| == |dst| == w && i < w
    ensures PackFromSrc(PairWith(p, q), src, dst)[i] == if at <= i < at + n then dst[i - at + at'] else src[i]
  {
  }

  lemma FromDstBit(p: Pack, q: Pack, w: nat, at: nat, at': nat, n: nat, src: Word, dst: Word, i: nat)
    requires Field(p, w, at, n) && Field(q, w, at', n) && |src| == |dst| == w && i < w
    ensures PackFromDst(PairWith(p, q), src, dst)[i] == if at' <= i < at' + n then src[i - at' + at] else dst[i]
  {
  }

  /** A field moved there and back is where it was, whatever it was moved into. */
  lemma PairThereAndBack(p: Pack, q: Pack, w: nat, at: nat, at': nat, n: nat, src: Word, dst: Word)
    requires Field(p, w, at, n) && Field(q, w, at', n) && |src| == |dst| == w
    ensures var pair := PairWith(p, q); PackFromDst(pair, PackFromSrc(pair, src, dst), dst) == dst
  {
    var there := PackFromSrc(PairWith(p, q), src, dst);
    forall i | 0 <= i < w ensures PackFromDst(PairWith(p, q), there, dst)[i] == dst[i] {
      FromDstBit(p, q, w, at, at', n, there, dst, i);
      if at' <= i < at' + n { FromSrcBit(p, q, w, at, at', n, src, dst, i - at' + at); }
    }
  }

  lemma PairBackAndThere(p: Pack, q: Pack, w: nat, at: nat, at': nat, n: nat, src: Word, dst: Word)
    requires Field(p, w, at, n) && Field(q, w, at', n) && |src| == |dst| == w
    ensures var pair := PairWith(p, q); PackFromSrc(pair, src, PackFromDst(pair, src, dst)) == src
  {
    var back := PackFromDst(PairWith(p, q), src, dst);
    forall i | 0 <= i < w ensures PackFromSrc(PairWith(p, q), src, back)[i] == src[i] {
      FromSrcBit(p, q, w, at, at', n, src, back, i);
      if at <= i < at + n { FromDstBit(p, q, w, at, at', n, src, dst, i - at + at'); }
    }
  }

  // ---- Validation ----

  /** `assert_valid`: the spec fits the word and ends where its mask does. */
  predicate Valid(p: Pack) {
    var w := |p.mask|;
    p.shift < w && Bits(p) + p.shift <= w && ShiftNext(p) - p.shift == Bits(p)
  }

  predicate Overlap(p: Pack, q: Pack)
    requires |p.mask| == |q.mask|
  {
    And(p.mask, q.mask) != Zero(|p.mask|)
  }

  /** `assert_all_valid` passes exactly if each spec is valid and no two with different names
      overlap. */
  method AssertAllValid(w: nat, specs: seq<(string, Pack)>) returns (ok: bool)
    requires forall i | 0 <= i < |specs| :: |specs[i].1.mask| == w
    ensures ok <==>
            && (forall i | 0 <= i < |specs| :: Valid(specs[i].1))
            && forall i, j | 0 <= i < |specs| && 0 <= j < |specs| && specs[i].0 != specs[j].0 :: Apart(specs[i].1, specs[j].1)
  {
    for i := 0 to |specs|
      invariant forall k | 0 <= k < i :: Valid(specs[k].1)
      invariant forall k, j | 0 <= k < i && 0 <= j < |specs| && specs[k].0 != specs[j].0 :: Apart(specs[k].1, specs[j].1)
    {
      var (name, spec) := specs[i];
      if !Valid(spec) { return false; }
      for j := 0 to |specs|
        invariant forall k | 0 <= k < j && name != specs[k].0 :: Apart(spec, specs[k].1)
      {
        var (otherName, other) := specs[j];
        OverlapMeans(spec, other);
        if name != otherName && Overlap(spec, other) { return false; }
      }
    }
    ok := true;
  }

  lemma OverlapMeans(p: Pack, q: Pack)
    requires |p.mask| == |q.mask|
    ensures Overlap(p, q) <==> !Apart(p, q)
  {
    var both, w := And(p.mask, q.mask), |p.mask|;
    if both == Zero(w) {
      forall i | 0 <= i < w ensures !(p.mask[i] && q.mask[i]) { assert both[i] == Zero(w)[i]; }
    } else {
      var i :| 0 <= i < w && both[i];
    }
  }

  /** Every field with a bit in it passes. */
  lemma FieldValid(p: Pack, w: nat, at: nat, n: nat)
    requires Field(p, w, at, n) && n > 0
    ensures Valid(p)
  {
    BitsOfField(p, w, at, n);
    ShiftNextField(p, w, at, n);
  }
}
