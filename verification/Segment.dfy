/** Descriptors of the task state segment, hal-x86_64/src/segment.rs, as clients of the packing
    specs. The layout is that of section 7.2.3 of the Intel SDM, volume 3A. */
module Segment {
  import opened Bitfield

  type Word64 = a: Word | |a| == 64 witness seq(64, _ => false)

  /** The specs that `tss`, `base` and `limit` use: fields of a descriptor and of its upper half,
      and the parts of a limit and of a base address. */
  datatype Specs = Specs(
    limitLow: Pack, baseLow: Pack, accessFlags: Pack, isPresent: Pack, limitHigh: Pack, baseMid: Pack, baseHigh: Pack,
    lowLimit: Pack, highLimit: Pack, lowBase: Pack, midBase: Pack, highBase: Pack)

  /** Where the manual has them. */
  predicate Placed(k: Specs) {
    && Field(k.limitLow, 64, 0, 16) && Field(k.baseLow, 64, 16, 24) && Field(k.accessFlags, 64, 40, 5)
    && Field(k.isPresent, 64, 47, 1) && Field(k.limitHigh, 64, 48, 4) && Field(k.baseMid, 64, 56, 8)
    && Field(k.baseHigh, 64, 0, 32)
    && Field(k.lowLimit, 64, 0, 16) && Field(k.highLimit, 64, 16, 4)
    && Field(k.lowBase, 64, 0, 24) && Field(k.midBase, 64, 24, 8) && Field(k.highBase, 64, 32, 32)
  }

  // ---- The specs of the source ----

  /** The widths of a segment descriptor's fields, from the least significant bit up: limit,
      base, five access flags, ring, present, high limit, four flags, middle base. */
  const DESCRIPTOR: seq<nat> := [16, 24, 1, 1, 1, 1, 1, 2, 1, 4, 1, 1, 1, 1, 8]

  function SourceSpecs(w: nat, widths: seq<nat>): Specs
    requires w > 0 && |widths| == 15
  {
    var ps := Layout(w, widths);
    var lowLimit, lowBase := LeastSignificant(w, 16), LeastSignificant(w, 24);
    var midBase := Next(lowBase, 8);
    Specs(ps[0], ps[1], Next(ps[1], 5), ps[8], ps[9], ps[14], LeastSignificant(w, 32),
          lowLimit, Next(lowLimit, 4), lowBase, midBase, Next(midBase, 32))
  }

  lemma DescriptorSums()
    ensures Sum(DESCRIPTOR[..0]) == 0 && Sum(DESCRIPTOR[..1]) == 16 && Sum(DESCRIPTOR[..8]) == 47
    ensures Sum(DESCRIPTOR[..9]) == 48 && Sum(DESCRIPTOR[..14]) == 56 && Sum(DESCRIPTOR[..15]) == 64
  {
    SumStep(DESCRIPTOR, 0);
    SumStep(DESCRIPTOR, 1);
    SumStep(DESCRIPTOR, 2);
    SumStep(DESCRIPTOR, 3);
    SumStep(DESCRIPTOR, 4);
    SumStep(DESCRIPTOR, 5);
    SumStep(DESCRIPTOR, 6);
    SumStep(DESCRIPTOR, 7);
    SumStep(DESCRIPTOR, 8);
    SumStep(DESCRIPTOR, 9);
    SumStep(DESCRIPTOR, 10);
    SumStep(DESCRIPTOR, 11);
    SumStep(DESCRIPTOR, 12);
    SumStep(DESCRIPTOR, 13);
    SumStep(DESCRIPTOR, 14);
  }

  lemma DescriptorWidths(i: nat)
    requires i < |DESCRIPTOR|
    ensures DESCRIPTOR[i] > 0
  {
  }

  lemma DescriptorFits(w: nat)
    requires w == 64
    ensures Fitting(w, DESCRIPTOR) && NoEmptyBetween(DESCRIPTOR)
  {
    DescriptorSums();
    assert DESCRIPTOR[..15] == DESCRIPTOR;
    forall i | 0 < i < |DESCRIPTOR| ensures Sum(DESCRIPTOR[..i]) < w { SumMono(DESCRIPTOR, i, 14); }
    forall i | 0 < i < |DESCRIPTOR| - 1 ensures DESCRIPTOR[i] != 0 { DescriptorWidths(i); }
  }

  lemma DescriptorContiguous(w: nat, widths: seq<nat>)
    requires w == 64 && widths == DESCRIPTOR
    ensures Contiguous(w, widths, Layout(w, widths))
  {
    DescriptorFits(w);
    LayoutRight(w, widths);
  }

  lemma FieldAt(w: nat, widths: seq<nat>, ps: seq<Pack>, i: nat, at: nat, n: nat)
    requires Contiguous(w, widths, ps) && i < |widths| && Sum(widths[..i]) == at && widths[i] == n
    ensures Field(ps[i], w, at, n)
  {
  }

  lemma DescriptorPlaced(w: nat, ps: seq<Pack>)
    requires Contiguous(w, DESCRIPTOR, ps)
    ensures Field(ps[0], w, 0, 16) && Field(ps[1], w, 16, 24)
    ensures Field(ps[8], w, 47, 1) && Field(ps[9], w, 48, 4) && Field(ps[14], w, 56, 8)
  {
    DescriptorSums();
    FieldAt(w, DESCRIPTOR, ps, 0, 0, 16);
    FieldAt(w, DESCRIPTOR, ps, 1, 16, 24);
    FieldAt(w, DESCRIPTOR, ps, 8, 47, 1);
    FieldAt(w, DESCRIPTOR, ps, 9, 48, 4);
    FieldAt(w, DESCRIPTOR, ps, 14, 56, 8);
  }

  lemma TwoParts(w: nat, a: nat, b: nat)
    requires a > 0 && a < w && a + b <= w
    ensures Field(LeastSignificant(w, a), w, 0, a) && Field(Next(LeastSignificant(w, a), b), w, a, b)
  {
    FirstField(w, a);
    NextField(LeastSignificant(w, a), w, 0, a, b);
  }

  lemma ThreeParts(w: nat, a: nat, b: nat, c: nat)
    requires a > 0 && b > 0 && a + b < w && a + b + c <= w
    ensures Field(Next(Next(LeastSignificant(w, a), b), c), w, a + b, c)
  {
    TwoParts(w, a, b);
    NextField(Next(LeastSignificant(w, a), b), w, a, b, c);
  }

  /** The specs of the source are where the manual has the fields. */
  lemma SourceSpecsPlaced(w: nat, widths: seq<nat>)
    requires w == 64 && widths == DESCRIPTOR
    ensures Placed(SourceSpecs(w, widths))
  {
    var ps := Layout(w, widths);
    DescriptorContiguous(w, widths);
    DescriptorPlaced(w, ps);
    NextField(ps[1], w, 16, 24, 5);
    TwoParts(w, 16, 4);
    TwoParts(w, 24, 8);
    ThreeParts(w, 24, 8, 32);
    TwoParts(w, 32, 0);
  }

  // ---- The TSS descriptor ----

  datatype SystemDescriptor = SystemDescriptor(low: Word64, high: Word64)

  /** 0b1001, an available 64-bit TSS. */
  function TssType(): Word64 {
    seq(64, i => i == 0 || i == 3)
  }

  /** The first three steps: present bit, low limit, low base. */
  function TssStart(k: Specs, addr: Word64, limit: Word64): Word64
    requires Placed(k)
  {
    var d := PackTruncating(k.isPresent, OneHot(64, 0), Zero(64));
    var d := PackFromSrc(PairWith(k.limitLow, k.lowLimit), d, limit);
    PackFromSrc(PairWith(k.baseLow, k.lowBase), d, addr)
  }

  function TssLow(k: Specs, addr: Word64, limit: Word64): Word64
    requires Placed(k)
  {
    var d := PackFromSrc(PairWith(k.limitHigh, k.highLimit), TssStart(k, addr, limit), limit);
    var d := PackTruncating(k.accessFlags, TssType(), d);
    PackFromSrc(PairWith(k.baseMid, k.midBase), d, addr)
  }

  function TssHigh(k: Specs, addr: Word64): Word64
    requires Placed(k)
  {
    PackFromSrc(PairWith(k.baseHigh, k.highBase), Zero(64), addr)
  }

  /** `SystemDescriptor::tss`, for a segment at `addr` whose last byte is at `limit`. */
  function Tss(k: Specs, addr: Word64, limit: Word64): SystemDescriptor
    requires Placed(k)
  {
    SystemDescriptor(TssLow(k, addr, limit), TssHigh(k, addr))
  }

  function Base(k: Specs, d: SystemDescriptor): Word64
    requires Placed(k)
  {
    var a := PackFromDst(PairWith(k.baseLow, k.lowBase), d.low, Zero(64));
    var a := PackFromDst(PairWith(k.baseMid, k.midBase), d.low, a);
    PackFromDst(PairWith(k.baseHigh, k.highBase), d.high, a)
  }

  function Limit(k: Specs, d: SystemDescriptor): Word64
    requires Placed(k)
  {
    var a := PackFromDst(PairWith(k.limitLow, k.lowLimit), d.low, Zero(64));
    PackFromDst(PairWith(k.limitHigh, k.highLimit), d.low, a)
  }

  /** The lower half of a TSS descriptor, bit by bit, as the manual draws it. */
  function TssLowBit(addr: Word64, limit: Word64, i: nat): bool
    requires i < 64
  {
    if i < 16 then limit[i]
    else if i < 40 then addr[i - 16]
    else if i < 45 then i == 40 || i == 43
    else if i < 48 then i == 47
    else if i < 52 then limit[i - 32]
    else if i < 56 then false
    else addr[i - 32]
  }

  lemma TssStartBits(k: Specs, addr: Word64, limit: Word64, i: nat)
    requires Placed(k) && i < 64
    ensures TssStart(k, addr, limit)[i] == if i < 16 then limit[i] else if i < 40 then addr[i - 16] else i == 47
  {
    var d1 := PackTruncating(k.isPresent, OneHot(64, 0), Zero(64));
    var d2 := PackFromSrc(PairWith(k.limitLow, k.lowLimit), d1, limit);
    PackBit(k.isPresent, 64, 47, 1, OneHot(64, 0), Zero(64), i);
    FromSrcBit(k.limitLow, k.lowLimit, 64, 0, 0, 16, d1, limit, i);
    FromSrcBit(k.baseLow, k.lowBase, 64, 16, 0, 24, d2, addr, i);
  }

  lemma TssLowBits(k: Specs, addr: Word64, limit: Word64, i: nat)
    requires Placed(k) && i < 64
    ensures TssLow(k, addr, limit)[i] == TssLowBit(addr, limit, i)
  {
    var d3 := TssStart(k, addr, limit);
    var d4 := PackFromSrc(PairWith(k.limitHigh, k.highLimit), d3, limit);
    var d5 := PackTruncating(k.accessFlags, TssType(), d4);
    TssStartBits(k, addr, limit, i);
    FromSrcBit(k.limitHigh, k.highLimit, 64, 48, 16, 4, d3, limit, i);
    PackBit(k.accessFlags, 64, 40, 5, TssType(), d4, i);
    FromSrcBit(k.baseMid, k.midBase, 64, 56, 24, 8, d5, addr, i);
  }

  lemma TssHighBits(k: Specs, addr: Word64, i: nat)
    requires Placed(k) && i < 64
    ensures TssHigh(k, addr)[i] == (i < 32 && addr[i + 32])
  {
  }

  lemma BaseBits(k: Specs, d: SystemDescriptor, i: nat)
    requires Placed(k) && i < 64
    ensures Base(k, d)[i] == if i < 24 then d.low[i + 16] else if i < 32 then d.low[i + 32] else d.high[i - 32]
  {
  }

  lemma LimitBits(k: Specs, d: SystemDescriptor, i: nat)
    requires Placed(k) && i < 64
    ensures Limit(k, d)[i] == if i < 16 then d.low[i] else i < 20 && d.low[i + 32]
  {
  }

  /** The base address is recovered in full, and the limit in its low 20 bits. */
  lemma TssRoundTrip(k: Specs, addr: Word64, limit: Word64)
    requires Placed(k)
    ensures Base(k, Tss(k, addr, limit)) == addr
    ensures Limit(k, Tss(k, addr, limit)) == Truncated(limit, 20)
  {
    var d := Tss(k, addr, limit);
    forall i | 0 <= i < 64 ensures Base(k, d)[i] == addr[i] && Limit(k, d)[i] == Truncated(limit, 20)[i] {
      BaseBits(k, d, i);
      LimitBits(k, d, i);
      if i < 24 { TssLowBits(k, addr, limit, i + 16); }
      if i < 32 { TssLowBits(k, addr, limit, i + 32); } else { TssHighBits(k, addr, i - 32); }
      TssLowBits(k, addr, limit, i);
    }
  }

  /** So a limit survives exactly when it is below 2 to the 20. */
  lemma LimitSurvives(k: Specs, addr: Word64, limit: Word64)
    requires Placed(k)
    ensures Limit(k, Tss(k, addr, limit)) == limit <==> forall i | 20 <= i < 64 :: !limit[i]
  {
    TssRoundTrip(k, addr, limit);
    var t := Truncated(limit, 20);
    if forall i | 20 <= i < 64 :: !limit[i] {
      assert t == limit;
    } else if t == limit {
      forall i | 20 <= i < 64 ensures !limit[i] { assert t[i] == limit[i]; }
    }
  }

  /** With the specs that the source builds: every 64-bit address is recovered from a TSS
      descriptor, and the limit in its low 20 bits. */
  lemma SourceRoundTrip(w: nat, widths: seq<nat>, addr: Word64, limit: Word64)
    requires w == 64 && widths == DESCRIPTOR
    ensures var k := SourceSpecs(w, widths);
            && Placed(k) && Base(k, Tss(k, addr, limit)) == addr
            && Limit(k, Tss(k, addr, limit)) == Truncated(limit, 20)
  {
    SourceSpecsPlaced(w, widths);
    TssRoundTrip(SourceSpecs(w, widths), addr, limit);
  }
}
