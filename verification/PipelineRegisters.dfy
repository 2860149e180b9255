/**
 The pipeline state as the descriptor builder fills it in from decoded registers (`CreatePipeline` in
 src/gpu/native/native_geometry_pass.cpp), against the reading of raw key words, and how much normalization forgets.
 */
module PipelineRegisters {

  import opened PipelineKey
  import opened Wrappers

  datatype BlendControl = BlendControl(srcColor: bv32, opColor: bv32, dstColor: bv32, srcAlpha: bv32, opAlpha: bv32,
                                       dstAlpha: bv32)

  /** One face's stencil functions. */
  datatype FaceOps = FaceOps(func: bv32, fail: bv32, pass: bv32, depthFail: bv32)

  datatype DepthControl = DepthControl(stencil: bool, test: bool, write: bool, zfunc: bv32, backEnable: bool,
                                       front: FaceOps, back: FaceOps)

  /** What the builder reads of one slot: the format, the blend control and the four write-enable bits. */
  datatype SlotState = SlotState(format: bv32, blend: BlendControl, writeMask: bv32)

  datatype Registers = Registers(a: SlotState, b: SlotState, c: SlotState, d: SlotState, depthFormat: bv32, samples: bv32,
                                 depth: DepthControl, cullFront: bool, cullBack: bool, clockwise: bool,
                                 readMask: bv32, writeMask: bv32, bias: bv32, slope: bv32, clip: bool, coverage: bool,
                                 rootCbv: bool, sampleMask: bv32, noAlphaTest: bool)

  // ----- the builder on decoded registers -----

  predicate Identity(m: BlendMaps, b: BlendControl) {
    b == BlendControl(m.one, m.add, m.zero, m.one, m.add, m.zero)
  }

  /** A slot without a format has fixed, disabled state. */
  function BuildTarget(m: BlendMaps, s: SlotState): Target {
    if s.format == 0 then
      Target(enable := false, source := m.factor(m.one, false), destination := m.factor(m.zero, false), op := m.op(m.add),
             sourceAlpha := m.factor(m.one, false), destinationAlpha := m.factor(m.zero, false), opAlpha := m.op(m.add),
             writeMask := 0)
    else
      Target(enable := !Identity(m, s.blend), source := m.factor(s.blend.srcColor, false),
             destination := m.factor(s.blend.dstColor, false), op := m.op(s.blend.opColor),
             sourceAlpha := m.factor(s.blend.srcAlpha, true), destinationAlpha := m.factor(s.blend.dstAlpha, true),
             opAlpha := m.op(s.blend.opAlpha), writeMask := s.writeMask)
  }

  /** The host's enumerations are the guest's plus one. */
  function BuildFace(f: FaceOps): Face {
    Face(fail := f.fail + 1, depthFail := f.depthFail + 1, pass := f.pass + 1, func := f.func + 1)
  }

  function BuildStencil(r: Registers): Stencil {
    if !r.depth.stencil then Stencil(false, 0, 0, NO_FACE, NO_FACE)
    else Stencil(enable := r.depthFormat != 0, readMask := r.readMask, writeMask := r.writeMask,
                 front := BuildFace(r.depth.front),
                 back := BuildFace(if r.depth.backEnable then r.depth.back else r.depth.front))
  }

  /** One past the last slot that has a format. */
  function Slotted(r: Registers): (n: nat)
    ensures n <= 4
    ensures n == 1 ==> r.a.format != 0
    ensures n == 2 ==> r.b.format != 0
    ensures n == 3 ==> r.c.format != 0
    ensures n == 4 ==> r.d.format != 0
    ensures (n < 1 ==> r.a.format == 0) && (n < 2 ==> r.b.format == 0) && (n < 3 ==> r.c.format == 0) && (n < 4 ==> r.d.format == 0)
  {
    if r.d.format != 0 then 4 else if r.c.format != 0 then 3 else if r.b.format != 0 then 2 else if r.a.format != 0 then 1 else 0
  }

  /** Both faces culled means no pipeline. */
  function Build(m: BlendMaps, r: Registers): Option<Descriptor> {
    if r.cullFront && r.cullBack then None
    else Some(Descriptor(
      rootCbv := r.rootCbv, alphaTest := !r.noAlphaTest, coverage := r.coverage && r.samples > 1,
      targets := Targets(BuildTarget(m, r.a), BuildTarget(m, r.b), BuildTarget(m, r.c), BuildTarget(m, r.d)),
      sampleMask := r.sampleMask,
      raster := Raster(cull := if r.cullFront then 1 else if r.cullBack then 2 else 0,
                       frontCounterClockwise := !r.clockwise, bias := r.bias, slopeBits := r.slope, clip := r.clip),
      depth := Depth(enable := r.depth.test && r.depthFormat != 0, write := r.depth.write, func := r.depth.zfunc + 1),
      stencil := BuildStencil(r),
      formats := Slots(r.a.format, r.b.format, r.c.format, r.d.format), renderTargets := Slotted(r),
      depthFormat := r.depthFormat, samples := r.samples))
  }

  // ----- packing registers into key words -----

  function Flag(b: bool, bit: bv32): bv32 { if b then bit else 0 }

  function PackBlend(b: BlendControl): bv32 {
    b.srcColor | (b.opColor << 5) | (b.dstColor << 8) | (b.srcAlpha << 16) | (b.opAlpha << 21) | (b.dstAlpha << 24)
  }

  function PackFront(f: FaceOps): bv32 {
    (f.func << 8) | (f.fail << 11) | (f.pass << 14) | (f.depthFail << 17)
  }

  function PackBack(f: FaceOps): bv32 {
    (f.func << 20) | (f.fail << 23) | (f.pass << 26) | (f.depthFail << 29)
  }

  function PackDepth(d: DepthControl): bv32 {
    Flag(d.stencil, 0x1) | Flag(d.test, 0x2) | Flag(d.write, 0x4) | (d.zfunc << 4) | Flag(d.backEnable, 0x80)
    | PackFront(d.front) | PackBack(d.back)
  }

  function PackSetup(cullFront: bool, cullBack: bool, clockwise: bool): bv32 {
    Flag(cullFront, 0x1) | Flag(cullBack, 0x2) | Flag(clockwise, 0x4)
  }

  function PackFlags(clip: bool, coverage: bool, rootCbv: bool): bv32 {
    Flag(clip, 0x1) | Flag(coverage, 0x2) | Flag(rootCbv, 0x4)
  }

  function PackMasks(a: bv32, b: bv32, c: bv32, d: bv32): bv32 { a | (b << 4) | (c << 8) | (d << 12) }

  function PackStencil(readMask: bv32, writeMask: bv32): bv32 { (readMask << 8) | (writeMask << 16) }

  function Pack(r: Registers): Key {
    Key(Slots(r.a.format, r.b.format, r.c.format, r.d.format), r.depthFormat, r.samples,
        Slots(PackBlend(r.a.blend), PackBlend(r.b.blend), PackBlend(r.c.blend), PackBlend(r.d.blend)),
        PackDepth(r.depth), PackSetup(r.cullFront, r.cullBack, r.clockwise),
        PackMasks(r.a.writeMask, r.b.writeMask, r.c.writeMask, r.d.writeMask),
        PackStencil(r.readMask, r.writeMask), r.bias, r.slope,
        PackFlags(r.clip, r.coverage, r.rootCbv), r.sampleMask,
        Flag(r.noAlphaTest, 0x1), 0)
  }

  predicate BlendFits(b: BlendControl) {
    b.srcColor < 32 && b.opColor < 8 && b.dstColor < 32 && b.srcAlpha < 32 && b.opAlpha < 8 && b.dstAlpha < 32
  }

  predicate FaceFits(f: FaceOps) { f.func < 8 && f.fail < 8 && f.pass < 8 && f.depthFail < 8 }

  predicate Fits(r: Registers) {
    && BlendFits(r.a.blend) && BlendFits(r.b.blend) && BlendFits(r.c.blend) && BlendFits(r.d.blend)
    && r.a.writeMask < 16 && r.b.writeMask < 16 && r.c.writeMask < 16 && r.d.writeMask < 16
    && r.depth.zfunc < 8 && FaceFits(r.depth.front) && FaceFits(r.depth.back) && r.readMask < 256 && r.writeMask < 256
  }

  // ----- the words read back -----

  lemma BlendBack(b: BlendControl)
    requires BlendFits(b)
    ensures var w := PackBlend(b);
            && SrcColor(w) == b.srcColor && OpColor(w) == b.opColor && DstColor(w) == b.dstColor
            && SrcAlpha(w) == b.srcAlpha && OpAlpha(w) == b.opAlpha && DstAlpha(w) == b.dstAlpha
  {}

  lemma MasksBack(a: bv32, b: bv32, c: bv32, d: bv32)
    requires a < 16 && b < 16 && c < 16 && d < 16
    ensures var w := PackMasks(a, b, c, d);
            WriteMask(w, 0) == a && WriteMask(w, 1) == b && WriteMask(w, 2) == c && WriteMask(w, 3) == d
  {}

  lemma StencilMasksBack(readMask: bv32, writeMask: bv32)
    requires readMask < 256 && writeMask < 256
    ensures var w := PackStencil(readMask, writeMask); ReadMask(w) == readMask && StencilWriteMask(w) == writeMask
  {}

  lemma SetupBack(cullFront: bool, cullBack: bool, clockwise: bool)
    ensures var w := PackSetup(cullFront, cullBack, clockwise);
            && (BothCulled(w) <==> cullFront && cullBack) && (CounterClockwise(w) <==> !clockwise)
            && (!BothCulled(w) ==> Cull(w) == if cullFront then 1 else if cullBack then 2 else 0)
  {}

  lemma FlagsBack(clip: bool, coverage: bool, rootCbv: bool)
    ensures var w := PackFlags(clip, coverage, rootCbv);
            (ClipBit(w) <==> clip) && (CoverageBit(w) <==> coverage) && (RootBit(w) <==> rootCbv)
  {}

  lemma DepthBitsBack(d: DepthControl)
    requires d.zfunc < 8 && FaceFits(d.front) && FaceFits(d.back)
    ensures var w := PackDepth(d);
            && (StencilBit(w) <==> d.stencil) && (BackBit(w) <==> d.backEnable)
            && (w & 0x2 != 0 <==> d.test) && (w & 0x4 != 0 <==> d.write) && (w >> 4) & 0x7 == d.zfunc
  {}

  lemma FrontBack(d: DepthControl)
    requires d.zfunc < 8 && FaceFits(d.front) && FaceFits(d.back)
    ensures FrontOf(PackDepth(d)) == BuildFace(d.front)
  {}

  lemma BackBack(d: DepthControl)
    requires d.zfunc < 8 && FaceFits(d.front) && FaceFits(d.back)
    ensures BackOf(PackDepth(d)) == BuildFace(d.back)
  {}

  lemma TargetBack(m: BlendMaps, s: SlotState)
    requires BlendFits(s.blend)
    ensures TargetOf(m, s.format, PackBlend(s.blend), s.writeMask) == BuildTarget(m, s)
  {
    BlendBack(s.blend);
    hide PackBlend, SrcColor, OpColor, DstColor, SrcAlpha, OpAlpha, DstAlpha;
  }

  lemma DepthFromBits(w: bv32, d: DepthControl, format: bv32)
    requires (w & 0x2 != 0 <==> d.test) && (w & 0x4 != 0 <==> d.write) && (w >> 4) & 0x7 == d.zfunc
    ensures DepthOf(w, format) == Depth(d.test && format != 0, d.write, d.zfunc + 1)
  {}

  lemma StencilFromBits(w: bv32, masks: bv32, r: Registers)
    requires (StencilBit(w) <==> r.depth.stencil) && (BackBit(w) <==> r.depth.backEnable)
    requires FrontOf(w) == BuildFace(r.depth.front) && BackOf(w) == BuildFace(r.depth.back)
    requires ReadMask(masks) == r.readMask && StencilWriteMask(masks) == r.writeMask
    ensures StencilOf(w, masks, r.depthFormat) == BuildStencil(r)
  {
    hide FrontOf, BackOf, StencilBit, BackBit, ReadMask, StencilWriteMask, BuildFace;
  }

  lemma DepthBack(r: Registers)
    requires Fits(r)
    ensures DepthOf(PackDepth(r.depth), r.depthFormat)
            == Depth(r.depth.test && r.depthFormat != 0, r.depth.write, r.depth.zfunc + 1)
  {
    DepthBitsBack(r.depth);
    hide PackDepth, DepthOf;
    DepthFromBits(PackDepth(r.depth), r.depth, r.depthFormat);
  }

  lemma StencilBack(r: Registers)
    requires Fits(r)
    ensures StencilOf(PackDepth(r.depth), PackStencil(r.readMask, r.writeMask), r.depthFormat) == BuildStencil(r)
  {
    hide PackDepth, PackStencil, FrontOf, BackOf, StencilBit, BackBit, ReadMask, StencilWriteMask, BuildFace, StencilOf, BuildStencil;
    DepthBitsBack(r.depth);
    FrontBack(r.depth);
    BackBack(r.depth);
    StencilMasksBack(r.readMask, r.writeMask);
    StencilFromBits(PackDepth(r.depth), PackStencil(r.readMask, r.writeMask), r);
  }

  /** Reading raw key words gives the state the builder fills in from the registers packed into them. */
  lemma PackedDescribesTheBuild(m: BlendMaps, r: Registers)
    requires Fits(r)
    ensures Describe(m, Pack(r)) == Build(m, r)
  {
    hide TargetOf, BuildTarget, PackBlend, PackDepth, PackSetup, PackFlags, PackMasks, PackStencil, WriteMask, DepthOf,
         StencilOf, BuildStencil, BothCulled, Cull, CounterClockwise, ClipBit, CoverageBit, RootBit, Flag;
    TargetBack(m, r.a);
    TargetBack(m, r.b);
    TargetBack(m, r.c);
    TargetBack(m, r.d);
    MasksBack(r.a.writeMask, r.b.writeMask, r.c.writeMask, r.d.writeMask);
    DepthBack(r);
    StencilBack(r);
    SetupBack(r.cullFront, r.cullBack, r.clockwise);
    FlagsBack(r.clip, r.coverage, r.rootCbv);
    VariantBack(r.noAlphaTest);
  }

  lemma VariantBack(noAlphaTest: bool)
    ensures Flag(noAlphaTest, 0x1) == 0 <==> !noAlphaTest
  {}

  // ----- normalization forgets everything the builder does not read -----

  /** Maps that tell the guest's values apart. */
  ghost predicate Separates(m: BlendMaps) {
    && (forall x, y, alpha | m.factor(x, alpha) == m.factor(y, alpha) :: x == y)
    && (forall x, y | m.op(x) == m.op(y) :: x == y)
  }

  lemma BlendForgets(x: bv32, y: bv32)
    requires SrcColor(x) == SrcColor(y) && OpColor(x) == OpColor(y) && DstColor(x) == DstColor(y)
    requires SrcAlpha(x) == SrcAlpha(y) && OpAlpha(x) == OpAlpha(y) && DstAlpha(x) == DstAlpha(y)
    ensures And(x, 0x1FFF_1FFF) == And(y, 0x1FFF_1FFF)
  {}

  lemma TargetForgets(m: BlendMaps, format: bv32, x: bv32, y: bv32, mx: bv32, my: bv32)
    requires Separates(m) && TargetOf(m, format, x, mx) == TargetOf(m, format, y, my)
    ensures NormalBlend(format, x) == NormalBlend(format, y) && (format != 0 ==> mx == my)
  {
    hide SrcColor, OpColor, DstColor, SrcAlpha, OpAlpha, DstAlpha, And;
    if format != 0 {
      var s, t := TargetOf(m, format, x, mx), TargetOf(m, format, y, my);
      assert m.factor(SrcColor(x), false) == s.source == t.source == m.factor(SrcColor(y), false);
      assert m.factor(DstColor(x), false) == m.factor(DstColor(y), false) && m.op(OpColor(x)) == m.op(OpColor(y));
      assert m.factor(SrcAlpha(x), true) == m.factor(SrcAlpha(y), true) && m.op(OpAlpha(x)) == m.op(OpAlpha(y));
      assert m.factor(DstAlpha(x), true) == m.factor(DstAlpha(y), true);
      BlendForgets(x, y);
    }
  }

  lemma MasksForget(x: bv32, y: bv32, a: bool, b: bool, c: bool, d: bool)
    requires a ==> WriteMask(x, 0) == WriteMask(y, 0)
    requires b ==> WriteMask(x, 1) == WriteMask(y, 1)
    requires c ==> WriteMask(x, 2) == WriteMask(y, 2)
    requires d ==> WriteMask(x, 3) == WriteMask(y, 3)
    ensures And(x, MaskOf(a, b, c, d)) == And(y, MaskOf(a, b, c, d))
  {}

  lemma TargetsForget(m: BlendMaps, formats: Slots, x: Slots, y: Slots, mx: bv32, my: bv32)
    requires Separates(m) && TargetsOf(m, formats, x, mx) == TargetsOf(m, formats, y, my)
    ensures NormalBlends(formats, x) == NormalBlends(formats, y)
    ensures And(mx, BoundMask(formats)) == And(my, BoundMask(formats))
  {
    hide TargetOf, NormalBlend, WriteMask, MaskOf, And;
    TargetForgets(m, formats.a, x.a, y.a, WriteMask(mx, 0), WriteMask(my, 0));
    TargetForgets(m, formats.b, x.b, y.b, WriteMask(mx, 1), WriteMask(my, 1));
    TargetForgets(m, formats.c, x.c, y.c, WriteMask(mx, 2), WriteMask(my, 2));
    TargetForgets(m, formats.d, x.d, y.d, WriteMask(mx, 3), WriteMask(my, 3));
    MasksForget(mx, my, formats.a != 0, formats.b != 0, formats.c != 0, formats.d != 0);
  }

  lemma StencilBitShows(x: bv32, rx: bv32, y: bv32, ry: bv32, format: bv32)
    requires StencilOf(x, rx, format) == StencilOf(y, ry, format)
    ensures StencilBit(x) == StencilBit(y)
  {
    FaceNotEmpty(x);
    FaceNotEmpty(y);
    hide FrontOf, BackOf, StencilBit, BackBit, ReadMask, StencilWriteMask;
  }

  lemma FaceNotEmpty(x: bv32)
    ensures FrontOf(x) != NO_FACE
  {}

  lemma MasksKept(x: bv32, y: bv32)
    requires ReadMask(x) == ReadMask(y) && StencilWriteMask(x) == StencilWriteMask(y)
    ensures And(x, 0x00FF_FF00) == And(y, 0x00FF_FF00)
  {}

  lemma StencilForgets(x: bv32, rx: bv32, y: bv32, ry: bv32, format: bv32)
    requires StencilOf(x, rx, format) == StencilOf(y, ry, format)
    ensures NormalStencil(x, rx) == NormalStencil(y, ry)
  {
    StencilBitShows(x, rx, y, ry, format);
    if StencilBit(x) {
      MasksKept(rx, ry);
    }
    hide FrontOf, BackOf, StencilBit, BackBit, ReadMask, StencilWriteMask, And;
  }

  /** Without stencil only the depth test's fields are left; with it also the front face's, and the back face's if used. */
  lemma DepthWordOff(x: bv32, y: bv32, format: bv32)
    requires !StencilBit(x) && !StencilBit(y) && DepthOf(x, format) == DepthOf(y, format)
    ensures NormalDepth(x, format) == NormalDepth(y, format)
  {}

  lemma DepthWordFront(x: bv32, y: bv32, format: bv32)
    requires StencilBit(x) && StencilBit(y) && !BackBit(x) && !BackBit(y)
    requires DepthOf(x, format) == DepthOf(y, format) && FrontOf(x) == FrontOf(y)
    ensures NormalDepth(x, format) == NormalDepth(y, format)
  {}

  lemma DepthWordBoth(x: bv32, y: bv32, format: bv32)
    requires StencilBit(x) && StencilBit(y) && BackBit(x) && BackBit(y)
    requires DepthOf(x, format) == DepthOf(y, format) && FrontOf(x) == FrontOf(y) && BackOf(x) == BackOf(y)
    ensures NormalDepth(x, format) == NormalDepth(y, format)
  {}

  lemma DepthForgets(x: bv32, rx: bv32, y: bv32, ry: bv32, format: bv32)
    requires DepthOf(x, format) == DepthOf(y, format) && StencilOf(x, rx, format) == StencilOf(y, ry, format)
    requires StencilBit(x) ==> BackBit(x) == BackBit(y)
    ensures NormalDepth(x, format) == NormalDepth(y, format)
  {
    StencilBitShows(x, rx, y, ry, format);
    if !StencilBit(x) {
      DepthWordOff(x, y, format);
    } else if BackBit(x) {
      DepthWordBoth(x, y, format);
    } else {
      DepthWordFront(x, y, format);
    }
    hide DepthOf, FrontOf, BackOf, StencilBit, BackBit, ReadMask, StencilWriteMask, NormalDepth;
  }

  lemma SetupForgets(x: bv32, y: bv32)
    requires Cull(x) == Cull(y) && CounterClockwise(x) == CounterClockwise(y)
    ensures And(x, 0x7) == And(y, 0x7)
  {}

  lemma FlagsForget(x: bv32, y: bv32, several: bool)
    requires x < 8 && y < 8 && ClipBit(x) == ClipBit(y) && RootBit(x) == RootBit(y)
    requires several ==> CoverageBit(x) == CoverageBit(y)
    ensures if several then x == y else And(x, 0xFFFF_FFFD) == And(y, 0xFFFF_FFFD)
  {}

  /** The words the native pass fills in with fewer values than they could hold. */
  predicate AsMade(k: Key) { k.flags < 8 && k.variant < 2 && k.reserved == 0 }

  /**
   Keys as the pass makes them share a normalized key exactly when they ask for the same state, unless they are refused
   or one spells out for the back face what the other copies from the front.
   */
  lemma SameKeyIffSameState(m: BlendMaps, x: Key, y: Key)
    requires Separates(m) && AsMade(x) && AsMade(y) && Describe(m, x).Some?
    requires StencilBit(x.depth) && StencilBit(y.depth) ==> BackBit(x.depth) == BackBit(y.depth)
    ensures Normalized(x) == Normalized(y) <==> Describe(m, x) == Describe(m, y)
  {
    if Normalized(x) == Normalized(y) {
      SharedKeysShareState(m, x, y);
    }
    if Describe(m, x) == Describe(m, y) {
      StateFixesKey(m, x, y);
    }
  }

  lemma StateFixesKey(m: BlendMaps, x: Key, y: Key)
    requires Separates(m) && AsMade(x) && AsMade(y) && Describe(m, x).Some? && Describe(m, x) == Describe(m, y)
    requires StencilBit(x.depth) && StencilBit(y.depth) ==> BackBit(x.depth) == BackBit(y.depth)
    ensures Normalized(x) == Normalized(y)
  {
    hide TargetsOf, DepthOf, StencilOf, NormalBlends, NormalDepth, NormalStencil, BoundMask, TargetCount, And, StencilBit, BackBit,
         BothCulled, Cull, CounterClockwise, ClipBit, CoverageBit, RootBit;
    TargetsForget(m, x.formats, x.blend, y.blend, x.colorMask, y.colorMask);
    StencilBitShows(x.depth, x.stencil, y.depth, y.stencil, x.depthFormat);
    DepthForgets(x.depth, x.stencil, y.depth, y.stencil, x.depthFormat);
    StencilForgets(x.depth, x.stencil, y.depth, y.stencil, x.depthFormat);
    SetupForgets(x.setup, y.setup);
    FlagsForget(x.flags, y.flags, Multisampled(x.samples));
    VariantFixed(x.variant, y.variant);
    hide AsMade;
  }

  lemma VariantFixed(x: bv32, y: bv32)
    requires x < 2 && y < 2 && (x == 0 <==> y == 0)
    ensures x == y
  {}
}
