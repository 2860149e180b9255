/**
 The lookup key of a native pipeline and the state it selects (src/gpu/native/native_pipeline_key.h,
 src/gpu/native/native_geometry_pass.cpp, `CreatePipeline`), and the cache that files pipelines under keys.

 Key words are raw 32-bit words. The SDK's register layouts are not part of this model; a field's position is the one
 its mask in the normalization names, and the SDK's blend enumerations enter as arbitrary maps.
 */
module PipelineKey {

  import opened Wrappers

  /** Four words, one for each render-target slot. */
  datatype Slots = Slots(a: bv32, b: bv32, c: bv32, d: bv32)

  /**
   The twenty key words: target formats, depth format, sample count, blend controls, depth control, setup, color mask,
   stencil masks, the bits of the two biases, the clip, coverage and root flags, sample mask, shader choice, reserved.
   */
  datatype Key = Key(formats: Slots, depthFormat: bv32, samples: bv32, blend: Slots, depth: bv32, setup: bv32,
                     colorMask: bv32, stencil: bv32, bias: bv32, slope: bv32, flags: bv32, sampleMask: bv32,
                     variant: bv32, reserved: bv32)

  /** How the enumerations of the guest's blend control map to the host's, and which values mean no blending. */
  datatype BlendMaps = BlendMaps(factor: (bv32, bool) -> int, op: bv32 -> int, one: bv32, zero: bv32, add: bv32)

  // ----- the descriptor -----

  datatype Target = Target(enable: bool, source: int, destination: int, op: int,
                           sourceAlpha: int, destinationAlpha: int, opAlpha: int, writeMask: bv32)

  datatype Targets = Targets(a: Target, b: Target, c: Target, d: Target)

  datatype Face = Face(fail: bv32, depthFail: bv32, pass: bv32, func: bv32)

  datatype Stencil = Stencil(enable: bool, readMask: bv32, writeMask: bv32, front: Face, back: Face)

  datatype Depth = Depth(enable: bool, write: bool, func: bv32)

  datatype Raster = Raster(cull: bv32, frontCounterClockwise: bool, bias: bv32, slopeBits: bv32, clip: bool)

  datatype Descriptor = Descriptor(rootCbv: bool, alphaTest: bool, coverage: bool, targets: Targets, sampleMask: bv32,
                                   raster: Raster, depth: Depth, stencil: Stencil,
                                   formats: Slots, renderTargets: nat, depthFormat: bv32, samples: bv32)

  // The fields of the register words.

  function SrcColor(b: bv32): bv32 { b & 0x1F }

  function OpColor(b: bv32): bv32 { (b >> 5) & 0x7 }

  function DstColor(b: bv32): bv32 { (b >> 8) & 0x1F }

  function SrcAlpha(b: bv32): bv32 { (b >> 16) & 0x1F }

  function OpAlpha(b: bv32): bv32 { (b >> 21) & 0x7 }

  function DstAlpha(b: bv32): bv32 { (b >> 24) & 0x1F }

  /** The four write-enable bits of a slot. */
  function WriteMask(mask: bv32, i: nat): bv32
    requires i < 4
  {
    if i == 0 then mask & 0xF else if i == 1 then (mask >> 4) & 0xF else if i == 2 then (mask >> 8) & 0xF
    else (mask >> 12) & 0xF
  }

  predicate BothCulled(setup: bv32) { setup & 0x3 == 0x3 }

  function Cull(setup: bv32): bv32 { setup & 0x3 }

  predicate CounterClockwise(setup: bv32) { setup & 0x4 == 0 }

  predicate ClipBit(flags: bv32) { flags & 0x1 != 0 }

  predicate CoverageBit(flags: bv32) { flags & 0x2 != 0 }

  predicate RootBit(flags: bv32) { flags & 0x4 != 0 }

  predicate Multisampled(samples: bv32) { samples > 1 }

  predicate StencilBit(depth: bv32) { depth & 0x1 != 0 }

  predicate BackBit(depth: bv32) { depth & 0x80 != 0 }

  function ReadMask(r: bv32): bv32 { (r >> 8) & 0xFF }

  function StencilWriteMask(r: bv32): bv32 { (r >> 16) & 0xFF }

  /** The target state of one slot: fixed and disabled without a format. */
  function TargetOf(m: BlendMaps, format: bv32, blend: bv32, mask: bv32): Target {
    if format == 0 then Target(false, m.factor(m.one, false), m.factor(m.zero, false), m.op(m.add),
                               m.factor(m.one, false), m.factor(m.zero, false), m.op(m.add), 0)
    else
      var identity := SrcColor(blend) == m.one && DstColor(blend) == m.zero && OpColor(blend) == m.add
                      && SrcAlpha(blend) == m.one && DstAlpha(blend) == m.zero && OpAlpha(blend) == m.add;
      Target(!identity, m.factor(SrcColor(blend), false), m.factor(DstColor(blend), false), m.op(OpColor(blend)),
             m.factor(SrcAlpha(blend), true), m.factor(DstAlpha(blend), true), m.op(OpAlpha(blend)), mask)
  }

  const NO_FACE: Face := Face(0, 0, 0, 0)

  function FrontOf(depth: bv32): Face {
    Face(((depth >> 11) & 0x7) + 1, ((depth >> 17) & 0x7) + 1, ((depth >> 14) & 0x7) + 1, ((depth >> 8) & 0x7) + 1)
  }

  function BackOf(depth: bv32): Face {
    Face(((depth >> 23) & 0x7) + 1, ((depth >> 29) & 0x7) + 1, ((depth >> 26) & 0x7) + 1, ((depth >> 20) & 0x7) + 1)
  }

  /** Without a depth format only the enable is overwritten; the faces stay as they were filled in. */
  function StencilOf(depth: bv32, refMask: bv32, depthFormat: bv32): Stencil {
    if !StencilBit(depth) then Stencil(false, 0, 0, NO_FACE, NO_FACE)
    else
      var front := FrontOf(depth);
      Stencil(depthFormat != 0, ReadMask(refMask), StencilWriteMask(refMask), front,
              if BackBit(depth) then BackOf(depth) else front)
  }

  function DepthOf(depth: bv32, depthFormat: bv32): Depth {
    Depth(depth & 0x2 != 0 && depthFormat != 0, depth & 0x4 != 0, ((depth >> 4) & 0x7) + 1)
  }

  /** The render-target count: one past the last slot with a format. */
  function TargetCount(formats: Slots): nat {
    if formats.d != 0 then 4 else if formats.c != 0 then 3 else if formats.b != 0 then 2 else if formats.a != 0 then 1 else 0
  }

  function TargetsOf(m: BlendMaps, formats: Slots, blend: Slots, mask: bv32): Targets {
    Targets(TargetOf(m, formats.a, blend.a, WriteMask(mask, 0)), TargetOf(m, formats.b, blend.b, WriteMask(mask, 1)),
            TargetOf(m, formats.c, blend.c, WriteMask(mask, 2)), TargetOf(m, formats.d, blend.d, WriteMask(mask, 3)))
  }

  /** The pipeline state a key asks for; none when both faces are culled. */
  function Describe(m: BlendMaps, k: Key): Option<Descriptor> {
    if BothCulled(k.setup) then None
    else Some(Descriptor(
      RootBit(k.flags), k.variant == 0, CoverageBit(k.flags) && Multisampled(k.samples),
      TargetsOf(m, k.formats, k.blend, k.colorMask),
      k.sampleMask, Raster(Cull(k.setup), CounterClockwise(k.setup), k.bias, k.slope, ClipBit(k.flags)),
      DepthOf(k.depth, k.depthFormat), StencilOf(k.depth, k.stencil, k.depthFormat),
      k.formats, TargetCount(k.formats), k.depthFormat, k.samples))
  }

  // ----- normalization -----

  function And(a: bv32, b: bv32): bv32 { a & b }

  function NormalBlend(format: bv32, blend: bv32): bv32 {
    if format != 0 then And(blend, 0x1FFF_1FFF) else 0
  }

  /** The write-mask bits of the slots that have a format. */
  function BoundMask(formats: Slots): bv32 {
    MaskOf(formats.a != 0, formats.b != 0, formats.c != 0, formats.d != 0)
  }

  function MaskOf(a: bool, b: bool, c: bool, d: bool): bv32 {
    (((if a then 0xF else 0) as bv32 | (if b then 0xF0 else 0)) | (if c then 0xF00 else 0)) | (if d then 0xF000 else 0)
  }

  /** The padding bit, then what is unused without stencil or without a separate back face. */
  function NormalDepth(depth: bv32, depthFormat: bv32): bv32 {
    var padded := And(depth, 0xFFFF_FFF7);
    var stencilled :=
      if !StencilBit(depth) then And(padded, 0x76)
      else if !BackBit(depth) then And(padded, 0x000F_FFFF)
      else padded;
    if depthFormat == 0 then And(stencilled, 0xFFFF_FFFD) else stencilled
  }

  function NormalStencil(depth: bv32, refMask: bv32): bv32 {
    if !StencilBit(depth) then 0 else And(refMask, 0x00FF_FF00)
  }

  function NormalBlends(formats: Slots, blend: Slots): Slots {
    Slots(NormalBlend(formats.a, blend.a), NormalBlend(formats.b, blend.b),
          NormalBlend(formats.c, blend.c), NormalBlend(formats.d, blend.d))
  }

  function Normalized(k: Key): Key {
    k.(blend := NormalBlends(k.formats, k.blend),
       depth := NormalDepth(k.depth, k.depthFormat),
       setup := And(k.setup, 0x7),
       colorMask := And(k.colorMask, BoundMask(k.formats)),
       stencil := NormalStencil(k.depth, k.stencil),
       flags := if Multisampled(k.samples) then k.flags else And(k.flags, 0xFFFF_FFFD))
  }

  // ----- the same descriptor -----

  lemma BlendFields(b: bv32)
    ensures var n := And(b, 0x1FFF_1FFF);
            && SrcColor(n) == SrcColor(b) && OpColor(n) == OpColor(b) && DstColor(n) == DstColor(b)
            && SrcAlpha(n) == SrcAlpha(b) && OpAlpha(n) == OpAlpha(b) && DstAlpha(n) == DstAlpha(b)
  {}

  lemma TargetSame(m: BlendMaps, format: bv32, blend: bv32, mask: bv32, mask': bv32)
    requires format != 0 ==> mask' == mask
    ensures TargetOf(m, format, NormalBlend(format, blend), mask') == TargetOf(m, format, blend, mask)
  {
    BlendFields(blend);
    hide SrcColor, OpColor, DstColor, SrcAlpha, OpAlpha, DstAlpha, And;
  }

  lemma MaskBits(x: bv32, a: bool, b: bool, c: bool, d: bool)
    ensures a ==> WriteMask(And(x, MaskOf(a, b, c, d)), 0) == WriteMask(x, 0)
    ensures b ==> WriteMask(And(x, MaskOf(a, b, c, d)), 1) == WriteMask(x, 1)
    ensures c ==> WriteMask(And(x, MaskOf(a, b, c, d)), 2) == WriteMask(x, 2)
    ensures d ==> WriteMask(And(x, MaskOf(a, b, c, d)), 3) == WriteMask(x, 3)
  {}

  lemma DepthSame(depth: bv32, depthFormat: bv32)
    ensures DepthOf(NormalDepth(depth, depthFormat), depthFormat) == DepthOf(depth, depthFormat)
  {}

  lemma FrontWithoutPadding(d: bv32)
    ensures FrontOf(And(d, 0xFFFF_FFF7)) == FrontOf(d)
  {}

  lemma FrontWithoutBack(d: bv32)
    ensures FrontOf(And(d, 0x000F_FFFF)) == FrontOf(d)
  {}

  lemma FrontWithoutTest(d: bv32)
    ensures FrontOf(And(d, 0xFFFF_FFFD)) == FrontOf(d)
  {}

  lemma BackSame(d: bv32)
    ensures BackOf(And(d, 0xFFFF_FFF7)) == BackOf(d) && BackOf(And(d, 0xFFFF_FFFD)) == BackOf(d)
  {}

  lemma FacesSame(depth: bv32, depthFormat: bv32)
    requires StencilBit(depth)
    ensures FrontOf(NormalDepth(depth, depthFormat)) == FrontOf(depth)
    ensures BackBit(depth) ==> BackOf(NormalDepth(depth, depthFormat)) == BackOf(depth)
  {
    var padded := And(depth, 0xFFFF_FFF7);
    FrontWithoutPadding(depth);
    FrontWithoutBack(padded);
    FrontWithoutTest(padded);
    FrontWithoutTest(And(padded, 0x000F_FFFF));
    BackSame(depth);
    BackSame(padded);
    hide And, FrontOf, BackOf, StencilBit, BackBit;
  }

  lemma StencilOff(depth: bv32, depthFormat: bv32)
    ensures StencilBit(NormalDepth(depth, depthFormat)) == StencilBit(depth)
  {}

  lemma MasksSame(r: bv32)
    ensures ReadMask(And(r, 0x00FF_FF00)) == ReadMask(r) && StencilWriteMask(And(r, 0x00FF_FF00)) == StencilWriteMask(r)
  {}

  lemma StencilSame(depth: bv32, refMask: bv32, depthFormat: bv32)
    ensures StencilOf(NormalDepth(depth, depthFormat), NormalStencil(depth, refMask), depthFormat)
            == StencilOf(depth, refMask, depthFormat)
  {
    StencilOff(depth, depthFormat);
    if StencilBit(depth) {
      FacesSame(depth, depthFormat);
      BackBitKept(depth, depthFormat);
      MasksSame(refMask);
    }
    hide StencilBit, BackBit, FrontOf, BackOf, ReadMask, StencilWriteMask, And, NormalDepth;
  }

  lemma FlagsSame(f: bv32)
    ensures var n := And(f, 0xFFFF_FFFD);
            RootBit(n) == RootBit(f) && ClipBit(n) == ClipBit(f) && !CoverageBit(n)
  {}

  lemma SetupSame(s: bv32)
    ensures var n := And(s, 0x7);
            BothCulled(n) == BothCulled(s) && Cull(n) == Cull(s) && CounterClockwise(n) == CounterClockwise(s)
  {}

  lemma TargetsSame(m: BlendMaps, formats: Slots, blend: Slots, mask: bv32)
    ensures TargetsOf(m, formats, NormalBlends(formats, blend), And(mask, BoundMask(formats)))
            == TargetsOf(m, formats, blend, mask)
  {
    var bound := And(mask, BoundMask(formats));
    MaskBits(mask, formats.a != 0, formats.b != 0, formats.c != 0, formats.d != 0);
    hide TargetOf, NormalBlend, MaskOf, WriteMask, And;
    TargetSame(m, formats.a, blend.a, WriteMask(mask, 0), WriteMask(bound, 0));
    TargetSame(m, formats.b, blend.b, WriteMask(mask, 1), WriteMask(bound, 1));
    TargetSame(m, formats.c, blend.c, WriteMask(mask, 2), WriteMask(bound, 2));
    TargetSame(m, formats.d, blend.d, WriteMask(mask, 3), WriteMask(bound, 3));
  }

  /** A key and its normalized key ask for the same pipeline state, or are both refused. */
  lemma NormalizedDescribesTheSame(m: BlendMaps, k: Key)
    ensures Describe(m, Normalized(k)) == Describe(m, k)
  {
    hide TargetsOf, DepthOf, StencilOf, NormalBlends, NormalDepth, NormalStencil, BoundMask, TargetCount, And,
         BothCulled, Cull, CounterClockwise, ClipBit, CoverageBit, RootBit, Multisampled;
    SetupSame(k.setup);
    FlagsSame(k.flags);
    TargetsSame(m, k.formats, k.blend, k.colorMask);
    DepthSame(k.depth, k.depthFormat);
    StencilSame(k.depth, k.stencil, k.depthFormat);
  }

  lemma AndTwice(a: bv32, m: bv32)
    ensures And(And(a, m), m) == And(a, m)
  {}

  lemma BackBitKept(depth: bv32, depthFormat: bv32)
    ensures StencilBit(depth) ==> BackBit(NormalDepth(depth, depthFormat)) == BackBit(depth)
  {}

  lemma AndOrder(d: bv32, a: bv32, b: bv32, c: bv32)
    ensures And(And(And(And(And(And(d, a), b), c), a), b), c) == And(And(And(d, a), b), c)
    ensures And(And(And(And(d, a), b), a), b) == And(And(d, a), b)
  {}

  lemma DepthTwice(depth: bv32, depthFormat: bv32)
    ensures NormalDepth(NormalDepth(depth, depthFormat), depthFormat) == NormalDepth(depth, depthFormat)
  {
    StencilOff(depth, depthFormat);
    BackBitKept(depth, depthFormat);
    AndTwice(depth, 0xFFFF_FFF7);
    AndOrder(depth, 0xFFFF_FFF7, 0x76, 0xFFFF_FFFD);
    AndOrder(depth, 0xFFFF_FFF7, 0x000F_FFFF, 0xFFFF_FFFD);
    AndOrder(depth, 0xFFFF_FFF7, 0xFFFF_FFFD, 0xFFFF_FFFD);
    hide And, StencilBit, BackBit;
  }

  lemma StencilTwice(depth: bv32, refMask: bv32, depthFormat: bv32)
    ensures NormalStencil(NormalDepth(depth, depthFormat), NormalStencil(depth, refMask)) == NormalStencil(depth, refMask)
  {
    StencilOff(depth, depthFormat);
    AndTwice(refMask, 0x00FF_FF00);
    hide And, StencilBit, NormalDepth;
  }

  lemma BlendTwice(format: bv32, blend: bv32)
    ensures NormalBlend(format, NormalBlend(format, blend)) == NormalBlend(format, blend)
  {
    AndTwice(blend, 0x1FFF_1FFF);
    hide And;
  }

  /** Normalizing twice is normalizing once. */
  lemma NormalizedTwice(k: Key)
    ensures Normalized(Normalized(k)) == Normalized(k)
  {
    hide NormalBlend, NormalDepth, NormalStencil, BoundMask, And, Multisampled;
    BlendTwice(k.formats.a, k.blend.a);
    BlendTwice(k.formats.b, k.blend.b);
    BlendTwice(k.formats.c, k.blend.c);
    BlendTwice(k.formats.d, k.blend.d);
    DepthTwice(k.depth, k.depthFormat);
    StencilTwice(k.depth, k.stencil, k.depthFormat);
    AndTwice(k.setup, 0x7);
    AndTwice(k.colorMask, BoundMask(k.formats));
    AndTwice(k.flags, 0xFFFF_FFFD);
  }

  /** Keys that normalize alike can share a pipeline. */
  lemma SharedKeysShareState(m: BlendMaps, a: Key, b: Key)
    requires Normalized(a) == Normalized(b)
    ensures Describe(m, a) == Describe(m, b)
  {
    hide Describe, Normalized;
    NormalizedDescribesTheSame(m, a);
    NormalizedDescribesTheSame(m, b);
  }

  // ----- normalizing in place -----

  function Difference(a: bv32, b: bv32): bv32 { a ^ b }

  lemma DifferenceZero(a: bv32, b: bv32)
    ensures Difference(a, b) == 0 <==> a == b
  {
    DifferenceBack(a, b);
    DifferenceSelf(a);
    if Difference(a, b) == 0 { DifferenceNone(b); }
    hide Difference;
  }

  lemma DifferenceBack(a: bv32, b: bv32)
    ensures Difference(Difference(a, b), b) == a
  {}

  lemma DifferenceNone(a: bv32)
    ensures Difference(0, a) == a
  {}

  lemma DifferenceSelf(a: bv32)
    ensures Difference(a, a) == 0
  {}

  /** Replaces one word; the answer remembers whether any word so far was changed. */
  method Replace(word: bv32, value: bv32, changed: bool) returns (replaced: bv32, changed': bool)
    ensures replaced == value && (changed' <==> changed || word != value)
  {
    DifferenceZero(word, value);
    return value, changed || Difference(word, value) != 0;
  }

  method NormalizeBlends(formats: Slots, blend: Slots) returns (blend': Slots, changed: bool)
    ensures blend' == NormalBlends(formats, blend) && (changed <==> blend' != blend)
  {
    hide NormalBlend;
    var a, b, c, d;
    a, changed := Replace(blend.a, NormalBlend(formats.a, blend.a), false);
    b, changed := Replace(blend.b, NormalBlend(formats.b, blend.b), changed);
    c, changed := Replace(blend.c, NormalBlend(formats.c, blend.c), changed);
    d, changed := Replace(blend.d, NormalBlend(formats.d, blend.d), changed);
    blend' := Slots(a, b, c, d);
  }

  /** Replaces the words one by one and tells whether any changed. */
  method NormalizeNativePipelineKey(k: Key) returns (n: Key, changed: bool)
    ensures n == Normalized(k) && (changed <==> n != k)
  {
    hide *;
    n, changed := NormalizeColor(k);
    n, changed := NormalizeRest(k, n, changed);
  }

  /** The blend controls and the color mask. */
  method NormalizeColor(k: Key) returns (n: Key, changed: bool)
    ensures n == k.(blend := NormalBlends(k.formats, k.blend), colorMask := And(k.colorMask, BoundMask(k.formats)))
    ensures changed <==> n != k
  {
    hide NormalBlends, BoundMask, And;
    var blend, color;
    blend, changed := NormalizeBlends(k.formats, k.blend);
    color, changed := Replace(k.colorMask, And(k.colorMask, BoundMask(k.formats)), changed);
    n := k.(blend := blend, colorMask := color);
  }

  /** The depth control, the stencil masks, the setup word and the coverage flag. */
  method NormalizeRest(k: Key, colored: Key, before: bool) returns (n: Key, changed: bool)
    requires colored == k.(blend := NormalBlends(k.formats, k.blend), colorMask := And(k.colorMask, BoundMask(k.formats)))
    requires before <==> colored != k
    ensures n == Normalized(k) && (changed <==> n != k)
  {
    hide NormalBlends, NormalDepth, NormalStencil, BoundMask, And, Multisampled;
    var stencil, depth, setup, flags;
    stencil, changed := Replace(k.stencil, NormalStencil(k.depth, k.stencil), before);
    depth, changed := Replace(k.depth, NormalDepth(k.depth, k.depthFormat), changed);
    setup, changed := Replace(k.setup, And(k.setup, 0x7), changed);
    flags := k.flags;
    if !Multisampled(k.samples) {
      flags, changed := Replace(k.flags, And(k.flags, 0xFFFF_FFFD), changed);
    }
    n := colored.(depth := depth, stencil := stencil, setup := setup, flags := flags);
    RestDiffers(k, colored, depth, stencil, setup, flags);
  }

  lemma RestDiffers(k: Key, colored: Key, depth: bv32, stencil: bv32, setup: bv32, flags: bv32)
    requires colored == k.(blend := colored.blend, colorMask := colored.colorMask)
    ensures colored.(depth := depth, stencil := stencil, setup := setup, flags := flags) == k
            <==> colored == k && depth == k.depth && stencil == k.stencil && setup == k.setup && flags == k.flags
  {}

  // ----- the pipeline cache -----

  /** A created pipeline and the state it was created with. */
  datatype Pipe = Pipe(id: int, state: Descriptor)

  /** A creation on a worker: what it builds, and its outcome once there is one. */
  datatype Build = Build(state: Descriptor, done: Option<Option<Pipe>>)

  /** The pipeline of a key is there: filed, or finished and waiting to be. */
  ghost predicate Ready<K>(pipelines: map<K, Option<Pipe>>, pending: map<K, Build>, k: K, pipe: Pipe) {
    (k in pipelines && pipelines[k] == Some(pipe)) || (k in pending && pending[k].done == Some(Some(pipe)))
  }

  /** From `before` and `building`: exactly the finished creations were filed but those of `left`; the others go on. */
  ghost predicate Reaped<K(!new)>(before: map<K, Option<Pipe>>, building: map<K, Build>, left: set<K>,
                                  pipelines: map<K, Option<Pipe>>, pending: map<K, Build>) {
    && (forall k :: k in pending <==> k in building && (k in left || building[k].done.None?))
    && (forall k | k in pending :: pending[k] == building[k])
    && (forall k :: k in pipelines <==> k in before || (k in building && k !in left && building[k].done.Some?))
    && (forall k | k in pipelines :: pipelines[k] == if k in before then before[k] else building[k].done.value)
  }

  lemma NothingReaped<K(!new)>(before: map<K, Option<Pipe>>, building: map<K, Build>)
    requires forall k | k in building :: k !in before
    ensures Reaped(before, building, building.Keys, before, building)
    ensures building == map[] ==> Reaped(before, building, {}, before, building)
  {}

  lemma OneReaped<K(!new)>(before: map<K, Option<Pipe>>, building: map<K, Build>, left: set<K>,
                           pipelines: map<K, Option<Pipe>>, pending: map<K, Build>, k: K)
    requires Reaped(before, building, left, pipelines, pending) && k in left && k in building && k !in before
    ensures k in pending && pending[k] == building[k]
    ensures building[k].done.None? ==> Reaped(before, building, left - {k}, pipelines, pending)
    ensures building[k].done.Some? ==>
              Reaped(before, building, left - {k}, pipelines[k := building[k].done.value], pending - {k})
  {}

  /** A pipeline that was filed or finished is the answer, and the answer is what is filed under the key afterwards. */
  ghost predicate AnswersReady<K>(before: map<K, Option<Pipe>>, building: map<K, Build>,
                                  pipelines: map<K, Option<Pipe>>, key: K, p: Option<Pipe>) {
    && (forall pipe | Ready(before, building, key, pipe) :: p == Some(pipe))
    && p == (if key in pipelines then pipelines[key] else None)
  }

  /** A key that is nowhere is filed as refused when its state says so, and else asked for when a slot is free. */
  ghost predicate AsksAbsent<K>(before: map<K, Option<Pipe>>, building: map<K, Build>,
                                pipelines: map<K, Option<Pipe>>, pending: map<K, Build>,
                                key: K, state: Option<Descriptor>, slotFree: bool) {
    key !in before && key !in building ==>
      if state == None then key in pipelines && pipelines[key] == None && key !in pending
      else key !in pipelines && (key in pending <==> slotFree) && (slotFree ==> pending[key] == Build(state.value, None))
  }

  /** Nothing filed, finished or under way is lost, and no other key comes in. */
  ghost predicate KeepsOthers<K(!new)>(before: map<K, Option<Pipe>>, building: map<K, Build>,
                                       pipelines: map<K, Option<Pipe>>, pending: map<K, Build>, key: K) {
    && (forall k | k in before :: k in pipelines && pipelines[k] == before[k])
    && (forall k | k in building :: if building[k].done.None? then k in pending && pending[k] == building[k]
                                    else k in pipelines && pipelines[k] == building[k].done.value)
    && (forall k | k in pipelines && k != key :: k in before || k in building)
    && (forall k | k in pending && k != key :: k in building && building[k].done.None?)
  }

  lemma ReadyAnswered<K(!new)>(before: map<K, Option<Pipe>>, building: map<K, Build>,
                               filed: map<K, Option<Pipe>>, open: map<K, Build>,
                               pipelines: map<K, Option<Pipe>>, key: K, p: Option<Pipe>)
    requires Reaped(before, building, {}, filed, open) && forall k | k in building :: k !in before
    requires p == if key in filed then filed[key] else None
    requires pipelines == filed || (key !in filed && pipelines == filed[key := None])
    ensures AnswersReady(before, building, pipelines, key, p)
  {}

  lemma AbsentAsked<K(!new)>(before: map<K, Option<Pipe>>, building: map<K, Build>,
                             filed: map<K, Option<Pipe>>, open: map<K, Build>,
                             pipelines: map<K, Option<Pipe>>, pending: map<K, Build>,
                             key: K, state: Option<Descriptor>, slotFree: bool)
    requires Reaped(before, building, {}, filed, open)
    requires var absent := key !in filed && key !in open;
             && pipelines == (if absent && state == None then filed[key := None] else filed)
             && pending == if absent && state.Some? && slotFree then open[key := Build(state.value, None)] else open
    ensures AsksAbsent(before, building, pipelines, pending, key, state, slotFree)
  {}

  lemma OthersKept<K(!new)>(before: map<K, Option<Pipe>>, building: map<K, Build>,
                            filed: map<K, Option<Pipe>>, open: map<K, Build>,
                            pipelines: map<K, Option<Pipe>>, pending: map<K, Build>, key: K, asked: Option<Build>)
    requires Reaped(before, building, {}, filed, open) && forall k | k in building :: k !in before
    requires pipelines == filed || (key !in filed && pipelines == filed[key := None])
    requires pending == if asked.Some? && key !in open then open[key := asked.value] else open
    ensures KeepsOthers(before, building, pipelines, pending, key)
  {}

  /** A pipeline that is there stays there. */
  lemma ReadyStays<K(!new)>(before: map<K, Option<Pipe>>, building: map<K, Build>,
                            pipelines: map<K, Option<Pipe>>, pending: map<K, Build>, key: K, k: K, pipe: Pipe)
    requires KeepsOthers(before, building, pipelines, pending, key) && Ready(before, building, k, pipe)
    ensures k in pipelines && pipelines[k] == Some(pipe)
  {}

  class PipelineCache {
    const maps: BlendMaps
    var pipelines: map<Key, Option<Pipe>>
    var pending: map<Key, Build>
    var memo: Option<(Key, Pipe)>

    constructor (m: BlendMaps)
      ensures Valid() && maps == m && pipelines == map[] && pending == map[] && memo == None
    {
      maps, pipelines, pending, memo := m, map[], map[], None;
    }

    /**
     Every pipeline is filed under a key that asks for just its state, whether the key was normalized or not. A key is
     filed or under way, not both, and the memo repeats what is filed.
     */
    ghost predicate Valid()
      reads this
    {
      && (forall k | k in pipelines && pipelines[k].Some? :: Describe(maps, k) == Some(pipelines[k].value.state))
      && (forall k | k in pending :: Describe(maps, k) == Some(pending[k].state) && BuiltAsAsked(pending[k]))
      && (forall k | k in pending :: k !in pipelines)
      && (memo.Some? ==> memo.value.0 in pipelines && pipelines[memo.value.0] == Some(memo.value.1))
    }

    /** A worker finishes: a pipeline with the state it was given, or a failure. */
    method FinishBuild(k: Key, id: int, created: bool)
      requires Valid() && k in pending && pending[k].done == None
      modifies this
      ensures Valid() && pipelines == old(pipelines) && memo == old(memo)
      ensures var state := old(pending[k].state);
              pending == old(pending)[k := Build(state, Some(if created then Some(Pipe(id, state)) else None))]
      ensures forall k', pipe | Ready(old(pipelines), old(pending), k', pipe) :: Ready(pipelines, pending, k', pipe)
    {
      hide Describe;
      var outcome := if created then Some(Pipe(id, pending[k].state)) else None;
      pending := pending[k := pending[k].(done := Some(outcome))];
    }

    /** Files exactly the finished creations; a failed one is remembered as never to retry, the others go on. */
    method ReapPipelines()
      requires Valid()
      modifies this
      ensures Valid() && memo == old(memo) && Reaped(old(pipelines), old(pending), {}, pipelines, pending)
    {
      hide Describe, Reaped;
      var keys := pending.Keys;
      NothingReaped(pipelines, pending);
      while keys != {}
        invariant Valid() && memo == old(memo) && keys <= old(pending).Keys
        invariant Reaped(old(pipelines), old(pending), keys, pipelines, pending)
        decreases |keys|
      {
        var k :| k in keys;
        OneReaped(old(pipelines), old(pending), keys, pipelines, pending, k);
        keys := keys - {k};
        if pending[k].done.Some? {
          var outcome := pending[k].done.value;
          pending := pending - {k};
          if k !in pipelines {
            pipelines := pipelines[k := outcome];
          }
        }
      }
    }

    /**
     The pipeline for a draw's key, if there is one; otherwise it is asked for when a slot is free. Normalization and
     the one-entry memo can be switched from draw to draw.
     */
    method GetPipeline(raw: Key, normalize: bool, reuse: bool, slotFree: bool) returns (p: Option<Pipe>)
      requires Valid()
      modifies this
      ensures Valid()
      ensures p.Some? ==> Describe(maps, raw) == Some(p.value.state)
      ensures var key := if normalize then Normalized(raw) else raw;
              && AnswersReady(old(pipelines), old(pending), pipelines, key, p)
              && AsksAbsent(old(pipelines), old(pending), pipelines, pending, key, Describe(maps, raw), slotFree)
              && KeepsOthers(old(pipelines), old(pending), pipelines, pending, key)
              && memo == if !reuse then None else if p.Some? then Some((key, p.value)) else old(memo)
    {
      hide Describe, Normalized, Reaped, AnswersReady, AsksAbsent, KeepsOthers;
      NormalizedDescribesTheSame(maps, raw);
      ghost var before, building := pipelines, pending;
      var key := raw;
      if normalize {
        var changed;
        key, changed := NormalizeNativePipelineKey(raw);
      }
      if pending != map[] {
        ReapPipelines();
      } else {
        NothingReaped(before, building);
      }
      ghost var filed, open := pipelines, pending;
      p := FindPipeline(key, raw, reuse, slotFree);
      ReadyAnswered(before, building, filed, open, pipelines, key, p);
      AbsentAsked(before, building, filed, open, pipelines, pending, key, Describe(maps, raw), slotFree);
      OthersKept(before, building, filed, open, pipelines, pending, key,
                 if key in pending then Some(pending[key]) else None);
    }

    /** The answer once the finished creations are filed: what the key is filed with, or nothing yet. */
    method FindPipeline(key: Key, raw: Key, reuse: bool, slotFree: bool) returns (p: Option<Pipe>)
      requires Valid() && Describe(maps, key) == Describe(maps, raw)
      modifies this
      ensures Valid() && p == if key in old(pipelines) then old(pipelines)[key] else None
      ensures memo == if !reuse then None else if p.Some? then Some((key, p.value)) else old(memo)
      ensures var absent := key !in old(pipelines) && key !in old(pending);
              && pipelines == (if absent && Describe(maps, raw) == None then old(pipelines)[key := None] else old(pipelines))
              && pending == if absent && Describe(maps, raw).Some? && slotFree
                            then old(pending)[key := Build(Describe(maps, raw).value, None)] else old(pending)
    {
      hide Describe;
      if reuse {
        if memo.Some? && memo.value.0 == key {
          return Some(memo.value.1);
        }
      } else {
        memo := None;
      }
      if key in pipelines {
        if reuse && pipelines[key].Some? {
          memo := Some((key, pipelines[key].value));
        }
        return pipelines[key];
      }
      if key !in pending {
        CreatePipeline(key, raw, slotFree);
      }
      return None;
    }

    /** Builds from the draw's own state and files under the key. */
    method CreatePipeline(key: Key, raw: Key, slotFree: bool)
      requires Valid() && Describe(maps, key) == Describe(maps, raw) && key !in pipelines && key !in pending
      modifies this
      ensures Valid() && memo == old(memo)
      ensures Describe(maps, raw) == None ==> pipelines == old(pipelines)[key := None] && pending == old(pending)
      ensures Describe(maps, raw).Some? ==>
                pipelines == old(pipelines)
                && pending == if slotFree then old(pending)[key := Build(Describe(maps, raw).value, None)] else old(pending)
    {
      hide Describe;
      var state := Describe(maps, raw);
      if state == None {
        pipelines := pipelines[key := None];
      } else if slotFree {
        pending := pending[key := Build(state.value, None)];
      }
    }
  }

  /** What may happen to a cache: a draw, or a worker that finishes a creation. */
  datatype Use = Draw(raw: Key, normalize: bool, reuse: bool, slotFree: bool) | Finish(key: Key, id: int, created: bool)

  /** Any uses in order, as far as they can happen; whatever was ready stays so. */
  method UseAll(cache: PipelineCache, uses: seq<Use>, ghost k: Key, ghost pipe: Pipe)
    requires cache.Valid() && Ready(cache.pipelines, cache.pending, k, pipe)
    modifies cache
    ensures cache.Valid() && Ready(cache.pipelines, cache.pending, k, pipe)
  {
    hide Describe, Normalized, AnswersReady, AsksAbsent, KeepsOthers;
    for i := 0 to |uses|
      invariant cache.Valid() && Ready(cache.pipelines, cache.pending, k, pipe)
    {
      match uses[i] {
        case Draw(raw, normalize, reuse, slotFree) =>
          ghost var before, building := cache.pipelines, cache.pending;
          var p := cache.GetPipeline(raw, normalize, reuse, slotFree);
          ReadyStays(before, building, cache.pipelines, cache.pending, if normalize then Normalized(raw) else raw, k, pipe);
        case Finish(key, id, created) =>
          if key in cache.pending && cache.pending[key].done == None {
            cache.FinishBuild(key, id, created);
          }
      }
    }
  }

  /** Once a creation has finished, whatever happens in between, every draw with its key gets just that pipeline. */
  method FinishedIsDrawn(cache: PipelineCache, k: Key, id: int, uses: seq<Use>, raw: Key, normalize: bool, reuse: bool,
                         slotFree: bool) returns (p: Option<Pipe>)
    requires cache.Valid() && k in cache.pending && cache.pending[k].done == None
    requires k == if normalize then Normalized(raw) else raw
    modifies cache
    ensures cache.Valid() && p == Some(Pipe(id, old(cache.pending[k].state)))
  {
    hide Describe, Normalized, AsksAbsent, KeepsOthers;
    ghost var pipe := Pipe(id, cache.pending[k].state);
    cache.FinishBuild(k, id, true);
    UseAll(cache, uses, k, pipe);
    p := cache.GetPipeline(raw, normalize, reuse, slotFree);
  }

  predicate BuiltAsAsked(b: Build) {
    b.done.Some? && b.done.value.Some? ==> b.done.value.value.state == b.state
  }
}
