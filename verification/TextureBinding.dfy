/**
 Texture and sampler bindings of a shader grouped by fetch constant, and the sampler all of a constant's bindings
 agree on (src/gpu/native/native_texture_binding_cache.h, src/gpu/nb_command_processor.cpp).
 */
module TextureBinding {

  import opened Wrappers

  const ENTRIES: nat := 64
  const FETCH_CONSTANTS: nat := 32
  const MAX_TEXTURES: nat := 255
  const MAX_SAMPLERS: nat := 127

  /** A binding record of the SDK; only its fetch constant matters for grouping. */
  datatype Binding = Binding(fetch: nat, record: int)

  /** The bindings of one fetch constant, in the shader's order. */
  function Filtered(source: seq<Binding>, f: nat): (r: seq<Binding>)
    ensures |r| <= |source|
  {
    if source == [] then []
    else
      var front, b := Filtered(source[..|source| - 1], f), source[|source| - 1];
      if b.fetch == f then front + [b] else front
  }

  predicate Known(source: seq<Binding>) {
    forall i | 0 <= i < |source| :: source[i].fetch < FETCH_CONSTANTS
  }

  // ----- counting sort -----

  datatype Range = Range(start: nat, count: nat)

  /** How many bindings have a smaller fetch constant. */
  function Start(source: seq<Binding>, f: nat): nat {
    if f == 0 then 0 else Start(source, f - 1) + |Filtered(source, f - 1)|
  }

  lemma FilteredNext(source: seq<Binding>, i: nat, f: nat)
    requires i < |source|
    ensures Filtered(source[..i + 1], f) == if source[i].fetch == f then Filtered(source[..i], f) + [source[i]] else Filtered(source[..i], f)
  {
    assert source[..i + 1][..i] == source[..i];
  }

  lemma {:induction false} FilteredGrows(source: seq<Binding>, i: nat, f: nat)
    requires i <= |source|
    ensures |Filtered(source[..i], f)| <= |Filtered(source, f)|
    decreases |source| - i
  {
    if i < |source| {
      FilteredNext(source, i, f);
      FilteredGrows(source, i + 1, f);
    } else {
      assert source[..i] == source;
    }
  }

  lemma {:induction false} StartNext(source: seq<Binding>, i: nat, f: nat)
    requires i < |source|
    ensures Start(source[..i + 1], f) == Start(source[..i], f) + if source[i].fetch < f then 1 else 0
    decreases f
  {
    if f > 0 {
      StartNext(source, i, f - 1);
      FilteredNext(source, i, f - 1);
    }
  }

  lemma {:induction false} StartNone(f: nat)
    ensures Start([], f) == 0
  {
    if f > 0 { StartNone(f - 1); }
  }

  /** The groups are as long as the source together. */
  lemma {:induction false} StartAll(source: seq<Binding>, i: nat)
    requires Known(source) && i <= |source|
    ensures Start(source[..i], FETCH_CONSTANTS) == i
  {
    if i == 0 {
      assert source[..0] == [];
      StartNone(FETCH_CONSTANTS);
    } else {
      StartAll(source, i - 1);
      StartNext(source, i - 1, FETCH_CONSTANTS);
    }
  }

  /** A group ends before a later one begins. */
  lemma {:induction false} GroupsApart(source: seq<Binding>, f: nat, g: nat)
    requires f < g
    ensures Start(source, f) + |Filtered(source, f)| <= Start(source, g)
    decreases g
  {
    if f < g - 1 { GroupsApart(source, f, g - 1); }
  }

  lemma GroupInside(source: seq<Binding>, f: nat)
    requires Known(source) && f < FETCH_CONSTANTS
    ensures Start(source, f) + |Filtered(source, f)| <= |source|
  {
    GroupsApart(source, f, FETCH_CONSTANTS);
    StartAll(source, |source|);
    assert source[..|source|] == source;
  }

  /** Each range of the target holds the bindings of its constant, in order. */
  ghost predicate Grouped(source: seq<Binding>, target: seq<Binding>, ranges: seq<Range>) {
    |ranges| == FETCH_CONSTANTS
    && forall f | 0 <= f < FETCH_CONSTANTS ::
         ranges[f].start + ranges[f].count <= |target|
         && target[ranges[f].start..ranges[f].start + ranges[f].count] == Filtered(source, f)
  }

  method CountBindings(source: seq<Binding>) returns (counts: seq<nat>)
    requires Known(source)
    ensures |counts| == FETCH_CONSTANTS && forall f | 0 <= f < FETCH_CONSTANTS :: counts[f] == |Filtered(source, f)|
  {
    counts := seq(FETCH_CONSTANTS, _ => 0);
    for i := 0 to |source|
      invariant |counts| == FETCH_CONSTANTS
      invariant forall f | 0 <= f < FETCH_CONSTANTS :: counts[f] == |Filtered(source[..i], f)|
    {
      forall f | 0 <= f < FETCH_CONSTANTS
        ensures |Filtered(source[..i + 1], f)| == |Filtered(source[..i], f)| + if source[i].fetch == f then 1 else 0
      {
        FilteredNext(source, i, f);
      }
      var fetch := source[i].fetch;
      counts := counts[fetch := counts[fetch] + 1];
    }
    assert source[..|source|] == source;
  }

  method PlaceRanges(ghost source: seq<Binding>, counts: seq<nat>) returns (ranges: seq<Range>)
    requires |counts| == FETCH_CONSTANTS && forall f | 0 <= f < FETCH_CONSTANTS :: counts[f] == |Filtered(source, f)|
    ensures |ranges| == FETCH_CONSTANTS
    ensures forall f | 0 <= f < FETCH_CONSTANTS :: ranges[f] == Range(Start(source, f), |Filtered(source, f)|)
  {
    hide Filtered, Start;
    StartZero(source);
    ranges := [];
    var next := 0;
    for f := 0 to FETCH_CONSTANTS
      invariant |ranges| == f && next == Start(source, f)
      invariant forall g | 0 <= g < f :: ranges[g] == Range(Start(source, g), |Filtered(source, g)|)
    {
      StartStep(source, f);
      ranges := ranges + [Range(next, counts[f])];
      next := next + counts[f];
    }
  }

  lemma StartZero(source: seq<Binding>)
    ensures Start(source, 0) == 0
  {}

  lemma StartStep(source: seq<Binding>, f: nat)
    ensures Start(source, f + 1) == Start(source, f) + |Filtered(source, f)|
  {}

  /** What the placing loop has done with the first `i` bindings. */
  ghost predicate Filled(source: seq<Binding>, i: nat, target: seq<Binding>, written: seq<nat>)
    requires i <= |source| <= |target| && |written| == FETCH_CONSTANTS && Known(source)
  {
    forall f | 0 <= f < FETCH_CONSTANTS :: FilledAt(source, i, target, written[f], f)
  }

  ghost predicate FilledAt(source: seq<Binding>, i: nat, target: seq<Binding>, count: nat, f: nat)
    requires i <= |source|
  {
    && count == |Filtered(source[..i], f)| && Start(source, f) + count <= |target|
    && target[Start(source, f)..Start(source, f) + count] == Filtered(source[..i], f)
  }

  lemma FillSame(source: seq<Binding>, i: nat, target: seq<Binding>, count: nat, f: nat, at: nat)
    requires i < |source| && source[i].fetch == f && FilledAt(source, i, target, count, f)
    requires at == Start(source, f) + count && at < |target|
    ensures FilledAt(source, i + 1, target[at := source[i]], count + 1, f)
  {
    hide Filtered, Start;
    FilteredNext(source, i, f);
    var target', from := target[at := source[i]], Start(source, f);
    assert target'[from..at + 1] == target[from..at] + [source[i]];
  }

  lemma FillOther(source: seq<Binding>, i: nat, target: seq<Binding>, count: nat, g: nat, at: nat)
    requires i < |source| && source[i].fetch != g && FilledAt(source, i, target, count, g) && at < |target|
    requires at < Start(source, g) || Start(source, g) + count <= at
    ensures FilledAt(source, i + 1, target[at := source[i]], count, g)
  {
    hide Filtered, Start;
    FilteredNext(source, i, g);
    var from := Start(source, g);
    assert target[at := source[i]][from..from + count] == target[from..from + count];
  }

  lemma FillOne(source: seq<Binding>, i: nat, target: seq<Binding>, written: seq<nat>)
    requires i < |source| <= |target| && |written| == FETCH_CONSTANTS && Known(source) && Filled(source, i, target, written)
    ensures var f := source[i].fetch;
            var at := Start(source, f) + written[f];
            at < |target| && Filled(source, i + 1, target[at := source[i]], written[f := written[f] + 1])
  {
    hide Filtered, Start;
    var f := source[i].fetch;
    var at := Start(source, f) + written[f];
    assert FilledAt(source, i, target, written[f], f);
    FilteredNext(source, i, f);
    FilteredGrows(source, i + 1, f);
    GroupInside(source, f);
    var target', written' := target[at := source[i]], written[f := written[f] + 1];
    var done := i + 1;
    forall g | 0 <= g < FETCH_CONSTANTS ensures FilledAt(source, done, target', written'[g], g) {
      assert FilledAt(source, i, target, written[g], g);
      if g == f {
        FillSame(source, i, target, written[f], f, at);
      } else {
        FilteredGrows(source, i, g);
        if g < f { GroupsApart(source, g, f); } else { GroupsApart(source, f, g); }
        FillOther(source, i, target, written[g], g, at);
      }
    }
  }

  /** Groups a shader's bindings by fetch constant, stably, into the front of the target. */
  method Group(source: seq<Binding>, before: seq<Binding>) returns (target: seq<Binding>, ranges: seq<Range>)
    requires Known(source) && |source| <= |before|
    ensures |target| == |before| && Grouped(source, target, ranges)
  {
    hide Filtered, Start, Filled;
    var counts := CountBindings(source);
    ranges := PlaceRanges(source, counts);
    target := before;
    var written: seq<nat> := seq(FETCH_CONSTANTS, _ => 0);
    FilledNone(source, target, written);
    for i := 0 to |source|
      invariant |target| == |before| && |written| == FETCH_CONSTANTS && Filled(source, i, target, written)
    {
      FillOne(source, i, target, written);
      var fetch := source[i].fetch;
      StartIs(source, ranges, fetch);
      target := target[ranges[fetch].start + written[fetch] := source[i]];
      written := written[fetch := written[fetch] + 1];
    }
    FilledAll(source, target, written, ranges);
  }

  lemma StartIs(source: seq<Binding>, ranges: seq<Range>, f: nat)
    requires |ranges| == FETCH_CONSTANTS && f < FETCH_CONSTANTS
    requires forall g | 0 <= g < FETCH_CONSTANTS :: ranges[g] == Range(Start(source, g), |Filtered(source, g)|)
    ensures ranges[f].start == Start(source, f)
  {}

  lemma FilledNone(source: seq<Binding>, target: seq<Binding>, written: seq<nat>)
    requires |source| <= |target| && written == seq(FETCH_CONSTANTS, _ => 0) && Known(source)
    ensures Filled(source, 0, target, written)
  {
    forall f | 0 <= f < FETCH_CONSTANTS ensures FilledAt(source, 0, target, written[f], f) {
      GroupInside(source, f);
    }
  }

  lemma FilledAll(source: seq<Binding>, target: seq<Binding>, written: seq<nat>, ranges: seq<Range>)
    requires |source| <= |target| && |written| == FETCH_CONSTANTS && Known(source) && |ranges| == FETCH_CONSTANTS
    requires Filled(source, |source|, target, written)
    requires forall g | 0 <= g < FETCH_CONSTANTS :: ranges[g] == Range(Start(source, g), |Filtered(source, g)|)
    ensures Grouped(source, target, ranges)
  {
    assert source[..|source|] == source;
    hide Filtered, Start;
    forall f | 0 <= f < FETCH_CONSTANTS
      ensures ranges[f].start + ranges[f].count <= |target|
              && target[ranges[f].start..ranges[f].start + ranges[f].count] == Filtered(source, f)
    {
      assert FilledAt(source, |source|, target, written[f], f);
    }
  }

  // ----- the sampler all bindings agree on -----

  /** What a draw's sampler state depends on besides the binding: the fetch words and the global override. */
  datatype DrawState = DrawState(words: seq<nat>, anisotropy: int)

  /** The sampler value of a binding under a draw's state, as the SDK computes it. */
  type Resolver = (Binding, DrawState) -> nat

  datatype Consensus = Consensus(value: nat, have: bool, conflict: bool)

  const NO_SAMPLER: Consensus := Consensus(0, false, false)

  /** One more binding: it must agree with the ones before. */
  function Agree(c: Consensus, v: nat): Consensus {
    if c.have && v != c.value then c.(conflict := true) else Consensus(v, true, false)
  }

  /** The original loop over all of a shader's samplers, skipping those of other constants and stopping at a conflict. */
  function Original(samplers: seq<Binding>, f: nat, resolve: Resolver, d: DrawState, c: Consensus): Consensus
    decreases |samplers|
  {
    if samplers == [] then c
    else if samplers[0].fetch != f then Original(samplers[1..], f, resolve, d, c)
    else
      var next := Agree(c, resolve(samplers[0], d));
      if next.conflict then next else Original(samplers[1..], f, resolve, d, next)
  }

  /** The same over one constant's list. */
  function Agreed(list: seq<Binding>, resolve: Resolver, d: DrawState, c: Consensus): Consensus
    decreases |list|
  {
    if list == [] then c
    else
      var next := Agree(c, resolve(list[0], d));
      if next.conflict then next else Agreed(list[1..], resolve, d, next)
  }

  lemma {:induction false} FilteredFront(source: seq<Binding>, f: nat)
    requires source != []
    ensures Filtered(source, f)
            == (if source[0].fetch == f then [source[0]] else []) + Filtered(source[1..], f)
    decreases |source|
  {
    if |source| > 1 {
      var n := |source| - 1;
      FilteredFront(source[..n], f);
      assert source[1..][..n - 1] == source[..n][1..];
    } else {
      assert source[..0] == [];
    }
  }

  /** Grouping first does not change the answer. */
  lemma {:induction false} AgreedIsOriginal(samplers: seq<Binding>, f: nat, resolve: Resolver, d: DrawState, c: Consensus)
    ensures Agreed(Filtered(samplers, f), resolve, d, c) == Original(samplers, f, resolve, d, c)
    decreases |samplers|
  {
    if samplers != [] {
      hide Filtered;
      FilteredFront(samplers, f);
      var rest := Filtered(samplers[1..], f);
      if samplers[0].fetch == f {
        assert ([samplers[0]] + rest)[1..] == rest;
        AgreedIsOriginal(samplers[1..], f, resolve, d, Agree(c, resolve(samplers[0], d)));
      } else {
        assert [] + rest == rest;
        AgreedIsOriginal(samplers[1..], f, resolve, d, c);
      }
    }
  }

  lemma {:induction false} NoneOfConstant(samplers: seq<Binding>, f: nat, resolve: Resolver, d: DrawState, c: Consensus)
    requires Known(samplers) && f >= FETCH_CONSTANTS
    ensures Original(samplers, f, resolve, d, c) == c
    decreases |samplers|
  {
    if samplers != [] {
      NoneOfConstant(samplers[1..], f, resolve, d, c);
    }
  }

  // ----- the cache -----

  /** A shader's address; zero is none. */
  datatype Handle = Handle(bits: bv64)

  function Mixed(h: Handle): bv64 {
    var a := h.bits >> 4;
    var b := a ^ (a >> 17);
    (b * 0x9E37_79B1_85EB_CA87) >> 32
  }

  /** The entry a shader uses: the hash masked to the entry count. */
  function Slot(h: Handle): (r: nat)
    ensures r < ENTRIES
  {
    hide Mixed;
    (Mixed(h) as int) % ENTRIES
  }

  datatype Memo = Memo(state: DrawState, consensus: Consensus)

  datatype Plan = Plan(shader: Handle, textures: seq<Binding>, samplers: seq<Binding>, textureRanges: seq<Range>,
                       samplerRanges: seq<Range>, memos: seq<Option<Memo>>) {
    function Textures(f: nat): seq<Binding>
      requires |textureRanges| == FETCH_CONSTANTS
      requires f < FETCH_CONSTANTS ==> textureRanges[f].start + textureRanges[f].count <= |textures|
    {
      if f >= FETCH_CONSTANTS then [] else textures[textureRanges[f].start..textureRanges[f].start + textureRanges[f].count]
    }

    function Samplers(f: nat): seq<Binding>
      requires |samplerRanges| == FETCH_CONSTANTS
      requires f < FETCH_CONSTANTS ==> samplerRanges[f].start + samplerRanges[f].count <= |samplers|
    {
      if f >= FETCH_CONSTANTS then [] else samplers[samplerRanges[f].start..samplerRanges[f].start + samplerRanges[f].count]
    }
  }

  /** A shader's translated bindings. */
  datatype Bindings = Bindings(textures: seq<Binding>, samplers: seq<Binding>)

  const NOBODY: Handle := Handle(0)

  /** The plan is right for the bindings, and each memo repeats the original loop. */
  ghost predicate PlanOk(p: Plan, b: Bindings, resolve: Resolver) {
    && Known(b.textures) && Known(b.samplers)
    && Grouped(b.textures, p.textures, p.textureRanges) && Grouped(b.samplers, p.samplers, p.samplerRanges)
    && |p.memos| == FETCH_CONSTANTS
    && forall f | 0 <= f < FETCH_CONSTANTS && p.memos[f].Some? ::
         p.memos[f].value.consensus == Original(b.samplers, f, resolve, p.memos[f].value.state, NO_SAMPLER)
  }

  class NativeTextureBindingCache {
    var entries: seq<Plan>
    var epoch: Option<nat>
    const resolve: Resolver

    /** The bindings of each shader alive in this epoch. */
    ghost var live: map<Handle, Bindings>

    constructor (sdk: Resolver)
      ensures Valid() && resolve == sdk && epoch == None
    {
      resolve, epoch, live := sdk, None, map[];
      entries := seq(ENTRIES, _ => Plan(NOBODY, seq(MAX_TEXTURES, _ => Binding(0, 0)), seq(MAX_SAMPLERS, _ => Binding(0, 0)),
                                        [], [], []));
    }

    ghost predicate Valid()
      reads this
    {
      |entries| == ENTRIES && forall i | 0 <= i < ENTRIES :: EntryOk(entries[i])
    }

    /** An entry in use is the plan of its shader; shaders share entries, never plans. */
    ghost predicate EntryOk(p: Plan)
      reads this
    {
      |p.textures| == MAX_TEXTURES && |p.samplers| == MAX_SAMPLERS
      && (p.shader != NOBODY ==> p.shader in live && PlanOk(p, live[p.shader], resolve))
    }

    /**
     The entry for a shader, filled if need be; none when the shader is not one the cache can plan for. Within an
     epoch a shader always comes with the same bindings; a new epoch forgets every shader.
     */
    method Prepare(shader: Handle, lifetime: nat, b: Bindings) returns (entry: Option<nat>)
      requires Valid() && (epoch == Some(lifetime) && shader in live ==> live[shader] == b)
      modifies this
      ensures Valid() && epoch == Some(lifetime)
      ensures entry.Some? ==> entry.value < ENTRIES && entries[entry.value].shader == shader != NOBODY
                              && shader in live && live[shader] == b
      ensures entry.Some? <==> shader != NOBODY && |b.textures| <= MAX_TEXTURES && |b.samplers| <= MAX_SAMPLERS
                               && Known(b.textures) && Known(b.samplers)
    {
      if epoch != Some(lifetime) {
        ForgetAll();
        epoch := Some(lifetime);
      }
      if shader == NOBODY || |b.textures| > MAX_TEXTURES || |b.samplers| > MAX_SAMPLERS {
        return None;
      }
      var slot := Slot(shader);
      assert EntryOk(entries[slot]);
      if entries[slot].shader == shader {
        return Some(slot);
      }
      var known := AllKnown(b.textures);
      if !known {
        return None;
      }
      known := AllKnown(b.samplers);
      if !known {
        return None;
      }
      FillEntry(slot, shader, b);
      return Some(slot);
    }

    /** A new epoch: shaders of the old one may be gone, and their addresses reused. */
    method ForgetAll()
      requires Valid()
      modifies this
      ensures Valid() && live == map[]
    {
      var before := entries;
      assert forall i | 0 <= i < ENTRIES :: EntryOk(before[i]);
      entries := seq(ENTRIES, i requires 0 <= i < |before| => before[i].(shader := NOBODY));
      live := map[];
    }

    method FillEntry(slot: nat, shader: Handle, b: Bindings)
      requires Valid() && slot < ENTRIES && shader != NOBODY && (shader in live ==> live[shader] == b)
      requires |b.textures| <= MAX_TEXTURES && |b.samplers| <= MAX_SAMPLERS && Known(b.textures) && Known(b.samplers)
      modifies this
      ensures Valid() && epoch == old(epoch) && entries[slot].shader == shader
      ensures shader in live && live[shader] == b
    {
      hide Grouped, Known;
      assert EntryOk(entries[slot]);
      var textures, textureRanges := Group(b.textures, entries[slot].textures);
      var samplers, samplerRanges := Group(b.samplers, entries[slot].samplers);
      var plan := Plan(shader, textures, samplers, textureRanges, samplerRanges, seq(FETCH_CONSTANTS, _ => None));
      ghost var before := live;
      live := live[shader := b];
      assert PlanOk(plan, b, resolve);
      forall i | 0 <= i < ENTRIES && i != slot ensures EntryOk(entries[i]) {
        assert old(EntryOk(entries[i]));
      }
      entries := entries[slot := plan];
    }

    /** The list a plan gives for a constant is the shader's own, in its order. */
    lemma PlanLists(entry: nat, f: nat)
      requires Valid() && entry < ENTRIES && entries[entry].shader != NOBODY && f < FETCH_CONSTANTS
      ensures entries[entry].shader in live
      ensures |entries[entry].textureRanges| == |entries[entry].samplerRanges| == FETCH_CONSTANTS
      ensures entries[entry].textureRanges[f].start + entries[entry].textureRanges[f].count <= |entries[entry].textures|
      ensures entries[entry].samplerRanges[f].start + entries[entry].samplerRanges[f].count <= |entries[entry].samplers|
      ensures entries[entry].Textures(f) == Filtered(live[entries[entry].shader].textures, f)
      ensures entries[entry].Samplers(f) == Filtered(live[entries[entry].shader].samplers, f)
    {
      assert EntryOk(entries[entry]);
    }

    /** The sampler of a constant for this draw: what the original loop over the live bindings would find. */
    method ResolveSampler(entry: nat, f: nat, d: DrawState) returns (c: Consensus)
      requires Valid() && entry < ENTRIES && entries[entry].shader != NOBODY
      modifies this
      ensures Valid() && live == old(live) && epoch == old(epoch) && entries[entry].shader == old(entries)[entry].shader
      ensures entries[entry].shader in live && c == Original(live[entries[entry].shader].samplers, f, resolve, d, NO_SAMPLER)
      ensures f < FETCH_CONSTANTS ==>
                |old(entries)[entry].memos| == FETCH_CONSTANTS
                && entries == old(entries)[entry := old(entries)[entry].(memos := old(entries)[entry].memos[f := Some(Memo(d, c))])]
      ensures f >= FETCH_CONSTANTS ==> entries == old(entries)
    {
      hide Original, Filtered, Grouped, Known;
      assert EntryOk(entries[entry]);
      ghost var b := live[entries[entry].shader];
      if f >= FETCH_CONSTANTS {
        NoneOfConstant(b.samplers, f, resolve, d, NO_SAMPLER);
        return NO_SAMPLER;
      }
      var memo := entries[entry].memos[f];
      if memo.Some? && memo.value.state == d {
        assert entries[entry].memos[f := Some(Memo(d, memo.value.consensus))] == entries[entry].memos;
        assert entries[entry := entries[entry]] == entries;
        return memo.value.consensus;
      }
      PlanLists(entry, f);
      AgreedIsOriginal(b.samplers, f, resolve, d, NO_SAMPLER);
      c := AskAll(entries[entry].Samplers(f), d);
      var plan := entries[entry].(memos := entries[entry].memos[f := Some(Memo(d, c))]);
      assert PlanOk(plan, b, resolve);
      entries := entries[entry := plan];
    }

    method AskAll(list: seq<Binding>, d: DrawState) returns (c: Consensus)
      ensures c == Agreed(list, resolve, d, NO_SAMPLER)
    {
      c := NO_SAMPLER;
      assert list[0..] == list;
      for i := 0 to |list|
        invariant Agreed(list, resolve, d, NO_SAMPLER) == Agreed(list[i..], resolve, d, c) && !c.conflict
      {
        var value := resolve(list[i], d);
        assert list[i..][0] == list[i] && list[i..][1..] == list[i + 1..];
        if c.have && value != c.value {
          c := c.(conflict := true);
          return;
        }
        c := Consensus(value, true, false);
      }
    }
  }

  method AllKnown(source: seq<Binding>) returns (known: bool)
    ensures known <==> Known(source)
  {
    for i := 0 to |source|
      invariant forall k | 0 <= k < i :: source[k].fetch < FETCH_CONSTANTS
    {
      if source[i].fetch >= FETCH_CONSTANTS {
        return false;
      }
    }
    return true;
  }
}
