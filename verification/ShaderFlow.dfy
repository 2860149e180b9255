/**
 Structured lowering of guest shader control flow (tools/ucode2hlsl.py).

 The guest program is a list of blocks with forward jumps and blocks that end the shader early. The translator emits
 straight-line text in which every jump became a flag guarding what it skips. The emitted text is shown to compute
 what the program-counter reading of the blocks computes.
 */
module ShaderFlow {

  import opened Wrappers

  /** A condition operand: a bool constant or the predicate, either one negated. */
  datatype Cond = P0(negated: bool) | Bool(index: nat, negated: bool) | Unsupported(text: string)

  datatype Kind = Exec | CExec | ExecE | CExecE | Jmp | CJmp | Label

  /**
   A parsed block. `pred` is the block's own predicate, `cond` belongs to the
   conditional kinds, `target` to jumps and labels. One element of `instrs` is one
   issue group, left abstract.
   */
  datatype Block<I> = Block(kind: Kind, pred: Option<bool>, cond: Cond, target: string, instrs: seq<I>) {
    predicate IsJump() { kind.Jmp? || kind.CJmp? }

    predicate Ends() { kind.ExecE? || kind.CExecE? }

    /** Everything that has to hold, at block entry, for the block to act. */
    function Conditions(): seq<Cond> {
      if kind.CExec? || kind.CExecE? || kind.CJmp?
      then (if pred.Some? then [P0(pred.value), cond] else [cond])
      else (if pred.Some? then [P0(pred.value)] else [])
    }

    predicate Spelled() {
      forall c | c in Conditions() :: !c.Unsupported?
    }
  }

  /** What the guest machine does with an issue group, its predicate and its bool constants. */
  datatype Machine<!S, !I> = Machine(p0: S -> bool, bools: nat -> bool, step: (I, S) -> S) {
    predicate Holds(c: Cond, s: S) {
      match c
      case P0(negated) => p0(s) != negated
      case Bool(index, negated) => bools(index) != negated
      case Unsupported(_) => false
    }

    predicate AllHold(cs: seq<Cond>, s: S) {
      forall c | c in cs :: Holds(c, s)
    }

    function Body(instrs: seq<I>, s: S): S {
      if instrs == [] then s else Body(instrs[1..], step(instrs[0], s))
    }
  }

  // ----- the guest program -----

  /** Position of the first label of that name at or after `from`. */
  function LabelFrom<I>(blocks: seq<Block<I>>, target: string, from: nat): (r: Option<nat>)
    requires from <= |blocks|
    ensures r.Some? ==> from <= r.value < |blocks| && blocks[r.value].kind.Label? && blocks[r.value].target == target
    ensures r.Some? ==> forall j | from <= j < r.value :: !(blocks[j].kind.Label? && blocks[j].target == target)
    ensures r.None? ==> forall j | from <= j < |blocks| :: !(blocks[j].kind.Label? && blocks[j].target == target)
    decreases |blocks| - from
  {
    if from == |blocks| then None
    else if blocks[from].kind.Label? && blocks[from].target == target then Some(from)
    else LabelFrom(blocks, target, from + 1)
  }

  function FirstLabel<I>(blocks: seq<Block<I>>, target: string): Option<nat> {
    LabelFrom(blocks, target, 0)
  }

  /** Jumps go forward to the first label of their name; control blocks carry no instructions. */
  ghost predicate Accepted<I>(blocks: seq<Block<I>>) {
    forall i | 0 <= i < |blocks| ::
      && (blocks[i].IsJump() ==>
            && FirstLabel(blocks, blocks[i].target).Some?
            && i < FirstLabel(blocks, blocks[i].target).value)
      && (blocks[i].IsJump() || blocks[i].kind.Label? ==> blocks[i].instrs == [])
  }

  predicate HasCondition(kind: Kind) {
    match kind
    case CExec => true
    case CExecE => true
    case CJmp => true
    case _ => false
  }

  /** The operands the emitter can spell; it refuses the shader otherwise. */
  ghost predicate Supported<I>(blocks: seq<Block<I>>) {
    forall i | 0 <= i < |blocks| :: HasCondition(blocks[i].kind) ==> !blocks[i].cond.Unsupported?
  }

  lemma SpelledIff<I>(b: Block<I>)
    ensures b.kind.Label? || b.Spelled() <==> HasCondition(b.kind) ==> !b.cond.Unsupported?
  {
    assert forall c | c in b.Conditions() :: c == b.cond || c.P0?;
    assert HasCondition(b.kind) ==> b.cond in b.Conditions();
  }

  /** The block's own predicate agrees, and for the conditional kinds so does the condition. */
  ghost predicate Gate<S, I>(m: Machine<S, I>, b: Block<I>, s: S) {
    && (b.pred.Some? ==> m.p0(s) != b.pred.value)
    && (HasCondition(b.kind) ==>
          match b.cond
          case P0(negated) => m.p0(s) == !negated
          case Bool(index, negated) => m.bools(index) == !negated
          case Unsupported(_) => false)
  }

  /** The conditions the translator collects hold together exactly when the block's gate is open. */
  lemma ConditionsAreGate<S, I>(m: Machine<S, I>, b: Block<I>, s: S)
    ensures m.AllHold(b.Conditions(), s) <==> Gate(m, b, s)
  {
    assert b.pred.Some? ==> P0(b.pred.value) in b.Conditions();
    assert HasCondition(b.kind) ==> b.cond in b.Conditions();
    assert forall c | c in b.Conditions() ::
        (b.pred.Some? && c == P0(b.pred.value)) || (HasCondition(b.kind) && c == b.cond);
  }

  /** The reference reading: a program counter over the blocks. */
  ghost function Interpret<S, I>(m: Machine<S, I>, blocks: seq<Block<I>>, pc: nat, s: S): S
    requires Accepted(blocks) && pc <= |blocks|
    decreases |blocks| - pc
  {
    if pc == |blocks| then s
    else
      var b := blocks[pc];
      if !Gate(m, b, s) then Interpret(m, blocks, pc + 1, s)
      else match b.kind
        case Label => Interpret(m, blocks, pc + 1, s)
        case Exec => Interpret(m, blocks, pc + 1, m.Body(b.instrs, s))
        case CExec => Interpret(m, blocks, pc + 1, m.Body(b.instrs, s))
        case ExecE => m.Body(b.instrs, s)
        case CExecE => m.Body(b.instrs, s)
        case Jmp => Interpret(m, blocks, FirstLabel(blocks, b.target).value, s)
        case CJmp => Interpret(m, blocks, FirstLabel(blocks, b.target).value, s)
  }

  // ----- the emitted text -----

  /** One emitted line. `OpenUnless` and `OpenIf` open a brace that `Close` closes. */
  datatype Line<I> =
    | OpenUnless(flag: string)
    | OpenIf(conds: seq<Cond>)
    | SetFlag(conds: seq<Cond>, flag: string)
    | Do(instr: I)
    | Close

  /** Machine state, the flags that are set, and how many open braces are being skipped. */
  datatype Host<S> = Host(s: S, flags: set<string>, skip: nat)

  ghost function RunLine<S, I>(m: Machine<S, I>, line: Line<I>, h: Host<S>): Host<S> {
    match line
    case OpenUnless(flag) =>
      if h.skip > 0 || flag in h.flags then h.(skip := h.skip + 1) else h
    case OpenIf(conds) =>
      if h.skip > 0 || !m.AllHold(conds, h.s) then h.(skip := h.skip + 1) else h
    case SetFlag(conds, flag) =>
      if h.skip == 0 && m.AllHold(conds, h.s) then h.(flags := h.flags + {flag}) else h
    case Do(instr) =>
      if h.skip == 0 then h.(s := m.step(instr, h.s)) else h
    case Close =>
      if h.skip > 0 then h.(skip := h.skip - 1) else h
  }

  ghost function Run<S, I>(m: Machine<S, I>, lines: seq<Line<I>>, h: Host<S>): Host<S> {
    if lines == [] then h else Run(m, lines[1..], RunLine(m, lines[0], h))
  }

  /** Brace depth after the lines, or None when a brace closes that was not opened. */
  ghost function Height<I>(lines: seq<Line<I>>, depth: nat): Option<nat> {
    if lines == [] then Some(depth)
    else match lines[0]
      case OpenUnless(_) => Height(lines[1..], depth + 1)
      case OpenIf(_) => Height(lines[1..], depth + 1)
      case Close => if depth == 0 then None else Height(lines[1..], depth - 1)
      case _ => Height(lines[1..], depth)
  }

  // ----- what the translator emits, block by block -----

  const END := "__end"

  /** Some block ends the shader while something that could still act follows it. */
  predicate EndsEarly<I>(blocks: seq<Block<I>>) {
    exists i | 0 <= i < |blocks| :: blocks[i].Ends() && Acts(blocks[i + 1..])
  }

  /** The translator models an early end exactly when a jump or an instruction follows a block that ends the shader. */
  lemma EndsEarlyIff<I>(blocks: seq<Block<I>>)
    ensures EndsEarly(blocks)
            <==> exists i, j :: 0 <= i < j < |blocks| && (blocks[i].kind.ExecE? || blocks[i].kind.CExecE?)
                                && (blocks[j].kind.Jmp? || blocks[j].kind.CJmp? || blocks[j].instrs != [])
  {
    if EndsEarly(blocks) {
      var i :| 0 <= i < |blocks| && blocks[i].Ends() && Acts(blocks[i + 1..]);
      var j :| 0 <= j < |blocks[i + 1..]| && (blocks[i + 1..][j].IsJump() || blocks[i + 1..][j].instrs != []);
      assert blocks[i + 1..][j] == blocks[i + 1 + j];
    }
    if i, j :| 0 <= i < j < |blocks| && (blocks[i].kind.ExecE? || blocks[i].kind.CExecE?)
               && (blocks[j].kind.Jmp? || blocks[j].kind.CJmp? || blocks[j].instrs != []) {
      assert blocks[i + 1..][j - i - 1] == blocks[j];
    }
  }

  predicate Acts<I>(blocks: seq<Block<I>>) {
    exists j | 0 <= j < |blocks| :: blocks[j].IsJump() || blocks[j].instrs != []
  }

  function Guards<I>(open: seq<string>): (r: seq<Line<I>>) {
    if open == [] then [] else [OpenUnless(open[0])] + Guards(open[1..])
  }

  function Closes<I>(n: nat): (r: seq<Line<I>>) {
    if n == 0 then [] else Closes(n - 1) + [Close]
  }

  function Dos<I>(instrs: seq<I>): (r: seq<Line<I>>) {
    if instrs == [] then [] else [Do(instrs[0])] + Dos(instrs[1..])
  }

  function Opener<I>(conds: seq<Cond>): (r: seq<Line<I>>)
    ensures |r| <= 1
  {
    if conds == [] then [] else [OpenIf(conds)]
  }

  function Opening<I>(open: seq<string>, conds: seq<Cond>): seq<Line<I>> {
    Guards(open) + Opener(conds)
  }

  function Acting<I>(b: Block<I>, early: bool): seq<Line<I>> {
    if b.IsJump() then [SetFlag(b.Conditions(), b.target)]
    else if early && b.Ends() then Dos(b.instrs) + [SetFlag([], END)]
    else Dos(b.instrs)
  }

  /** The conditions of a jump stand in its assignment, those of any other block around its lines. */
  function Around<I>(b: Block<I>): seq<Cond> {
    if b.IsJump() then [] else b.Conditions()
  }

  function EmitBlock<I>(b: Block<I>, open: seq<string>, early: bool): seq<Line<I>> {
    if b.kind.Label? then []
    else Opening(open, Around(b)) + Acting(b, early) + Closes(|open| + |Opener<I>(Around(b))|)
  }

  function Without(open: seq<string>, f: string): (r: seq<string>)
    ensures forall g :: g in r ==> g in open
  {
    if open == [] then [] else if open[0] == f then open[1..] else [open[0]] + Without(open[1..], f)
  }

  function Joined(open: seq<string>, f: string): seq<string> {
    if f in open then open else open + [f]
  }

  function NextOpen<I>(b: Block<I>, open: seq<string>, early: bool): seq<string> {
    if b.kind.Label? then Without(open, b.target)
    else if b.IsJump() then Joined(open, b.target)
    else if early && b.Ends() then Joined(open, END)
    else open
  }

  function NextFlags<I>(b: Block<I>, flags: seq<string>, early: bool): seq<string> {
    if b.IsJump() then Joined(flags, b.target)
    else if early && b.Ends() then Joined(flags, END)
    else flags
  }

  /** The flags guarding block `i`. */
  function OpenAt<I>(blocks: seq<Block<I>>, i: nat, early: bool): seq<string>
    requires i <= |blocks|
  {
    if i == 0 then [] else NextOpen(blocks[i - 1], OpenAt(blocks, i - 1, early), early)
  }

  /** What has been emitted before block `i`. */
  function LinesAt<I>(blocks: seq<Block<I>>, i: nat, early: bool): seq<Line<I>>
    requires i <= |blocks|
  {
    if i == 0 then []
    else LinesAt(blocks, i - 1, early) + EmitBlock(blocks[i - 1], OpenAt(blocks, i - 1, early), early)
  }

  /** The body the translator emits for a block list. */
  function Emitted<I>(blocks: seq<Block<I>>): seq<Line<I>> {
    LinesAt(blocks, |blocks|, EndsEarly(blocks))
  }

  predicate IsEndLabel<I>(b: Block<I>) {
    b.kind.Label? && b.target == END
  }

  /**
   The flag that stands for the end of the shader is used for nothing else: no jump goes to a label of that name, and
   no such label follows a block that ends the shader. A label nothing jumps to does no harm before that.
   */
  predicate EndNameFree<I>(blocks: seq<Block<I>>) {
    EndsEarly(blocks) ==>
      forall i | 0 <= i < |blocks| ::
        && (blocks[i].IsJump() ==> blocks[i].target != END)
        && (IsEndLabel(blocks[i]) ==> forall j | 0 <= j < i :: !blocks[j].Ends())
  }

  // ----- runs of emitted lines -----

  lemma RunConcat<S, I>(m: Machine<S, I>, a: seq<Line<I>>, b: seq<Line<I>>, h: Host<S>)
    ensures Run(m, a + b, h) == Run(m, b, Run(m, a, h))
  {
    if a == [] {
      assert a + b == b;
    } else {
      assert (a + b)[1..] == a[1..] + b;
      RunConcat(m, a[1..], b, RunLine(m, a[0], h));
    }
  }

  lemma HeightConcat<I>(a: seq<Line<I>>, b: seq<Line<I>>, d: nat)
    requires Height(a, d).Some?
    ensures Height(a + b, d) == Height(b, Height(a, d).value)
  {
    if a == [] {
      assert a + b == b;
    } else {
      assert (a + b)[1..] == a[1..] + b;
    }
  }

  /** While a brace is being skipped, balanced lines change nothing but the brace count. */
  lemma Skipped<S, I>(m: Machine<S, I>, lines: seq<Line<I>>, h: Host<S>, d: nat, d': nat, k: nat)
    requires k > 0 && h.skip == k + d && Height(lines, d) == Some(d')
    ensures Run(m, lines, h) == h.(skip := k + d')
  {
    if lines != [] {
      var next := RunLine(m, lines[0], h);
      Skipped(m, lines[1..], next, next.skip - k, d', k);
    }
  }

  lemma GuardsHeight<I>(open: seq<string>, d: nat)
    ensures Height<I>(Guards(open), d) == Some(d + |open|)
  {}

  lemma ClosesHeight<I>(n: nat, d: nat)
    ensures Height<I>(Closes(n), d + n) == Some(d)
  {
    if n > 0 {
      ClosesHeight<I>(n - 1, d + 1);
      HeightConcat<I>(Closes(n - 1), [Close], d + n);
    }
  }

  lemma DosHeight<I>(instrs: seq<I>, d: nat)
    ensures Height(Dos(instrs), d) == Some(d)
  {}

  lemma GuardedHeight<I>(open: seq<string>, inner: seq<Line<I>>)
    requires Height(inner, 0) == Some(0)
    ensures Height(Guards(open) + inner + Closes(|open|), 0) == Some(0)
  {
    GuardsHeight<I>(open, 0);
    HeightLift(inner, 0, 0, |open|);
    ClosesHeight<I>(|open|, 0);
    HeightConcat(Guards(open), inner, 0);
    HeightConcat(Guards(open) + inner, Closes(|open|), 0);
  }

  lemma HeightLift<I>(lines: seq<Line<I>>, d: nat, d': nat, extra: nat)
    requires Height(lines, d) == Some(d')
    ensures Height(lines, d + extra) == Some(d' + extra)
  {
    if lines != [] {
      match lines[0]
      case OpenUnless(_) => HeightLift(lines[1..], d + 1, d', extra);
      case OpenIf(_) => HeightLift(lines[1..], d + 1, d', extra);
      case Close => HeightLift(lines[1..], d - 1, d', extra);
      case _ => HeightLift(lines[1..], d, d', extra);
    }
  }

  /** Guarded lines run exactly when none of the guarding flags is set. */
  lemma {:induction false} RunGuarded<S, I>(m: Machine<S, I>, open: seq<string>, inner: seq<Line<I>>, h: Host<S>)
    requires h.skip == 0 && Height(inner, 0) == Some(0) && Run(m, inner, h).skip == 0
    ensures Run(m, Guards(open) + inner + Closes(|open|), h)
         == if exists f :: f in open && f in h.flags then h else Run(m, inner, h)
    decreases |open|
  {
    var whole := Guards(open) + inner + Closes(|open|);
    if open == [] {
      assert whole == inner;
    } else {
      var rest := Guards(open[1..]) + inner + Closes(|open| - 1);
      assert whole == [OpenUnless(open[0])] + (rest + [Close]);
      assert whole[1..] == rest + [Close];
      var h1 := RunLine(m, whole[0], h);
      RunConcat(m, rest, [Close], h1);
      GuardedHeight(open[1..], inner);
      assert |open[1..]| == |open| - 1;
      if open[0] in h.flags {
        Skipped(m, rest, h1, 0, 0, 1);
        RunOne(m, Close, h1);
      } else {
        RunGuarded(m, open[1..], inner, h);
        assert (exists f :: f in open && f in h.flags) <==> (exists f :: f in open[1..] && f in h.flags) by {
          assert open == [open[0]] + open[1..];
        }
        RunOne(m, Close, Run(m, rest, h1));
      }
    }
  }

  lemma RunOne<S, I>(m: Machine<S, I>, line: Line<I>, h: Host<S>)
    ensures Run(m, [line], h) == RunLine(m, line, h)
  {
    assert [line][1..] == [];
    assert Run(m, [line], h) == Run(m, [], RunLine(m, line, h));
  }

  lemma RunDos<S, I>(m: Machine<S, I>, instrs: seq<I>, h: Host<S>)
    requires h.skip == 0
    ensures Run(m, Dos(instrs), h) == h.(s := m.Body(instrs, h.s))
  {
    if instrs != [] {
      assert Dos(instrs)[1..] == Dos(instrs[1..]);
      RunDos(m, instrs[1..], h.(s := m.step(instrs[0], h.s)));
    }
  }

  /** A block's own lines, under its own brace if it is conditional. */
  ghost function Inner<I>(b: Block<I>, early: bool): seq<Line<I>> {
    if Around(b) == [] then Acting(b, early) else [OpenIf(Around(b))] + Acting(b, early) + [Close]
  }

  lemma Nested<I>(b: Block<I>, open: seq<string>, early: bool)
    requires !b.kind.Label?
    ensures EmitBlock(b, open, early) == Guards(open) + Inner(b, early) + Closes(|open|)
  {
    if Around(b) == [] {
      NestedBare(b, open, early);
    } else {
      NestedUnderIf(b, open, early);
    }
  }

  lemma NestedBare<I>(b: Block<I>, open: seq<string>, early: bool)
    requires !b.kind.Label? && Around(b) == []
    ensures EmitBlock(b, open, early) == Guards(open) + Inner(b, early) + Closes(|open|)
  {
    assert Guards<I>(open) + [] == Guards(open);
  }

  lemma NestedUnderIf<I>(b: Block<I>, open: seq<string>, early: bool)
    requires !b.kind.Label? && Around(b) != []
    ensures EmitBlock(b, open, early) == Guards(open) + Inner(b, early) + Closes(|open|)
  {
    hide Guards, Acting, Closes;
    ClosesFront<I>(|open|);
    Regroup(Guards<I>(open), Opener<I>(Around(b)), Acting(b, early), [Close], Closes<I>(|open|));
  }

  lemma Regroup<I>(g: seq<Line<I>>, o: seq<Line<I>>, d: seq<Line<I>>, x: seq<Line<I>>, c: seq<Line<I>>)
    ensures (g + o) + d + (x + c) == g + (o + d + x) + c
  {}

  lemma ClosesFront<I>(n: nat)
    ensures Closes<I>(n + 1) == [Close] + Closes<I>(n)
  {
    if n == 0 {
      assert Closes<I>(0) == [];
    } else {
      ClosesFront<I>(n - 1);
    }
  }

  lemma ActingHeight<I>(b: Block<I>, early: bool, d: nat)
    ensures Height(Acting(b, early), d) == Some(d)
  {
    DosHeight(b.instrs, d);
    HeightConcat(Dos(b.instrs), [SetFlag([], END)], d);
  }

  lemma InnerHeight<I>(b: Block<I>, early: bool)
    ensures Height(Inner(b, early), 0) == Some(0)
  {
    ActingHeight(b, early, 0);
    ActingHeight(b, early, 1);
    if Around(b) != [] {
      assert Inner(b, early) == [OpenIf(Around(b))] + (Acting(b, early) + [Close]);
      HeightConcat(Acting(b, early), [Close], 1);
    }
  }

  /** The flag an acting block sets, if any. */
  ghost function Raised<I>(b: Block<I>, early: bool): set<string> {
    if b.IsJump() then {b.target} else if early && b.Ends() then {END} else {}
  }

  /** What an acting block does. */
  ghost function Acted<S, I>(m: Machine<S, I>, b: Block<I>, early: bool, h: Host<S>): Host<S> {
    Host(m.Body(b.instrs, h.s), h.flags + Raised(b, early), 0)
  }

  lemma RunActing<S, I>(m: Machine<S, I>, b: Block<I>, early: bool, h: Host<S>)
    requires h.skip == 0 && !b.kind.Label? && (b.IsJump() ==> b.instrs == [])
    requires !b.IsJump() || m.AllHold(b.Conditions(), h.s)
    ensures Run(m, Acting(b, early), h) == Acted(m, b, early, h)
  {
    if b.IsJump() {
      RunOne(m, SetFlag(b.Conditions(), b.target), h);
    } else {
      RunDos(m, b.instrs, h);
      RunOne(m, SetFlag([], END), h.(s := m.Body(b.instrs, h.s)));
      RunConcat(m, Dos(b.instrs), [SetFlag([], END)], h);
    }
  }

  lemma RunInner<S, I>(m: Machine<S, I>, b: Block<I>, early: bool, h: Host<S>)
    requires h.skip == 0 && !b.kind.Label? && (b.IsJump() ==> b.instrs == [])
    ensures Run(m, Inner(b, early), h) == if m.AllHold(b.Conditions(), h.s) then Acted(m, b, early, h) else h
  {
    if b.IsJump() {
      RunOne(m, SetFlag(b.Conditions(), b.target), h);
    } else if Around(b) == [] {
      RunActing(m, b, early, h);
    } else {
      var body := Acting(b, early);
      var lines := Inner(b, early);
      assert lines == [OpenIf(Around(b))] + (body + [Close]);
      assert lines[1..] == body + [Close];
      var h1 := RunLine(m, lines[0], h);
      RunConcat(m, body, [Close], h1);
      RunOne(m, Close, Run(m, body, h1));
      if m.AllHold(b.Conditions(), h.s) {
        RunActing(m, b, early, h);
      } else {
        ActingHeight(b, early, 0);
        Skipped(m, body, h1, 0, 0, 1);
      }
    }
  }

  /** One emitted block: nothing when a guarding flag is set, else the block's own effect. */
  lemma RunBlock<S, I>(m: Machine<S, I>, b: Block<I>, open: seq<string>, early: bool, h: Host<S>)
    requires h.skip == 0 && !b.kind.Label? && (b.IsJump() ==> b.instrs == [])
    ensures Run(m, EmitBlock(b, open, early), h)
         == if (exists f :: f in open && f in h.flags) || !m.AllHold(b.Conditions(), h.s) then h
            else Acted(m, b, early, h)
  {
    Nested(b, open, early);
    InnerHeight(b, early);
    RunInner(m, b, early, h);
    RunGuarded(m, open, Inner(b, early), h);
  }

  // ----- simulation -----

  /** Where the flag's guard is lifted: its label, or past the last block for the end flag. */
  ghost function Lifted<I>(blocks: seq<Block<I>>, f: string, early: bool): nat {
    if f == END && early then |blocks|
    else if FirstLabel(blocks, f).Some? then FirstLabel(blocks, f).value else |blocks|
  }

  /**
   The emitted text has reached block `i` while the program counter is at `pc`: either they are level and
   no guarding flag is set, or the flag lifted at `pc` is. Flags that do not guard yet are still clear.
   `lift` says where each flag's guard is lifted.
   */
  ghost predicate Level<S>(lift: string -> nat, i: nat, open: seq<string>, h: Host<S>, pc: nat) {
    && i <= pc && h.skip == 0 && Distinct(open)
    && (forall f | f in open :: i <= lift(f))
    && (forall f | f in h.flags && f !in open :: lift(f) < i)
    && (forall f | f in h.flags && f in open :: lift(f) == pc)
    && (!Guarded(open, h.flags) ==> pc == i)
  }

  ghost predicate Guarded(open: seq<string>, flags: set<string>) {
    exists f :: f in open && f in flags
  }

  predicate Distinct(open: seq<string>) {
    forall j, k | 0 <= j < k < |open| :: open[j] != open[k]
  }

  lemma WithoutFirst(open: seq<string>, f: string)
    requires Distinct(open)
    ensures forall g :: g in Without(open, f) <==> g in open && g != f
    ensures Distinct(Without(open, f))
  {
    if open != [] {
      assert open == [open[0]] + open[1..];
      if open[0] != f {
        WithoutFirst(open[1..], f);
        var rest := Without(open[1..], f);
        assert open[0] !in open[1..];
        assert open[0] !in rest;
        forall j, k | 0 <= j < k < |[open[0]] + rest|
          ensures ([open[0]] + rest)[j] != ([open[0]] + rest)[k]
        {
          assert ([open[0]] + rest)[k] == rest[k - 1];
        }
      }
    }
  }

  lemma LevelAfterLabel<S>(lift: string -> nat, i: nat, open: seq<string>, h: Host<S>, pc: nat, t: string)
    requires Level(lift, i, open, h, pc)
    requires lift(t) <= i && forall f | lift(f) == i :: f == t
    ensures Level(lift, i + 1, Without(open, t), h, if pc == i then i + 1 else pc)
  {
    WithoutFirst(open, t);
    if pc != i {
      var f :| f in open && f in h.flags;
      assert f in Without(open, t);
    }
  }

  /** After a block that may raise `f`: level again, or on the way to where `f` is lifted. */
  lemma LevelAfterRaise<S>(lift: string -> nat, i: nat, open: seq<string>, h: Host<S>, pc: nat,
                           f: string, acts: bool, s: S)
    requires Level(lift, i, open, h, pc)
    requires lift(f) > i && forall g :: lift(g) != i
    requires acts ==> !Guarded(open, h.flags)
    ensures Level(lift, i + 1, Joined(open, f),
                  if acts then Host(s, h.flags + {f}, 0) else h,
                  if acts then lift(f) else if pc == i then i + 1 else pc)
  {
    var open' := Joined(open, f);
    assert f in open' && forall g :: g in open' <==> g in open || g == f;
    if acts {
      assert f in open' && f in h.flags + {f};
    } else if Guarded(open, h.flags) {
      var g :| g in open && g in h.flags;
      assert g in open';
    }
  }

  /** A label that lifts nothing here. */
  lemma LevelAfterIdle<S>(lift: string -> nat, i: nat, open: seq<string>, h: Host<S>, pc: nat, t: string)
    requires Level(lift, i, open, h, pc) && t !in open
    requires forall g :: lift(g) != i
    ensures Level(lift, i + 1, Without(open, t), h, if pc == i then i + 1 else pc)
  {
    WithoutAbsent(open, t);
  }

  lemma {:induction false} WithoutAbsent(open: seq<string>, f: string)
    requires f !in open
    ensures Without(open, f) == open
  {
    if open != [] { WithoutAbsent(open[1..], f); }
  }

  lemma LevelAfterPlain<S>(lift: string -> nat, i: nat, open: seq<string>, h: Host<S>, pc: nat, s: S)
    requires Level(lift, i, open, h, pc)
    requires forall g :: lift(g) != i
    ensures Level(lift, i + 1, open, h.(s := s), if pc == i then i + 1 else pc)
  {}

  ghost function Lift<I>(blocks: seq<Block<I>>, early: bool): string -> nat {
    f => Lifted(blocks, f, early)
  }

  lemma NotLiftedAtOther<I>(blocks: seq<Block<I>>, i: nat, early: bool)
    requires i < |blocks| && !blocks[i].kind.Label?
    ensures forall f :: Lift(blocks, early)(f) != i
  {}

  /** Without jumps to the end flag's name, only a block that ends the shader opens its guard. */
  lemma {:induction false} EndNotOpen<I>(blocks: seq<Block<I>>, i: nat, early: bool)
    requires i <= |blocks| && forall j | 0 <= j < i :: !blocks[j].Ends() && (blocks[j].IsJump() ==> blocks[j].target != END)
    ensures END !in OpenAt(blocks, i, early)
  {
    if i > 0 { EndNotOpen(blocks, i - 1, early); }
  }

  /** Blocks that cannot act leave the state alone. */
  lemma {:induction false} QuietTail<S, I>(m: Machine<S, I>, blocks: seq<Block<I>>, pc: nat, s: S)
    requires Accepted(blocks) && pc <= |blocks| && !Acts(blocks[pc..])
    ensures Interpret(m, blocks, pc, s) == s
    decreases |blocks| - pc
  {
    if pc < |blocks| {
      assert blocks[pc..][0] == blocks[pc];
      assert blocks[pc..][1..] == blocks[pc + 1..];
      var tail := blocks[pc + 1..];
      forall j | 0 <= j < |tail|
        ensures !tail[j].IsJump() && tail[j].instrs == []
      {
        assert tail[j] == blocks[pc..][j + 1];
      }
      QuietTail(m, blocks, pc + 1, s);
    }
  }

  lemma SimulateStart<S, I>(m: Machine<S, I>, blocks: seq<Block<I>>, s: S)
    requires Accepted(blocks)
    ensures var early := EndsEarly(blocks);
            var h := Run(m, LinesAt(blocks, 0, early), Host(s, {}, 0));
            && h == Host(s, {}, 0) && Level(Lift(blocks, early), 0, OpenAt(blocks, 0, early), h, 0)
  {}

  /** Before block `i` the emitted text is level with some position of the program counter. */
  lemma {:induction false} Simulate<S, I>(m: Machine<S, I>, blocks: seq<Block<I>>, i: nat, s: S) returns (pc: nat)
    requires Accepted(blocks) && EndNameFree(blocks) && i <= |blocks|
    ensures var early := EndsEarly(blocks);
            var h := Run(m, LinesAt(blocks, i, early), Host(s, {}, 0));
            && pc <= |blocks| && Level(Lift(blocks, early), i, OpenAt(blocks, i, early), h, pc)
            && Interpret(m, blocks, pc, h.s) == Interpret(m, blocks, 0, s)
    decreases i
  {
    hide *;
    if i == 0 {
      pc := 0;
      SimulateStart(m, blocks, s);
    } else {
      var early := EndsEarly(blocks);
      EmitStep(blocks, i - 1, early);
      var open, before := OpenAt(blocks, i - 1, early), LinesAt(blocks, i - 1, early);
      var pc0 := Simulate(m, blocks, i - 1, s);
      EndLabelIdle(blocks, i - 1);
      RunConcat(m, before, EmitBlock(blocks[i - 1], open, early), Host(s, {}, 0));
      pc := SimulateBlock(m, blocks, i - 1, open, Run(m, before, Host(s, {}, 0)), pc0);
    }
  }

  lemma EndLabelIdle<I>(blocks: seq<Block<I>>, i: nat)
    requires EndNameFree(blocks) && i < |blocks|
    ensures EndsEarly(blocks) && IsEndLabel(blocks[i]) ==> END !in OpenAt(blocks, i, true)
  {
    if EndsEarly(blocks) && IsEndLabel(blocks[i]) {
      EndNotOpen(blocks, i, true);
    }
  }

  /** One block keeps the two readings level and the reference result unchanged. */
  lemma SimulateBlock<S, I>(m: Machine<S, I>, blocks: seq<Block<I>>, i: nat, open: seq<string>, h: Host<S>, pc: nat)
    returns (pc': nat)
    requires Accepted(blocks) && EndNameFree(blocks) && i < |blocks|
    requires pc <= |blocks| && Level(Lift(blocks, EndsEarly(blocks)), i, open, h, pc)
    requires EndsEarly(blocks) && IsEndLabel(blocks[i]) ==> END !in open
    ensures pc' <= |blocks|
    ensures var early := EndsEarly(blocks);
            var h' := Run(m, EmitBlock(blocks[i], open, early), h);
            && Level(Lift(blocks, early), i + 1, NextOpen(blocks[i], open, early), h', pc')
            && Interpret(m, blocks, pc', h'.s) == Interpret(m, blocks, pc, h.s)
  {
    hide Interpret, Gate;
    LabelIsIdle(m, blocks, i, h.s);
    if EndsEarly(blocks) && IsEndLabel(blocks[i]) {
      pc' := if pc == i then i + 1 else pc;
      LevelAfterIdle(Lift(blocks, true), i, open, h, pc, END);
    } else if blocks[i].kind.Label? {
      pc' := if pc == i then i + 1 else pc;
      LevelAfterLabel(Lift(blocks, EndsEarly(blocks)), i, open, h, pc, blocks[i].target);
    } else if blocks[i].IsJump() {
      pc' := SimulateJump(m, blocks, i, open, h, pc);
    } else if EndsEarly(blocks) && blocks[i].Ends() {
      pc' := SimulateEnd(m, blocks, i, open, h, pc);
    } else {
      pc' := SimulatePlain(m, blocks, i, open, h, pc);
    }
  }

  lemma LabelIsIdle<S, I>(m: Machine<S, I>, blocks: seq<Block<I>>, i: nat, s: S)
    requires Accepted(blocks) && i < |blocks|
    ensures blocks[i].kind.Label? ==> Interpret(m, blocks, i, s) == Interpret(m, blocks, i + 1, s)
  {}

  /** A block acts when no guard skips it and its conditions hold; otherwise it leaves the host alone. */
  lemma ActsWhen<S, I>(m: Machine<S, I>, blocks: seq<Block<I>>, i: nat, open: seq<string>, h: Host<S>, pc: nat)
    returns (acts: bool)
    requires Accepted(blocks) && EndNameFree(blocks) && i < |blocks|
    requires pc <= |blocks| && Level(Lift(blocks, EndsEarly(blocks)), i, open, h, pc)
    requires !blocks[i].kind.Label?
    ensures acts <==> pc == i && Gate(m, blocks[i], h.s)
    ensures acts ==> !Guarded(open, h.flags)
    ensures forall g :: Lift(blocks, EndsEarly(blocks))(g) != i
    ensures var early := EndsEarly(blocks);
            (Run(m, EmitBlock(blocks[i], open, early), h)
             == if acts then Acted(m, blocks[i], early, h) else h)
  {
    var early := EndsEarly(blocks);
    NotLiftedAtOther(blocks, i, early);
    assert pc == i <==> !Guarded(open, h.flags);
    RunBlock(m, blocks[i], open, early, h);
    ConditionsAreGate(m, blocks[i], h.s);
    acts := pc == i && Gate(m, blocks[i], h.s);
  }

  lemma SimulateJump<S, I>(m: Machine<S, I>, blocks: seq<Block<I>>, i: nat, open: seq<string>, h: Host<S>, pc: nat)
    returns (pc': nat)
    requires Accepted(blocks) && EndNameFree(blocks) && i < |blocks|
    requires pc <= |blocks| && Level(Lift(blocks, EndsEarly(blocks)), i, open, h, pc)
    requires blocks[i].IsJump()
    ensures pc' <= |blocks|
    ensures var early := EndsEarly(blocks);
            var h' := Run(m, EmitBlock(blocks[i], open, early), h);
            && Level(Lift(blocks, early), i + 1, NextOpen(blocks[i], open, early), h', pc')
            && Interpret(m, blocks, pc', h'.s) == Interpret(m, blocks, pc, h.s)
  {
    hide EmitBlock;
    var lift := Lift(blocks, EndsEarly(blocks));
    var acts := ActsWhen(m, blocks, i, open, h, pc);
    LiftedAtLabel(blocks, i, EndsEarly(blocks));
    LevelAfterRaise(lift, i, open, h, pc, blocks[i].target, acts, h.s);
    pc' := if acts then lift(blocks[i].target) else if pc == i then i + 1 else pc;
  }

  lemma SimulateEnd<S, I>(m: Machine<S, I>, blocks: seq<Block<I>>, i: nat, open: seq<string>, h: Host<S>, pc: nat)
    returns (pc': nat)
    requires Accepted(blocks) && EndNameFree(blocks) && i < |blocks|
    requires pc <= |blocks| && Level(Lift(blocks, EndsEarly(blocks)), i, open, h, pc)
    requires EndsEarly(blocks) && blocks[i].Ends()
    ensures pc' <= |blocks|
    ensures var early := EndsEarly(blocks);
            var h' := Run(m, EmitBlock(blocks[i], open, early), h);
            && Level(Lift(blocks, early), i + 1, NextOpen(blocks[i], open, early), h', pc')
            && Interpret(m, blocks, pc', h'.s) == Interpret(m, blocks, pc, h.s)
  {
    hide EmitBlock;
    var lift := Lift(blocks, true);
    var acts := ActsWhen(m, blocks, i, open, h, pc);
    LevelAfterRaise(lift, i, open, h, pc, END, acts, m.Body(blocks[i].instrs, h.s));
    pc' := if acts then |blocks| else if pc == i then i + 1 else pc;
  }

  lemma SimulatePlain<S, I>(m: Machine<S, I>, blocks: seq<Block<I>>, i: nat, open: seq<string>, h: Host<S>, pc: nat)
    returns (pc': nat)
    requires Accepted(blocks) && EndNameFree(blocks) && i < |blocks|
    requires pc <= |blocks| && Level(Lift(blocks, EndsEarly(blocks)), i, open, h, pc)
    requires !blocks[i].kind.Label? && !blocks[i].IsJump() && !(EndsEarly(blocks) && blocks[i].Ends())
    ensures pc' <= |blocks|
    ensures var early := EndsEarly(blocks);
            var h' := Run(m, EmitBlock(blocks[i], open, early), h);
            && Level(Lift(blocks, early), i + 1, NextOpen(blocks[i], open, early), h', pc')
            && Interpret(m, blocks, pc', h'.s) == Interpret(m, blocks, pc, h.s)
  {
    hide EmitBlock;
    var lift := Lift(blocks, EndsEarly(blocks));
    var acts := ActsWhen(m, blocks, i, open, h, pc);
    var h' := Run(m, EmitBlock(blocks[i], open, EndsEarly(blocks)), h);
    LevelAfterPlain(lift, i, open, h, pc, h'.s);
    pc' := if pc == i then i + 1 else pc;
    assert h' == h.(s := h'.s);
    if acts && blocks[i].Ends() {
      LateEndIsQuiet(blocks, i);
      QuietTail(m, blocks, i + 1, h'.s);
      assert Interpret(m, blocks, pc, h.s) == h'.s;
    }
  }

  lemma LateEndIsQuiet<I>(blocks: seq<Block<I>>, i: nat)
    requires i < |blocks| && blocks[i].Ends() && !EndsEarly(blocks)
    ensures !Acts(blocks[i + 1..])
  {}

  lemma LiftedAtLabel<I>(blocks: seq<Block<I>>, i: nat, early: bool)
    requires Accepted(blocks) && i < |blocks| && blocks[i].IsJump()
    requires early ==> blocks[i].target != END
    ensures Lifted(blocks, blocks[i].target, early) == FirstLabel(blocks, blocks[i].target).value
  {
    var k := FirstLabel(blocks, blocks[i].target).value;
    assert blocks[k].kind.Label?;
  }

  /**
   The translator preserves meaning: for every accepted block list, every machine and every start state,
   running the emitted lines with all flags clear ends in the state the program counter reaches.
   */
  lemma TranslationPreservesMeaning<S, I>(m: Machine<S, I>, blocks: seq<Block<I>>, s: S)
    requires Accepted(blocks) && EndNameFree(blocks)
    ensures var out := Run(m, Emitted(blocks), Host(s, {}, 0));
            out.s == Interpret(m, blocks, 0, s) && out.skip == 0
  {
    var pc := Simulate(m, blocks, |blocks|, s);
  }

  /** In particular, where nothing in the listing carries the name of the end flag, or nothing acts after a block that ends the shader. */
  lemma PlainNamesTranslate<S, I>(m: Machine<S, I>, blocks: seq<Block<I>>, s: S)
    requires Accepted(blocks)
    requires (forall i | 0 <= i < |blocks| :: blocks[i].target != END)
             || forall i, j | 0 <= i < j < |blocks| && blocks[i].Ends() :: !blocks[j].IsJump() && blocks[j].instrs == []
    ensures Run(m, Emitted(blocks), Host(s, {}, 0)).s == Interpret(m, blocks, 0, s)
  {
    hide Run, Emitted, Interpret, Accepted, EndsEarly;
    EndsEarlyIff(blocks);
    TranslationPreservesMeaning(m, blocks, s);
  }

  /**
   Without `EndNameFree` the theorem fails: a label that carries the name of the end flag lifts that flag's
   guard, so this accepted three-block list, whose first block ends the shader, still runs its last block.
   */
  lemma LabelNamedEndBreaksIt()
    ensures Accepted(EndClash()) && Supported(EndClash()) && !EndNameFree(EndClash())
    ensures Interpret(Adder(), EndClash(), 0, 0) == 1
    ensures Run(Adder(), Emitted(EndClash()), Host(0, {}, 0)).s == 3
  {
    EndClashEmits();
    EndClashInterprets();
    EndClashRuns();
  }

  function EndClash(): seq<Block<int>> {
    [Block(ExecE, None, P0(false), "", [1]), Block(Label, None, P0(false), END, []),
     Block(Exec, None, P0(false), "", [2])]
  }

  function Adder(): Machine<int, int> {
    Machine(s => false, n => false, (i, s) => s + i)
  }

  lemma EndClashInterprets()
    ensures Accepted(EndClash()) && Supported(EndClash())
    ensures Interpret(Adder(), EndClash(), 0, 0) == 1
  {
    assert Adder().Body([1], 0) == Adder().Body([1][1..], 1);
  }

  lemma EndClashRuns()
    ensures Run(Adder(), [Do(1), SetFlag([], END), Do(2)], Host(0, {}, 0)).s == 3
  {
    var m := Adder();
    var h1, h2 := Host(1, {}, 0), Host(1, {END}, 0);
    RunOne(m, Do(1), Host(0, {}, 0));
    RunOne(m, SetFlag([], END), h1);
    assert h1.flags + {END} == {END};
    RunOne(m, Do(2), h2);
    RunConcat(m, [Do(1)], [SetFlag([], END)], Host(0, {}, 0));
    RunConcat(m, [Do(1)] + [SetFlag([], END)], [Do(2)], Host(0, {}, 0));
    assert [Do(1)] + [SetFlag([], END)] + [Do(2)] == [Do(1), SetFlag([], END), Do(2)];
  }

  lemma EndClashEmits()
    ensures EndsEarly(EndClash()) && !EndNameFree(EndClash())
    ensures Emitted(EndClash()) == [Do(1), SetFlag([], END), Do(2)]
  {
    EndClashEndsEarly();
    EndClashOpen();
    EmitThree(EndClash(), [], [END], []);
  }

  lemma EmitThree<I>(blocks: seq<Block<I>>, open0: seq<string>, open1: seq<string>, open2: seq<string>)
    requires |blocks| == 3 && open0 == []
    requires open1 == NextOpen(blocks[0], open0, true) && open2 == NextOpen(blocks[1], open1, true)
    ensures LinesAt(blocks, 3, true)
         == EmitBlock(blocks[0], open0, true) + EmitBlock(blocks[1], open1, true) + EmitBlock(blocks[2], open2, true)
  {
    EmitStep(blocks, 0, true);
    EmitStep(blocks, 1, true);
    EmitStep(blocks, 2, true);
    assert [] + EmitBlock(blocks[0], open0, true) == EmitBlock(blocks[0], open0, true);
  }

  lemma EmitStep<I>(blocks: seq<Block<I>>, i: nat, early: bool)
    requires i < |blocks|
    ensures LinesAt(blocks, i + 1, early)
         == LinesAt(blocks, i, early) + EmitBlock(blocks[i], OpenAt(blocks, i, early), early)
    ensures OpenAt(blocks, i + 1, early) == NextOpen(blocks[i], OpenAt(blocks, i, early), early)
  {}

  lemma EndClashEndsEarly()
    ensures EndsEarly(EndClash()) && !EndNameFree(EndClash())
  {
    var blocks := EndClash();
    assert blocks[0 + 1..][1].instrs != [];
    assert blocks[0].Ends() && Acts(blocks[0 + 1..]);
    assert IsEndLabel(blocks[1]);
  }

  lemma EndClashOpen()
    ensures var blocks := EndClash();
            && EmitBlock(blocks[0], [], true) == [Do(1), SetFlag([], END)] && NextOpen(blocks[0], [], true) == [END]
            && EmitBlock(blocks[1], [END], true) == [] && NextOpen(blocks[1], [END], true) == []
            && EmitBlock(blocks[2], [], true) == [Do(2)] && NextOpen(blocks[2], [], true) == []
  {
    EmitsOne(EndClash()[0], 1, []);
    EmitsOne(EndClash()[2], 2, []);
    assert [END][1..] == [];
  }

  lemma EmitsOne(b: Block<int>, n: int, cs: seq<Cond>)
    requires (b.kind.Exec? || b.kind.ExecE?) && b.pred.None? && b.instrs == [n]
    ensures EmitBlock(b, [], true) == if b.Ends() then [Do(n), SetFlag([], END)] else [Do(n)]
  {
    assert [n][1..] == [];
    assert Dos([n]) == [Do(n)] + Dos([n][1..]);
    assert Opening<int>([], []) == [] && Closes<int>(0) == [];
  }

  // ----- flag declarations -----

  function FlagsAt<I>(blocks: seq<Block<I>>, i: nat, early: bool): seq<string>
    requires i <= |blocks|
  {
    if i == 0 then [] else NextFlags(blocks[i - 1], FlagsAt(blocks, i - 1, early), early)
  }

  /** The flags the shader declares, all false at entry. */
  function Declared<I>(blocks: seq<Block<I>>): seq<string> {
    FlagsAt(blocks, |blocks|, EndsEarly(blocks))
  }

  ghost predicate Uses<I>(line: Line<I>, f: string) {
    (line.OpenUnless? || line.SetFlag?) && line.flag == f
  }

  lemma GuardsUse<I>(open: seq<string>, f: string, line: Line<I>)
    requires line in Guards<I>(open) && Uses(line, f)
    ensures f in open
  {
    if line != OpenUnless(open[0]) {
      GuardsUse(open[1..], f, line);
    }
  }

  lemma ClosesUse<I>(n: nat, f: string, line: Line<I>)
    requires line in Closes<I>(n)
    ensures !Uses(line, f)
  {}

  lemma DosUse<I>(instrs: seq<I>, f: string, line: Line<I>)
    requires line in Dos(instrs)
    ensures !Uses(line, f)
  {}

  lemma BlockUses<I>(b: Block<I>, open: seq<string>, early: bool, f: string, line: Line<I>)
    requires line in EmitBlock(b, open, early) && Uses(line, f)
    ensures f in open || f in NextFlags(b, [], early)
  {
    if line in Opening<I>(open, Around(b)) {
      GuardsUse(open, f, line);
    } else if line in Acting(b, early) {
      if !b.IsJump() && line in Dos(b.instrs) {
        DosUse(b.instrs, f, line);
      }
    } else {
      ClosesUse(|open| + |Opener<I>(Around(b))|, f, line);
    }
  }

  lemma FlagsDistinct<I>(blocks: seq<Block<I>>, i: nat, early: bool)
    requires i <= |blocks|
    ensures Distinct(FlagsAt(blocks, i, early))
    ensures forall f | f in OpenAt(blocks, i, early) :: f in FlagsAt(blocks, i, early)
  {}

  lemma {:induction false} FlagsCover<I>(blocks: seq<Block<I>>, i: nat, early: bool, line: Line<I>, f: string)
    requires i <= |blocks| && line in LinesAt(blocks, i, early) && Uses(line, f)
    ensures f in FlagsAt(blocks, i, early)
  {
    hide EmitBlock;
    var open := OpenAt(blocks, i - 1, early);
    if line in EmitBlock(blocks[i - 1], open, early) {
      BlockUses(blocks[i - 1], open, early, f, line);
      FlagsDistinct(blocks, i - 1, early);
    } else {
      FlagsCover(blocks, i - 1, early, line, f);
    }
  }

  /** Every flag the emitted text reads or sets is declared, and declared once. */
  lemma EveryFlagDeclaredOnce<I>(blocks: seq<Block<I>>)
    ensures Distinct(Declared(blocks))
    ensures forall line, f | line in Emitted(blocks) && Uses(line, f) :: f in Declared(blocks)
  {
    FlagsDistinct(blocks, |blocks|, EndsEarly(blocks));
    forall line, f | line in Emitted(blocks) && Uses(line, f) ensures f in Declared(blocks) {
      FlagsCover(blocks, |blocks|, EndsEarly(blocks), line, f);
    }
  }

  // ----- the translator -----

  lemma GuardsAppend<I>(open: seq<string>, f: string)
    ensures Guards<I>(open + [f]) == Guards<I>(open) + [OpenUnless(f)]
  {
    if open == [] {
      assert [] + [f] == [f] && [f][1..] == [];
    } else {
      assert (open + [f])[1..] == open[1..] + [f];
      GuardsAppend<I>(open[1..], f);
    }
  }

  lemma DosAppend<I>(instrs: seq<I>, ins: I)
    ensures Dos(instrs + [ins]) == Dos(instrs) + [Do(ins)]
  {
    if instrs == [] {
      assert [] + [ins] == [ins] && [ins][1..] == [];
    } else {
      assert (instrs + [ins])[1..] == instrs[1..] + [ins];
      DosAppend(instrs[1..], ins);
    }
  }

  datatype Verdict = Translated | NotSupported

  class Translator<I(==)> {
    const blocks: seq<Block<I>>
    var lines: seq<Line<I>>
    var depth: nat
    var jumpFlags: seq<string>

    constructor (blocks: seq<Block<I>>)
      ensures this.blocks == blocks && lines == [] && jumpFlags == [] && depth == 0
    {
      this.blocks := blocks;
      lines, depth, jumpFlags := [], 0, [];
    }

    method Emit(line: Line<I>)
      modifies `lines
      ensures lines == old(lines) + [line]
    {
      lines := lines + [line];
    }

    /** The refusals of `validate_blocks`: a first pass records each label once, a second checks every block. */
    method ValidateBlocks() returns (verdict: Verdict)
      ensures verdict.Translated? <==> Accepted(blocks)
    {
      var labels: map<string, nat> := map[];
      for i := 0 to |blocks|
        invariant forall t | t in labels ::
          labels[t] < i && blocks[labels[t]].kind.Label? && blocks[labels[t]].target == t &&
          forall j | 0 <= j < labels[t] :: !(blocks[j].kind.Label? && blocks[j].target == t)
        invariant forall j | 0 <= j < i && blocks[j].kind.Label? :: blocks[j].target in labels
      {
        if blocks[i].kind.Label? && blocks[i].target !in labels {
          labels := labels[blocks[i].target := i];
        }
      }
      for i := 0 to |blocks|
        invariant forall j | 0 <= j < i ::
          && (blocks[j].IsJump() ==>
                && FirstLabel(blocks, blocks[j].target).Some?
                && j < FirstLabel(blocks, blocks[j].target).value)
          && (blocks[j].IsJump() || blocks[j].kind.Label? ==> blocks[j].instrs == [])
      {
        var b := blocks[i];
        if b.IsJump() {
          if b.target !in labels {
            return NotSupported;
          }
          assert FirstLabel(blocks, b.target) == Some(labels[b.target]);
          if labels[b.target] <= i {
            return NotSupported;
          }
        }
        if (b.IsJump() || b.kind.Label?) && b.instrs != [] {
          return NotSupported;
        }
      }
      return Translated;
    }

    /** Opens one brace per guarding flag, and one more when the block is conditional. */
    method OpenGuards(open: seq<string>, conds: seq<Cond>) returns (guardDepth: nat)
      modifies `lines, `depth
      ensures lines == old(lines) + Opening(open, conds)
      ensures guardDepth == |open| + |Opener<I>(conds)| && depth == old(depth) + guardDepth
    {
      guardDepth := 0;
      while guardDepth < |open|
        invariant guardDepth <= |open|
        invariant lines == old(lines) + Guards(open[..guardDepth]) && depth == old(depth) + guardDepth
      {
        assert open[..guardDepth + 1] == open[..guardDepth] + [open[guardDepth]];
        GuardsAppend<I>(open[..guardDepth], open[guardDepth]);
        Emit(OpenUnless(open[guardDepth]));
        depth := depth + 1;
        guardDepth := guardDepth + 1;
      }
      assert open[..|open|] == open;
      if conds != [] {
        Emit(OpenIf(conds));
        depth := depth + 1;
        guardDepth := guardDepth + 1;
      }
    }

    method CloseGuards(n: nat)
      requires n <= depth
      modifies `lines, `depth
      ensures lines == old(lines) + Closes(n) && depth == old(depth) - n
    {
      for k := 0 to n
        invariant lines == old(lines) + Closes(k) && depth == old(depth) - k
      {
        depth := depth - 1;
        Emit(Close);
      }
    }

    method EmitInstructions(instrs: seq<I>)
      modifies `lines
      ensures lines == old(lines) + Dos(instrs)
    {
      var i := 0;
      while i < |instrs|
        invariant 0 <= i <= |instrs|
        invariant lines == old(lines) + Dos(instrs[..i])
      {
        assert instrs[..i + 1] == instrs[..i] + [instrs[i]];
        DosAppend(instrs[..i], instrs[i]);
        Emit(Do(instrs[i]));
        i := i + 1;
      }
      assert instrs[..|instrs|] == instrs;
    }

    /** Records that `f` guards what follows and has to be declared. */
    method Raise(open: seq<string>, f: string) returns (open': seq<string>)
      modifies `jumpFlags
      ensures open' == Joined(open, f) && jumpFlags == Joined(old(jumpFlags), f)
    {
      open' := open;
      if f !in open' {
        open' := open' + [f];
      }
      if f !in jumpFlags {
        jumpFlags := jumpFlags + [f];
      }
    }

    /** The lines of an exec-like block, inside its braces. */
    method TranslateActing(b: Block<I>, early: bool)
      requires !b.IsJump()
      modifies `lines
      ensures lines == old(lines) + Acting(b, early)
    {
      EmitInstructions(b.instrs);
      if early && b.Ends() {
        Emit(SetFlag([], END));
      }
    }

    /** A jump or an exec-like block under its guards; returns the flags guarding what follows. */
    method TranslateGuarded(b: Block<I>, open: seq<string>, early: bool) returns (open': seq<string>)
      requires !b.kind.Label?
      modifies this
      ensures lines == old(lines) + EmitBlock(b, open, early) && depth == old(depth)
      ensures open' == NextOpen(b, open, early) && jumpFlags == NextFlags(b, old(jumpFlags), early)
    {
      open' := open;
      var guardDepth := OpenGuards(open, Around(b));
      if b.IsJump() {
        Emit(SetFlag(b.Conditions(), b.target));
        open' := Raise(open, b.target);
      } else {
        TranslateActing(b, early);
        if early && b.Ends() {
          open' := Raise(open, END);
        }
      }
      CloseGuards(guardDepth);
      Assembled(old(lines), Opening(open, Around(b)), Acting(b, early), Closes(guardDepth));
    }

    lemma Assembled(done: seq<Line<I>>, o: seq<Line<I>>, a: seq<Line<I>>, c: seq<Line<I>>)
      ensures ((done + o) + a) + c == done + (o + a + c)
    {}

    method TranslateBlock(b: Block<I>, open: seq<string>, early: bool) returns (verdict: Verdict, open': seq<string>)
      modifies this
      ensures verdict.Translated? <==> b.kind.Label? || b.Spelled()
      ensures verdict.Translated? ==>
                && lines == old(lines) + EmitBlock(b, open, early) && depth == old(depth)
                && open' == NextOpen(b, open, early) && jumpFlags == NextFlags(b, old(jumpFlags), early)
    {
      verdict, open' := Translated, open;
      if b.kind.Label? {
        if b.target in open {
          open' := Without(open, b.target);
        } else {
          WithoutAbsent(open, b.target);
        }
      } else if !b.Spelled() {
        verdict := NotSupported;
      } else {
        open' := TranslateGuarded(b, open, early);
      }
    }

    method TranslateBlocks(early: bool) returns (verdict: Verdict)
      requires depth == 0 && jumpFlags == []
      modifies this
      ensures verdict.Translated? <==> SupportedTo(|blocks|)
      ensures verdict.Translated? ==>
                && lines == old(lines) + LinesAt(blocks, |blocks|, early) && depth == 0
                && jumpFlags == FlagsAt(blocks, |blocks|, early)
    {
      hide EmitBlock, NextOpen, NextFlags;
      var open: seq<string> := [];
      var i := 0;
      assert lines == lines + [];
      while i < |blocks|
        invariant 0 <= i <= |blocks| && depth == 0 && SupportedTo(i)
        invariant open == OpenAt(blocks, i, early) && jumpFlags == FlagsAt(blocks, i, early)
        invariant lines == old(lines) + LinesAt(blocks, i, early)
      {
        Extended(old(lines), LinesAt(blocks, i, early), EmitBlock(blocks[i], open, early));
        verdict, open := TranslateBlock(blocks[i], open, early);
        if verdict.NotSupported? {
          UnsupportedFrom(i + 1);
          return;
        }
        i := i + 1;
      }
      verdict := Translated;
    }

    lemma Extended(a: seq<Line<I>>, b: seq<Line<I>>, c: seq<Line<I>>)
      ensures (a + b) + c == a + (b + c)
    {}

    lemma UnsupportedFrom(n: nat)
      requires n <= |blocks| && !SupportedTo(n)
      ensures !SupportedTo(|blocks|)
      decreases |blocks| - n
    {
      if n < |blocks| {
        UnsupportedFrom(n + 1);
      }
    }

    ghost predicate SupportedTo(n: nat)
      requires n <= |blocks|
    {
      n == 0 || (SupportedTo(n - 1) && (blocks[n - 1].kind.Label? || blocks[n - 1].Spelled()))
    }

    lemma SupportedPrefix(n: nat)
      requires n <= |blocks|
      ensures SupportedTo(n) <==> forall j | 0 <= j < n :: blocks[j].kind.Label? || blocks[j].Spelled()
    {}

    /**
     Refuses exactly the lists with a backward or dangling jump, instructions in a control block or an
     unknown condition; otherwise appends the emitted body, whose meaning TranslationPreservesMeaning gives.
     */
    method TranslateBody() returns (verdict: Verdict)
      requires jumpFlags == []
      modifies this
      ensures verdict.Translated? <==> Accepted(blocks) && Supported(blocks)
      ensures verdict.Translated? ==>
                lines == old(lines) + Emitted(blocks) && jumpFlags == Declared(blocks) && depth == 0
    {
      verdict := ValidateBlocks();
      if verdict.Translated? {
        depth := 0;
        verdict := TranslateBlocks(EndsEarly(blocks));
        SupportedPrefix(|blocks|);
        forall i | 0 <= i < |blocks|
          ensures blocks[i].kind.Label? || blocks[i].Spelled() <==> HasCondition(blocks[i].kind) ==> !blocks[i].cond.Unsupported?
        {
          SpelledIff(blocks[i]);
        }
      }
    }
  }
}
