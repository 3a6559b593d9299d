/** Program traces (vm/src/trace.rs): recording a run block by block, and replaying a recorded block
    into the register file before every step. */
module VmTrace {
  import opened Wrappers
  import opened Rv32
  import opened Vm
  import opened Powers

  /** The word evaluated, its result, and the next pc when it is not the following word. */
  datatype Step = Step(inst: u32, z: u32, pc: Option<u32>)

  datatype Block = Block(regs: Regs, steps: seq<Step>)

  datatype Trace = Trace(k: nat, start: nat, blocks: seq<Block>)

  // ---- Runs ----

  /** One step of a run that is recorded; beyond the last word, pc + 4 overflows and recording fails. */
  ghost predicate Follows(s: State, s': State, limit: Option<nat>) {
    Eval(s, limit) == Some(s') && s.regs.pc + 4 < WORD
  }

  ghost predicate Run(run: seq<State>, limit: Option<nat>) {
    run != [] && forall i :: 0 <= i < |run| - 1 ==> Follows(run[i], run[i + 1], limit)
  }

  function StepOf(s: State, s': State): Step {
    Step(s'.word, s'.z, if s'.regs.pc == s.regs.pc + 4 then None else Some(s'.regs.pc))
  }

  /** The block holds the registers at the start of the run and every step of it. */
  ghost predicate Records(block: Block, run: seq<State>) {
    && |run| == |block.steps| + 1
    && block.regs == run[0].regs
    && forall i :: 0 <= i < |block.steps| ==> block.steps[i] == StepOf(run[i], run[i + 1])
  }

  /** `step`. */
  method TakeStep(vm: NexusVM) returns (r: Option<Step>)
    modifies vm
    ensures r.Some? ==> Follows(old(vm.Current()), vm.Current(), vm.limit) && r.value == StepOf(old(vm.Current()), vm.Current())
    ensures r.Some? ==> r.value.inst == vm.word && r.value.z == vm.z && (r.value.pc.None? <==> vm.regs.pc == old(vm.regs.pc) + 4)
                        && (r.value.pc.Some? ==> r.value.pc.value == vm.regs.pc)
    ensures r.None? ==> Eval(old(vm.Current()), vm.limit) == None || old(vm.regs.pc) + 4 >= WORD
  {
    hide Eval;
    var pc := vm.regs.pc;
    var ok := vm.EvalInst();
    if !ok || pc + 4 >= WORD {
      return None;
    }
    r := Some(Step(vm.word, vm.z, if vm.regs.pc == pc + 4 then None else Some(vm.regs.pc)));
  }

  /** `k_step`. */
  method KStep(vm: NexusVM, k: nat) returns (r: Option<Block>, ghost run: seq<State>)
    modifies vm
    ensures Run(run, vm.limit) && run[0] == old(vm.Current())
    ensures r.Some? ==> |r.value.steps| == k && Records(r.value, run) && run[k] == vm.Current()
    ensures r.None? ==> |run| <= k && (Eval(run[|run| - 1], vm.limit) == None || run[|run| - 1].regs.pc + 4 >= WORD)
  {
    hide Eval;
    run := [vm.Current()];
    var block := Block(vm.regs, []);
    for i := 0 to k
      invariant |block.steps| == i && Records(block, run) && Run(run, vm.limit)
      invariant run[0] == old(vm.Current()) && run[i] == vm.Current()
    {
      var s := TakeStep(vm);
      if s == None {
        return None, run;
      }
      run := run + [vm.Current()];
      block := block.(steps := block.steps + [s.value]);
    }
    r := Some(block);
  }

  // ---- Replay ----

  /** The operand fields of a word, by opcode alone. */
  datatype Fields = Fields(rs1: u32, rs2: u32, rd: u32, imm: u32, shamt: u32)

  /** `parse_alt`. */
  function ParseAlt(x: Registers, w: u32): (f: Fields)
    ensures f.rs1 < 32 && f.rs2 < 32 && f.rd < 32
  {
    var opc := Opcode(w);
    if opc == OPC_LUI || opc == OPC_AUIPC then Fields(0, 0, Rd(w), ImmU(w), 0)
    else if opc == OPC_JAL then Fields(0, 0, Rd(w), ImmJ(w), 0)
    else if opc == OPC_JALR || opc == OPC_LOAD then Fields(Rs1(w), 0, Rd(w), ImmI(w), 0)
    else if opc == OPC_BR then Fields(Rs1(w), Rs2(w), 0, ImmB(w), 0)
    else if opc == OPC_STORE then Fields(Rs1(w), Rs2(w), 0, ImmS(w), 0)
    else if opc == OPC_ALUI then Fields(Rs1(w), 0, Rd(w), ImmA(w), ImmA(w) % 32)
    else if opc == OPC_ALU then Fields(Rs1(w), Rs2(w), Rd(w), 0, x[Rs2(w)] % 32)
    else if opc == OPC_ECALL then Fields(0, 0, Rd(w), 0, 0)
    else Fields(0, 0, 0, 0, 0)
  }

  datatype Witness = Witness(regs: Regs, inst: u32, fields: Fields, X: u32, Y: u32, Z: u32, PC: u32)

  /** What the iterator yields for a step, from its register file. */
  function WitnessOf(regs: Regs, s: Step): Witness
    requires s.pc == None ==> regs.pc + 4 < WORD
  {
    var f := ParseAlt(regs.x, s.inst);
    Witness(regs, s.inst, f, regs.x[f.rs1], regs.x[f.rs2], s.z, if s.pc.Some? then s.pc.value else regs.pc + 4)
  }

  /** The register file the iterator moves to. */
  function ReplayStep(regs: Regs, s: Step): Regs {
    var rd := ParseAlt(regs.x, s.inst).rd;
    Regs(if s.pc.Some? then s.pc.value else (regs.pc + 4) % WORD, if rd > 0 then regs.x[rd := s.z] else regs.x)
  }

  /** The register file after the first i steps of a block. */
  function Replayed(block: Block, i: nat): Regs
    requires i <= |block.steps|
  {
    if i == 0 then block.regs else ReplayStep(Replayed(block, i - 1), block.steps[i - 1])
  }

  class BlockIter {
    const block: Block
    var regs: Regs
    var index: nat

    ghost predicate Valid()
      reads this
    {
      index <= |block.steps| && regs == Replayed(block, index)
    }

    constructor (block: Block)
      ensures this.block == block && index == 0 && Valid()
    {
      this.block := block;
      regs, index := block.regs, 0;
    }

    /** `BlockIter::next`; a pc that overflows and an unreadable word are panics (None with no move). */
    method Next() returns (r: Option<Witness>)
      requires Valid()
      modifies this
      ensures Valid()
      ensures r.None? ==> index == old(index) && regs == old(regs)
      ensures r.Some? ==>
                && index == old(index) + 1 <= |block.steps|
                && (block.steps[old(index)].pc == None ==> old(regs).pc + 4 < WORD)
                && r.value == WitnessOf(old(regs), block.steps[old(index)])
      ensures r.None? <==> || old(index) == |block.steps|
                           || Parse(block.steps[old(index)].inst) == None
                           || (block.steps[old(index)].pc == None && old(regs).pc + 4 >= WORD)
    {
      hide Parse, ParseAlt;
      if index >= |block.steps| {
        return None;
      }
      var s := block.steps[index];
      if Parse(s.inst) == None {
        return None;
      }
      var f := ParseAlt(regs.x, s.inst);
      var pc: u32 := 0;
      if s.pc.Some? {
        pc := s.pc.value;
      } else if regs.pc + 4 >= WORD {
        return None;
      } else {
        pc := regs.pc + 4;
      }
      r := Some(Witness(regs, s.inst, f, regs.x[f.rs1], regs.x[f.rs2], s.z, pc));
      var x := regs.x;
      if f.rd > 0 {
        x := x[f.rd := s.z];
      }
      regs := Regs(pc, x);
      index := index + 1;
    }
  }

  // ---- Replay against execution ----

  /** Execution leaves these words' rd field alone, but replay writes to it. */
  predicate IgnoresRd(inst: Inst) {
    inst.EBREAK? || inst.UNIMP?
  }

  /** The fields read off by opcode alone are the operands of the parsed instruction. Only for EBREAK and UNIMP is rd not
      the register that evaluation writes; an arithmetic instruction shifts by the low five bits of its second operand. */
  lemma FieldsAreOperands(x: Registers, w: u32, inst: Inst)
    requires Parse(w) == Some(inst)
    ensures FirstSource(inst) < 32 && SecondSource(inst) < 32
    ensures var f := ParseAlt(x, w);
            && f.rs1 == FirstSource(inst) && f.rs2 == SecondSource(inst) && f.imm == Immediate(inst)
            && f.rd == (if IgnoresRd(inst) then Rd(w) else WrittenBy(inst))
            && f.shamt == (if inst.ALUI? then inst.imm % 32 else if inst.ALU? then x[inst.rs2] % 32 else 0)
  {
    hide Funct3, Funct7, Rd, Rs1, Rs2, ImmI, ImmS, ImmB, ImmU, ImmJ, ImmA, Bop, Lop, Sop, Aop, Aopi;
  }

  lemma EffectWrites(inst: Inst, regs: Regs, mem: Memory, len: nat)
    requires Decoded(inst) && EffectOf(inst, regs, mem, len).Some?
    ensures EffectOf(inst, regs, mem, len).value.rd == WrittenBy(inst)
    ensures IgnoresRd(inst) ==> EffectOf(inst, regs, mem, len).value.z == 0
  {
    hide AluOp, BrOp, Load, Store;
  }

  /** Evaluation in terms of the recorded word. */
  lemma EvalWrites(s: State, s': State, limit: Option<nat>)
    requires Eval(s, limit) == Some(s')
    ensures Parse(s'.word) == Some(s'.inst) && WrittenBy(s'.inst) < 32
    ensures s'.regs.x == SetReg(s.regs.x, WrittenBy(s'.inst), s'.z)
    ensures IgnoresRd(s'.inst) ==> s'.z == 0
  {
    hide Parse, AluOp, BrOp, Load, Store, LoadWord, EffectOf;
    DecodedWords(LoadWord(s.mem, s.regs.pc));
    EffectWrites(s'.inst, s.regs, s.mem, s.len);
  }

  /** The step makes replay clear a register that execution keeps. */
  ghost predicate Diverges(s: State, s': State) {
    IgnoresRd(s'.inst) && Rd(s'.word) > 0 && s.regs.x[Rd(s'.word)] != 0
  }

  /** One step replays to the machine's registers if and only if it does not diverge. */
  lemma StepReplays(s: State, s': State, limit: Option<nat>)
    requires Follows(s, s', limit)
    ensures ReplayStep(s.regs, StepOf(s, s')) == s'.regs <==> !Diverges(s, s')
  {
    hide Eval, Parse, ParseAlt, Rd;
    EvalWrites(s, s', limit);
    FieldsAreOperands(s.regs.x, s'.word, s'.inst);
    var x, rd := s.regs.x, Rd(s'.word);
    if IgnoresRd(s'.inst) && rd > 0 {
      assert x[rd := 0][rd] == 0;
      if x[rd] == 0 {
        assert x[rd := 0] == x;
      }
    }
  }

  /** Replay agrees with the run before each of its first n steps exactly when none of the steps
      before the last of these diverges. */
  lemma {:induction false} PrefixReplays(block: Block, run: seq<State>, limit: Option<nat>, n: nat)
    requires Run(run, limit) && Records(block, run) && n <= |block.steps|
    ensures (forall i :: 0 <= i <= n ==> Replayed(block, i) == run[i].regs)
       <==> (forall i :: 0 <= i < n ==> !Diverges(run[i], run[i + 1]))
  {
    hide Follows, Diverges, Replayed, StepOf;
    if n == 0 {
      StartReplays(block, run);
    } else {
      PrefixReplays(block, run, limit, n - 1);
      if Replayed(block, n - 1) == run[n - 1].regs {
        NextReplays(block, run, limit, n - 1);
      }
    }
  }

  lemma StartReplays(block: Block, run: seq<State>)
    requires Records(block, run)
    ensures Replayed(block, 0) == run[0].regs
  {
  }

  lemma NextReplays(block: Block, run: seq<State>, limit: Option<nat>, n: nat)
    requires Run(run, limit) && Records(block, run) && n < |block.steps| && Replayed(block, n) == run[n].regs
    ensures Replayed(block, n + 1) == run[n + 1].regs <==> !Diverges(run[n], run[n + 1])
  {
    hide Follows, Diverges, ReplayStep, StepOf;
    StepReplays(run[n], run[n + 1], limit);
  }

  /** Trace replay refines execution. The witnesses of a recorded block carry the machine's registers and
      pc before every step if and only if no step but the last clears a register that execution keeps. */
  lemma BlockReplays(block: Block, run: seq<State>, limit: Option<nat>)
    requires Run(run, limit) && Records(block, run) && block.steps != []
    ensures (forall i :: 0 <= i < |block.steps| ==> Replayed(block, i) == run[i].regs)
       <==> (forall i :: 0 <= i < |block.steps| - 1 ==> !Diverges(run[i], run[i + 1]))
  {
    hide Diverges, Replayed, Follows;
    PrefixReplays(block, run, limit, |block.steps| - 1);
  }

  /** The iterator never panics on a faithfully replayed block and yields the right operands: the fields and the source
      registers of the instruction that was executed, its result, and the machine's next pc. */
  lemma WitnessIsRight(s: State, s': State, limit: Option<nat>)
    requires Follows(s, s', limit) && s.regs.x[0] == 0
    ensures Parse(s'.word) == Some(s'.inst) && FirstSource(s'.inst) < 32 && SecondSource(s'.inst) < 32
    ensures (StepOf(s, s').pc == None ==> s.regs.pc + 4 < WORD)
    ensures var w := WitnessOf(s.regs, StepOf(s, s'));
            && w.regs == s.regs && w.inst == s'.word && w.PC == s'.regs.pc && w.Z == s'.z
            && w.X == GetReg(s.regs.x, FirstSource(s'.inst)) && w.Y == GetReg(s.regs.x, SecondSource(s'.inst))
            && w.fields.imm == Immediate(s'.inst) && (!IgnoresRd(s'.inst) ==> w.fields.rd == WrittenBy(s'.inst))
            && (s'.inst.ALUI? || s'.inst.ALU? ==> w.fields.shamt == (if s'.inst.ALUI? then s'.inst.imm else w.Y) % 32)
  {
    hide Eval, Parse, ParseAlt, FirstSource, Immediate, WrittenBy;
    EvalWrites(s, s', limit);
    FieldsAreOperands(s.regs.x, s'.word, s'.inst);
  }

  /** x0 is zero throughout a run that starts so. */
  lemma {:induction false} ZeroThroughout(run: seq<State>, limit: Option<nat>, i: nat)
    requires Run(run, limit) && run[0].regs.x[0] == 0 && i < |run|
    ensures run[i].regs.x[0] == 0
  {
    hide Eval;
    if i > 0 {
      ZeroThroughout(run, limit, i - 1);
      ZeroStaysZero(run[i - 1], limit);
      assert Follows(run[i - 1], run[i], limit);
    }
  }

  // ---- EBREAK does diverge ----

  const EBREAK_WORD: u32 := 0x00100073

  /** A machine at a plain EBREAK with a value in x10. */
  const AT_EBREAK: State :=
    State(Regs(0x1000, seq(32, i => if i == 10 then 5 else 0)),
          map[0x1000 := 0x73, 0x1001 := 0, 0x1002 := 0x10, 0x1003 := 0], UNIMP, 0, 0, 0)

  lemma EbreakDecodes()
    ensures Decode(EBREAK_WORD) == Some((0x00100573, EBREAK(10)))
    ensures Rd(0x00100573) == 10
  {
  }

  /** The recorder's plain EBREAK carries rd = 10, so replay clears x10 while the machine keeps it. */
  lemma EbreakIsNotReplayed()
    ensures Eval(AT_EBREAK, None).Some?
    ensures var s' := Eval(AT_EBREAK, None).value;
            && Follows(AT_EBREAK, s', None)
            && s'.regs.x[10] == 5
            && ReplayStep(AT_EBREAK.regs, StepOf(AT_EBREAK, s')).x[10] == 0
  {
    hide Decode, Parse, ParseAlt, Rd;
    EbreakDecodes();
    assert LoadWord(AT_EBREAK.mem, 0x1000) == EBREAK_WORD;
    var s' := Eval(AT_EBREAK, None).value;
    EvalWrites(AT_EBREAK, s', None);
    FieldsAreOperands(AT_EBREAK.regs.x, s'.word, s'.inst);
  }

  // ---- Whole traces ----

  /** Each block records the run that starts where the one before it ended. */
  ghost predicate TraceOf(t: Trace, runs: seq<seq<State>>, first: State, limit: Option<nat>) {
    && |runs| == |t.blocks|
    && (forall b :: 0 <= b < |runs| ==> Run(runs[b], limit) && Records(t.blocks[b], runs[b]) && |t.blocks[b].steps| == t.k)
    && (runs != [] ==> runs[0][0] == first)
    && forall b :: 0 < b < |runs| ==> runs[b][0] == Last(runs[b - 1])
  }

  ghost function Last<T>(s: seq<T>): T
    requires s != []
  {
    s[|s| - 1]
  }

  /** A number of blocks that fills a tree: the next power of two is one more. */
  predicate FillsTree(count: nat) {
    NextPow2(count) == count + 1
  }

  /** The loop stops in this state after this many blocks. */
  predicate Stops(s: State, count: nat, pow: bool) {
    s.inst == UNIMP && (pow ==> FillsTree(count))
  }

  lemma {:induction false} RunLength(run: seq<State>, limit: Option<nat>, i: nat)
    requires Run(run, limit) && i < |run|
    ensures run[i].len == run[0].len + i
    ensures i > 0 && limit.Some? ==> run[i].len <= limit.value
  {
    if i > 0 {
      RunLength(run, limit, i - 1);
      assert Follows(run[i - 1], run[i], limit);
      EvalCounts(run[i - 1], run[i], limit);
    }
  }

  lemma EvalCounts(s: State, s': State, limit: Option<nat>)
    requires Eval(s, limit) == Some(s')
    ensures s'.len == s.len + 1 && (limit.Some? ==> s.len < limit.value)
  {
    hide Decode, LoadWord, EffectOf;
    DecodedWords(LoadWord(s.mem, s.regs.pc));
  }

  /** No step can be recorded here: an error, or a pc whose successor overflows. */
  ghost predicate Stuck(s: State, limit: Option<nat>) {
    Eval(s, limit) == None || s.regs.pc + 4 >= WORD
  }

  /** Runs of k steps, one after the other. */
  ghost predicate Chained(runs: seq<seq<State>>, k: nat, first: State, limit: Option<nat>) {
    && (forall b :: 0 <= b < |runs| ==> Run(runs[b], limit) && |runs[b]| == k + 1)
    && (runs != [] ==> runs[0][0] == first)
    && forall b :: 0 < b < |runs| ==> runs[b][0] == Last(runs[b - 1])
  }

  ghost predicate NoStopBefore(runs: seq<seq<State>>, n: nat, pow: bool) {
    forall b :: 0 <= b < n && b < |runs| ==> runs[b] != [] && !Stops(Last(runs[b]), b + 1, pow)
  }

  /** What `trace` looks for: a chain of recorded blocks, cut after the first block at which the loop may stop. */
  ghost predicate Complete(t: Trace, runs: seq<seq<State>>, k: nat, first: State, limit: Option<nat>, pow: bool) {
    && t.k == k && t.start == 0 && TraceOf(t, runs, first, limit)
    && runs != [] && Last(runs) != [] && Stops(Last(Last(runs)), |runs|, pow) && NoStopBefore(runs, |runs| - 1, pow)
  }

  /** The machine gets stuck in the block that follows runs, before any block at which the loop may stop. */
  ghost predicate GetsStuck(runs: seq<seq<State>>, rest: seq<State>, k: nat, first: State, limit: Option<nat>, pow: bool) {
    && Chained(runs, k, first, limit) && NoStopBefore(runs, |runs|, pow)
    && Run(rest, limit) && |rest| <= k && Stuck(Last(rest), limit)
    && (runs == [] ==> rest[0] == first) && (runs != [] ==> rest[0] == Last(Last(runs)))
  }

  /** The machine is deterministic. */
  lemma {:induction false} SameRun(a: seq<State>, b: seq<State>, limit: Option<nat>, i: nat)
    requires Run(a, limit) && Run(b, limit) && a[0] == b[0] && i < |a| && i < |b|
    ensures a[i] == b[i]
  {
    hide Eval;
    if i > 0 {
      SameRun(a, b, limit, i - 1);
      assert Follows(a[i - 1], a[i], limit) && Follows(b[i - 1], b[i], limit);
    }
  }

  lemma TraceIsChained(t: Trace, runs: seq<seq<State>>, first: State, limit: Option<nat>)
    requires TraceOf(t, runs, first, limit)
    ensures Chained(runs, t.k, first, limit)
  {
    hide Run;
    forall b | 0 <= b < |runs|
      ensures |runs[b]| == t.k + 1
    {
      assert Records(t.blocks[b], runs[b]);
    }
  }

  lemma {:induction false} SameChain(a: seq<seq<State>>, b: seq<seq<State>>, k: nat, first: State, limit: Option<nat>, i: nat)
    requires Chained(a, k, first, limit) && Chained(b, k, first, limit) && i < |a| && i < |b|
    ensures a[i] == b[i]
  {
    hide Run;
    if i > 0 {
      SameChain(a, b, k, first, limit, i - 1);
    }
    forall j | 0 <= j < k + 1
      ensures a[i][j] == b[i][j]
    {
      SameRun(a[i], b[i], limit, j);
    }
  }

  lemma NotStuckBeforeTheEnd(run: seq<State>, limit: Option<nat>, i: nat)
    requires Run(run, limit) && i + 1 < |run|
    ensures !Stuck(run[i], limit)
  {
    hide Eval;
    assert Follows(run[i], run[i + 1], limit);
  }

  /** No chain of blocks is longer than the one after which the machine gets stuck. */
  lemma StuckBounds(ws: seq<seq<State>>, rest: seq<State>, runs: seq<seq<State>>, k: nat, first: State, limit: Option<nat>, pow: bool)
    requires GetsStuck(ws, rest, k, first, limit, pow) && Chained(runs, k, first, limit)
    ensures |runs| <= |ws|
  {
    hide Eval, Stops;
    var n := |ws|;
    if |runs| > n {
      if n > 0 {
        SameChain(ws, runs, k, first, limit, n - 1);
      }
      assert runs[n][0] == rest[0];
      SameRun(rest, runs[n], limit, |rest| - 1);
      NotStuckBeforeTheEnd(runs[n], limit, |rest| - 1);
    }
  }

  /** No chain passes the first block at which the loop may stop. */
  lemma CompleteBounds(t: Trace, rs: seq<seq<State>>, runs: seq<seq<State>>, k: nat, first: State, limit: Option<nat>, pow: bool)
    requires Complete(t, rs, k, first, limit, pow) && Chained(runs, k, first, limit) && NoStopBefore(runs, |runs|, pow)
    ensures |runs| < |rs|
  {
    hide Eval, Records, Stops;
    TraceIsChained(t, rs, first, limit);
    if |runs| >= |rs| {
      SameChain(runs, rs, k, first, limit, |rs| - 1);
    }
  }

  /** A machine that gets stuck has no complete trace. */
  lemma StuckIsIncomplete(runs: seq<seq<State>>, rest: seq<State>, t: Trace, rs: seq<seq<State>>, k: nat, first: State,
                          limit: Option<nat>, pow: bool)
    requires GetsStuck(runs, rest, k, first, limit, pow)
    ensures !Complete(t, rs, k, first, limit, pow)
  {
    hide Eval, Records, Stops, Run;
    if Complete(t, rs, k, first, limit, pow) {
      TraceIsChained(t, rs, first, limit);
      StuckBounds(runs, rest, rs, k, first, limit, pow);
      CompleteBounds(t, rs, runs, k, first, limit, pow);
    }
  }

  /** The machine cannot run through more than this many blocks without coming to one at which the loop may stop. */
  ghost predicate EndsWithin(bound: nat, k: nat, first: State, limit: Option<nat>, pow: bool) {
    forall runs :: Chained(runs, k, first, limit) && NoStopBefore(runs, |runs|, pow) ==> |runs| <= bound
  }

  /** Tracing the machine ends. */
  ghost predicate Ends(k: nat, first: State, limit: Option<nat>, pow: bool) {
    exists bound: nat :: EndsWithin(bound, k, first, limit, pow)
  }

  lemma {:induction false} ChainLength(runs: seq<seq<State>>, k: nat, first: State, limit: Option<nat>, b: nat)
    requires k >= 1 && limit.Some? && Chained(runs, k, first, limit) && b < |runs|
    ensures b < Last(runs[b]).len <= limit.value
  {
    if b > 0 {
      ChainLength(runs, k, first, limit, b - 1);
    }
    hide Run;
    RunLength(runs[b], limit, k);
  }

  /** A trace length limit makes every machine end. */
  lemma LimitedMachinesEnd(k: nat, first: State, limit: Option<nat>, pow: bool)
    requires k >= 1 && limit.Some?
    ensures Ends(k, first, limit, pow)
  {
    hide Run;
    forall runs | Chained(runs, k, first, limit) && NoStopBefore(runs, |runs|, pow)
      ensures |runs| <= limit.value
    {
      if runs != [] {
        ChainLength(runs, k, first, limit, |runs| - 1);
      }
    }
    assert EndsWithin(limit.value, k, first, limit, pow);
  }

  /** With or without a limit, a machine that has a complete trace ends, and so does one that gets stuck. */
  lemma TracedMachinesEnd(t: Trace, rs: seq<seq<State>>, rest: seq<State>, k: nat, first: State, limit: Option<nat>, pow: bool)
    requires Complete(t, rs, k, first, limit, pow) || GetsStuck(rs, rest, k, first, limit, pow)
    ensures Ends(k, first, limit, pow)
  {
    hide Chained, NoStopBefore, Complete, GetsStuck;
    forall runs | Chained(runs, k, first, limit) && NoStopBefore(runs, |runs|, pow)
      ensures |runs| <= |rs|
    {
      if Complete(t, rs, k, first, limit, pow) {
        CompleteBounds(t, rs, runs, k, first, limit, pow);
      } else {
        StuckBounds(rs, rest, runs, k, first, limit, pow);
      }
    }
    assert EndsWithin(|rs|, k, first, limit, pow);
  }

  /** `trace`, for a machine on which its loop ends. It succeeds exactly when there is a complete trace, and returns
      it; otherwise the machine got stuck in some block. */
  method TraceVm(vm: NexusVM, k: nat, pow: bool) returns (r: Option<Trace>, ghost runs: seq<seq<State>>, ghost rest: seq<State>)
    requires Ends(k, vm.Current(), vm.limit, pow)
    modifies vm
    ensures r.Some? ==> Complete(r.value, runs, k, old(vm.Current()), vm.limit, pow) && Last(Last(runs)) == vm.Current()
    ensures r.None? ==> GetsStuck(runs, rest, k, old(vm.Current()), vm.limit, pow)
    ensures r.Some? <==> exists t, rs :: Complete(t, rs, k, old(vm.Current()), vm.limit, pow)
  {
    hide Run, Records, FillsTree, Eval, EndsWithin, TraceOf, Chained;
    var t := Trace(k, 0, []);
    runs, rest := [], [];
    ghost var first := vm.Current();
    NoBlocks(t, first, vm.limit);
    ghost var bound: nat :| EndsWithin(bound, k, first, vm.limit, pow);
    while true
      invariant t.k == k && t.start == 0 && TraceOf(t, runs, first, vm.limit)
      invariant NoStopBefore(runs, |runs|, pow)
      invariant vm.Current() == if runs == [] then first else Last(Last(runs))
      invariant |runs| <= bound
      decreases bound - |runs|
    {
      var block;
      block, rest := KStep(vm, k);
      RunStarts(rest, vm.limit);
      if block == None {
        TraceIsChained(t, runs, first, vm.limit);
        StuckHasNoTrace(runs, rest, k, first, vm.limit, pow);
        return None, runs, rest;
      }
      RunOfBlock(block.value, rest, vm.limit, k);
      OneMoreBlock(t, block.value, runs, rest, first, vm.limit);
      t := t.(blocks := t.blocks + [block.value]);
      runs := runs + [rest];
      if Stops(vm.Current(), |t.blocks|, pow) {
        break;
      }
      TraceIsChained(t, runs, first, vm.limit);
      WithinBound(bound, runs, k, first, vm.limit, pow);
    }
    assert Complete(t, runs, k, first, vm.limit, pow);
    r := Some(t);
  }

  lemma StuckHasNoTrace(runs: seq<seq<State>>, rest: seq<State>, k: nat, first: State, limit: Option<nat>, pow: bool)
    requires GetsStuck(runs, rest, k, first, limit, pow)
    ensures !exists t, rs :: Complete(t, rs, k, first, limit, pow)
  {
    hide GetsStuck, Complete;
    forall t, rs
      ensures !Complete(t, rs, k, first, limit, pow)
    {
      StuckIsIncomplete(runs, rest, t, rs, k, first, limit, pow);
    }
  }

  lemma NoBlocks(t: Trace, first: State, limit: Option<nat>)
    requires t.blocks == []
    ensures TraceOf(t, [], first, limit)
  {
  }

  lemma OneMoreBlock(t: Trace, block: Block, runs: seq<seq<State>>, run: seq<State>, first: State, limit: Option<nat>)
    requires TraceOf(t, runs, first, limit) && Run(run, limit) && Records(block, run) && |block.steps| == t.k && run != []
    requires runs == [] ==> run[0] == first
    requires runs != [] ==> Last(runs) != [] && run[0] == Last(Last(runs))
    ensures |runs| == |t.blocks| && TraceOf(t.(blocks := t.blocks + [block]), runs + [run], first, limit)
  {
    hide Run, Records;
  }

  lemma WithinBound(bound: nat, runs: seq<seq<State>>, k: nat, first: State, limit: Option<nat>, pow: bool)
    requires EndsWithin(bound, k, first, limit, pow) && Chained(runs, k, first, limit) && NoStopBefore(runs, |runs|, pow)
    ensures |runs| <= bound
  {
  }

  lemma RunStarts(run: seq<State>, limit: Option<nat>)
    requires Run(run, limit)
    ensures run != []
  {
  }

  lemma RunOfBlock(block: Block, run: seq<State>, limit: Option<nat>, k: nat)
    requires Run(run, limit) && Records(block, run) && |block.steps| == k
    ensures |run| == k + 1
  {
  }

  /** Each block starts where the replay of the one before it ended, if that one does not diverge. */
  lemma BlocksChain(t: Trace, runs: seq<seq<State>>, first: State, limit: Option<nat>, b: nat)
    requires TraceOf(t, runs, first, limit) && b + 1 < |runs|
    requires forall i :: 0 <= i < t.k ==> !Diverges(runs[b][i], runs[b][i + 1])
    ensures Replayed(t.blocks[b], t.k) == t.blocks[b + 1].regs
  {
    hide Diverges, Replayed, Follows;
    PrefixReplays(t.blocks[b], runs[b], limit, t.k);
    assert runs[b + 1][0] == Last(runs[b]);
    assert Records(t.blocks[b + 1], runs[b + 1]);
  }

  // ---- Padding with UNIMP ----

  /** The next word is UNIMP, away from address zero (where its jump to itself falls through). */
  ghost predicate AtUnimp(s: State) {
    && s.regs.pc != 0 && s.regs.pc % 4 == 0
    && Decode(LoadWord(s.mem, s.regs.pc)).Some? && Decode(LoadWord(s.mem, s.regs.pc)).value.1 == UNIMP
  }

  ghost predicate SameMachine(s: State, s': State) {
    s'.regs == s.regs && s'.mem == s.mem
  }

  /** Evaluating UNIMP away from address zero changes neither registers nor memory. */
  lemma UnimpStays(s: State, s': State, limit: Option<nat>)
    requires Eval(s, limit) == Some(s') && s.regs.pc != 0 && (s'.inst == UNIMP || AtUnimp(s))
    ensures AtUnimp(s') && s'.inst == UNIMP && SameMachine(s, s')
  {
    hide Decode, LoadWord;
    DecodedWords(LoadWord(s.mem, s.regs.pc));
  }

  lemma {:induction false} RunStays(run: seq<State>, limit: Option<nat>, i: nat)
    requires Run(run, limit) && AtUnimp(run[0]) && i < |run|
    ensures AtUnimp(run[i]) && SameMachine(run[0], run[i]) && (i > 0 ==> run[i].inst == UNIMP)
  {
    hide Eval, AtUnimp;
    if i > 0 {
      RunStays(run, limit, i - 1);
      assert Follows(run[i - 1], run[i], limit);
      NonzeroPc(run[i - 1]);
      UnimpStays(run[i - 1], run[i], limit);
    }
  }

  lemma NonzeroPc(s: State)
    requires AtUnimp(s)
    ensures s.regs.pc != 0
  {
  }

  /** Block h ends with an UNIMP that was evaluated away from address zero. */
  ghost predicate HaltsIn(runs: seq<seq<State>>, h: nat) {
    h < |runs| && |runs[h]| >= 2 && Last(runs[h]).inst == UNIMP && runs[h][|runs[h]| - 2].regs.pc != 0
  }

  /** After that, blocks only repeat UNIMP: registers and memory stay as they are. */
  lemma {:induction false} PaddingStays(t: Trace, runs: seq<seq<State>>, first: State, limit: Option<nat>, h: nat, b: nat)
    requires TraceOf(t, runs, first, limit) && t.k >= 1 && HaltsIn(runs, h) && h <= b < |runs|
    ensures runs[b] != [] && runs[h] != []
    ensures Last(runs[b]).inst == UNIMP && AtUnimp(Last(runs[b])) && SameMachine(Last(runs[h]), Last(runs[b]))
    decreases b
  {
    hide Eval, AtUnimp;
    if b == h {
      var run := runs[h];
      assert Follows(run[|run| - 2], run[|run| - 1], limit);
      UnimpStays(run[|run| - 2], run[|run| - 1], limit);
    } else {
      PaddingStays(t, runs, first, limit, h, b - 1);
      assert runs[b][0] == Last(runs[b - 1]) && Records(t.blocks[b], runs[b]);
      RunStays(runs[b], limit, |runs[b]| - 1);
    }
  }

  ghost predicate IsTreeSize(n: nat) {
    exists m: nat :: m >= 2 && n == Pow2(m) - 1
  }

  /** The sizes that fill a tree are the numbers 2^m - 1 from 3 on. */
  lemma TreeSizes(count: nat)
    requires count >= 1
    ensures FillsTree(count) <==> IsTreeSize(count)
  {
    NextPow2IsLeast(count);
    assert Pow2(0) == 1 && Pow2(1) == 2 && Pow2(2) == 4;
    if FillsTree(count) {
      var m := Log2(count);
      assert count == Pow2(m) - 1;
      assert m >= 2;
    }
    if m: nat :| m >= 2 && count == Pow2(m) - 1 {
      Pow2Monotone(0, m - 1);
      Log2Unique(count, m);
    }
  }

  /** Padding to a tree. When the program halts away from address zero in block h, the trace has the least
      number of blocks 2^m - 1 >= 3 that covers it, and ends with the registers and memory of the halt. */
  lemma PaddedToTree(t: Trace, runs: seq<seq<State>>, first: State, limit: Option<nat>, h: nat)
    requires TraceOf(t, runs, first, limit) && t.k >= 1 && HaltsIn(runs, h)
    requires forall b :: 0 <= b < |runs| ==> runs[b] != []
    requires Stops(Last(Last(runs)), |runs|, true)
    requires forall b :: 0 <= b < |runs| - 1 ==> !Stops(Last(runs[b]), b + 1, true)
    ensures exists m: nat :: m >= 2 && |runs| == Pow2(m) - 1
    ensures forall m: nat :: m >= 2 && h < Pow2(m) - 1 ==> |runs| <= Pow2(m) - 1
    ensures SameMachine(Last(runs[h]), Last(Last(runs)))
  {
    hide TraceOf, HaltsIn, FillsTree;
    HaltIndex(runs, h);
    TreeSizes(|runs|);
    PaddingStays(t, runs, first, limit, h, |runs| - 1);
    forall m: nat | m >= 2 && h < Pow2(m) - 1
      ensures |runs| <= Pow2(m) - 1
    {
      var b := Pow2(m) - 2;
      if b < |runs| - 1 {
        Pow2Monotone(0, m);
        TreeSizes(b + 1);
        PaddingStays(t, runs, first, limit, h, b);
      }
    }
  }

  lemma HaltIndex(runs: seq<seq<State>>, h: nat)
    requires HaltsIn(runs, h)
    ensures h < |runs|
  {
  }

  /** A complete trace ends with the first block that ends in UNIMP, or when padding, with the first such block whose number
      in the trace is 2^m - 1 for some m >= 2. */
  lemma TraceEnds(t: Trace, runs: seq<seq<State>>, k: nat, first: State, limit: Option<nat>, pow: bool)
    requires Complete(t, runs, k, first, limit, pow)
    ensures t.k == k && t.start == 0 && runs != []
    ensures forall b :: 0 <= b < |runs| ==> |runs[b]| == k + 1
    ensures forall b :: 0 <= b < |runs| ==>
              (b == |runs| - 1 <==> Last(runs[b]).inst == UNIMP && (pow ==> IsTreeSize(b + 1)))
  {
    hide Run, Records, FillsTree;
    TraceIsChained(t, runs, first, limit);
    forall b | 0 <= b < |runs|
      ensures b == |runs| - 1 <==> Last(runs[b]).inst == UNIMP && (pow ==> IsTreeSize(b + 1))
    {
      TreeSizes(b + 1);
    }
  }

  // ---- Subtraces ----

  /** `Trace::block`. */
  function BlockAt(t: Trace, n: nat): Option<Block> {
    if t.start > n || t.start + |t.blocks| <= n then None else Some(t.blocks[n - t.start])
  }

  /** The chunks of n blocks, numbered from index. */
  function Chunks(k: nat, blocks: seq<Block>, index: nat, n: nat): seq<Trace>
    requires n >= 1
    decreases |blocks|
  {
    if blocks == [] then []
    else if |blocks| <= n then [Trace(k, index, blocks)]
    else [Trace(k, index, blocks[..n])] + Chunks(k, blocks[n..], index + n, n)
  }

  /** Subtrace i holds the blocks from i * n up to the next multiple of n, and bears the number of the first of them. So
      every subtrace but the last has n blocks, and the last has at least one and at most n. */
  lemma {:induction false} ChunkHolds(k: nat, blocks: seq<Block>, index: nat, n: nat, i: nat, from: nat)
    requires n >= 1 && blocks != [] && i < |Chunks(k, blocks, index, n)| && from == i * n
    ensures var ts := Chunks(k, blocks, index, n);
            && ts[i].k == k && ts[i].start == index + from
            && |ts[i].blocks| == (if i < |ts| - 1 then n else |blocks| - from) && 1 <= |ts[i].blocks| <= n
            && from + |ts[i].blocks| <= |blocks| && ts[i].blocks == blocks[from..from + |ts[i].blocks|]
    decreases i
  {
    FirstChunk(k, blocks, index, n);
    hide Chunks;
    if i > 0 {
      var rest := Chunks(k, blocks[n..], index + n, n);
      PreviousMultiple(i, n, from);
      ChunkHolds(k, blocks[n..], index + n, n, i - 1, from - n);
      PieceOfRest(blocks, n, from - n, |rest[i - 1].blocks|);
    }
  }

  lemma FirstChunk(k: nat, blocks: seq<Block>, index: nat, n: nat)
    requires n >= 1 && blocks != []
    ensures var ts := Chunks(k, blocks, index, n);
            && ts != [] && ts[0].k == k && ts[0].start == index && ts[0].blocks <= blocks
            && (|blocks| <= n ==> |ts| == 1 && ts[0].blocks == blocks)
            && (|blocks| > n ==> |ts| >= 2 && |ts[0].blocks| == n && ts[1..] == Chunks(k, blocks[n..], index + n, n))
  {
  }

  lemma PreviousMultiple(i: nat, n: nat, from: nat)
    requires i > 0 && from == i * n
    ensures from >= n && from - n == (i - 1) * n
  {
    assert i * n == (i - 1) * n + n;
  }

  lemma PieceOfRest(blocks: seq<Block>, n: nat, from: nat, size: nat)
    requires n + from + size <= |blocks|
    ensures blocks[n..][from..from + size] == blocks[n + from..n + from + size]
  {
  }

  /** `split_by`; a chunk size of zero is a panic. */
  method SplitBy(t: Trace, n: nat) returns (ts: seq<Trace>)
    requires n >= 1
    ensures ts == Chunks(t.k, t.blocks, 0, n)
  {
    ts := [];
    var index, rest := 0, t.blocks;
    while rest != []
      invariant ts + Chunks(t.k, rest, index, n) == Chunks(t.k, t.blocks, 0, n)
      decreases |rest|
    {
      var m := if |rest| <= n then |rest| else n;
      assert rest[..|rest|] == rest && rest[|rest|..] == [];
      ts := ts + [Trace(t.k, index, rest[..m])];
      index, rest := index + n, rest[m..];
    }
  }

  /** Asking each subtrace in turn for block i. */
  function Lookup(ts: seq<Trace>, i: nat): Option<Block> {
    if ts == [] then None
    else if BlockAt(ts[0], i).Some? then BlockAt(ts[0], i)
    else Lookup(ts[1..], i)
  }

  lemma {:induction false} LookupInChunks(k: nat, blocks: seq<Block>, index: nat, n: nat, i: nat)
    requires n >= 1
    ensures Lookup(Chunks(k, blocks, index, n), i)
         == if index <= i < index + |blocks| then Some(blocks[i - index]) else None
    decreases |blocks|
  {
    if blocks != [] {
      var ts := Chunks(k, blocks, index, n);
      if |blocks| <= n {
        assert ts[1..] == [];
      } else {
        LookupInChunks(k, blocks[n..], index + n, n, i);
        assert ts[1..] == Chunks(k, blocks[n..], index + n, n);
      }
    }
  }

  /** Splitting keeps every block where it was if and only if the trace starts at block zero (or is
      empty): the chunks are numbered from zero. */
  lemma SplitKeepsBlocks(t: Trace, n: nat)
    requires n >= 1
    ensures (forall i: nat :: Lookup(Chunks(t.k, t.blocks, 0, n), i) == BlockAt(t, i))
       <==> t.start == 0 || t.blocks == []
  {
    forall i: nat
      ensures Lookup(Chunks(t.k, t.blocks, 0, n), i) == if i < |t.blocks| then Some(t.blocks[i]) else None
    {
      LookupInChunks(t.k, t.blocks, 0, n, i);
    }
    if t.start != 0 && t.blocks != [] {
      assert BlockAt(t, 0) == None && Lookup(Chunks(t.k, t.blocks, 0, n), 0) == Some(t.blocks[0]);
    }
  }
}
