/** The virtual machine (vm/src/eval.rs): registers, a byte memory, and the evaluation of one
    instruction. */
module Vm {
  import opened Wrappers
  import opened Rv32

  type byte = x: nat | x < 256

  // ---- Memory ----

  type Memory = map<u32, byte>

  function LoadByte(mem: Memory, a: u32): byte {
    if a in mem then mem[a] else 0
  }

  lemma HalfRoom(a: u32)
    requires a % 2 == 0
    ensures a + 1 < WORD
  {
    var q := a / 2;
    assert a == 2 * q;
  }

  lemma WordRoom(a: u32)
    requires a % 4 == 0
    ensures a + 3 < WORD
  {
    var q := a / 4;
    assert a == 4 * q;
  }

  function LoadHalf(mem: Memory, a: u32): (h: nat)
    requires a % 2 == 0
    ensures h < 0x1_0000
  {
    HalfRoom(a);
    LoadByte(mem, a) + 0x100 * LoadByte(mem, a + 1)
  }

  function LoadWord(mem: Memory, a: u32): (w: u32)
    requires a % 4 == 0
  {
    WordRoom(a);
    LoadByte(mem, a) + 0x100 * LoadByte(mem, a + 1) + 0x1_0000 * LoadByte(mem, a + 2) + 0x100_0000 * LoadByte(mem, a + 3)
  }

  /** A misaligned access is an error; bytes and halves are sign-extended unless the load is unsigned. */
  function Load(mem: Memory, lop: LOP, a: u32): Option<u32> {
    match lop
    case LB => var b := LoadByte(mem, a); Some(if b < 0x80 then b else b + 0xffff_ff00)
    case LBU => Some(LoadByte(mem, a))
    case LH => if a % 2 != 0 then None else var h := LoadHalf(mem, a); Some(if h < 0x8000 then h else h + 0xffff_0000)
    case LHU => if a % 2 != 0 then None else Some(LoadHalf(mem, a))
    case LW => if a % 4 != 0 then None else Some(LoadWord(mem, a))
  }

  function Store(mem: Memory, sop: SOP, a: u32, v: u32): Option<Memory> {
    match sop
    case SB => Some(mem[a := Byte(v, 1)])
    case SH =>
      if a % 2 != 0 then None
      else HalfRoom(a); Some(mem[a := Byte(v, 1)][a + 1 := Byte(v, 0x100)])
    case SW =>
      if a % 4 != 0 then None
      else WordRoom(a); Some(mem[a := Byte(v, 1)][a + 1 := Byte(v, 0x100)][a + 2 := Byte(v, 0x1_0000)][a + 3 := Byte(v, 0x100_0000)])
  }

  /** The byte of v at the given weight. */
  function Byte(v: u32, weight: nat): byte
    requires weight >= 1
  {
    v / weight % 0x100
  }

  function Width(sop: SOP): LOP {
    match sop
    case SB => LB
    case SH => LH
    case SW => LW
  }

  // ---- State ----

  type Registers = x: seq<u32> | |x| == 32 witness seq(32, _ => 0)

  datatype Regs = Regs(pc: u32, x: Registers)

  function GetReg(x: Registers, r: u32): u32
    requires r < 32
  {
    if r == 0 then 0 else x[r]
  }

  function SetReg(x: Registers, r: u32, v: u32): Registers
    requires r < 32
  {
    if r == 0 then x else x[r := v]
  }

  datatype State = State(regs: Regs, mem: Memory, inst: Inst, word: u32, z: u32, len: nat)

  type Syscalls = f: (nat, u32, Registers, Memory) -> Option<u32> | true witness (_, _, _, _) => None

  /** What system calls answer, as any function of the time, the pc, the registers and the memory. */
  const SYSCALL: Syscalls

  /** Register operands name registers. */
  ghost predicate Decoded(inst: Inst) {
    match inst
    case LUI(rd, _) => rd < 32
    case AUIPC(rd, _) => rd < 32
    case JAL(rd, _) => rd < 32
    case JALR(rd, rs1, _) => rd < 32 && rs1 < 32
    case BR(_, rs1, rs2, _) => rs1 < 32 && rs2 < 32
    case LOAD(_, rd, rs1, _) => rd < 32 && rs1 < 32
    case STORE(_, rs1, rs2, _) => rs1 < 32 && rs2 < 32
    case ALUI(_, rd, rs1, _) => rd < 32 && rs1 < 32
    case ALU(_, rd, rs1, rs2) => rd < 32 && rs1 < 32 && rs2 < 32
    case ECALL(rd) => rd < 32
    case EBREAK(rd) => rd < 32
    case FENCE => true
    case UNIMP => true
  }

  /** What an instruction does: the register it writes (0 for none), the value, the next pc (0 to fall
      through), and the memory. */
  datatype Effect = Effect(rd: u32, z: u32, pc: u32, mem: Memory)

  function EffectOf(inst: Inst, regs: Regs, mem: Memory, len: nat): (e: Option<Effect>)
    requires Decoded(inst)
    ensures e.Some? ==> e.value.rd < 32
  {
    var pc, x := regs.pc, regs.x;
    match inst
    case LUI(rd, imm) => Some(Effect(rd, imm, 0, mem))
    case AUIPC(rd, imm) => Some(Effect(rd, Add32(pc, imm), 0, mem))
    case JAL(rd, imm) => Some(Effect(rd, Add32(pc, 4), Add32(pc, imm), mem))
    case JALR(rd, rs1, imm) => Some(Effect(rd, Add32(pc, 4), Add32(GetReg(x, rs1), imm), mem))
    case BR(bop, rs1, rs2, imm) =>
      Some(Effect(0, 0, if BrOp(bop, GetReg(x, rs1), GetReg(x, rs2)) then Add32(pc, imm) else 0, mem))
    case LOAD(lop, rd, rs1, imm) =>
      (match Load(mem, lop, Add32(GetReg(x, rs1), imm))
       case None => None
       case Some(v) => Some(Effect(rd, v, 0, mem)))
    case STORE(sop, rs1, rs2, imm) =>
      var addr := Add32(GetReg(x, rs1), imm);
      if Load(mem, Width(sop), addr) == None then None
      else
        (match Store(mem, sop, addr, GetReg(x, rs2))
         case None => None
         case Some(mem') => Some(Effect(0, 0, 0, mem')))
    case ALUI(aop, rd, rs1, imm) => Some(Effect(rd, AluOp(aop, GetReg(x, rs1), imm), 0, mem))
    case ALU(aop, rd, rs1, rs2) => Some(Effect(rd, AluOp(aop, GetReg(x, rs1), GetReg(x, rs2)), 0, mem))
    case FENCE => Some(Effect(0, 0, 0, mem))
    case EBREAK(_) => Some(Effect(0, 0, 0, mem))
    case ECALL(rd) =>
      (match SYSCALL(len, pc, x, mem)
       case None => None
       case Some(v) => Some(Effect(rd, v, 0, mem)))
    case UNIMP => Some(Effect(0, 0, pc, mem))
  }

  lemma DecodedWords(w: u32)
    ensures Decode(w).Some? ==> Decoded(Decode(w).value.1)
  {
    hide Opcode, Funct3, Funct7, ImmI, ImmS, ImmB, ImmU, ImmJ, ImmA, Bop, Lop, Sop, Aop, Aopi;
  }

  /** One instruction; None is an error: the length limit, a misaligned access, an unknown word, a failed
      system call. */
  function Eval(s: State, limit: Option<nat>): Option<State> {
    if limit.Some? && limit.value <= s.len then None
    else if s.regs.pc % 4 != 0 then None
    else
      match Decode(LoadWord(s.mem, s.regs.pc))
      case None => None
      case Some((word, inst)) =>
        DecodedWords(LoadWord(s.mem, s.regs.pc));
        match EffectOf(inst, s.regs, s.mem, s.len)
        case None => None
        case Some(e) =>
          var pc := if e.pc == 0 then Add32(s.regs.pc, 4) else e.pc;
          Some(State(Regs(pc, SetReg(s.regs.x, e.rd, e.z)), e.mem, inst, word, e.z, s.len + 1))
  }

  class NexusVM {
    var regs: Regs
    var mem: Memory
    var inst: Inst
    var word: u32
    var z: u32
    var len: nat
    const limit: Option<nat>

    function Current(): State
      reads this
    {
      State(regs, mem, inst, word, z, len)
    }

    constructor (pc: u32, mem: Memory, limit: Option<nat>)
      ensures Current() == State(Regs(pc, seq(32, _ => 0)), mem, UNIMP, 0, 0, 0) && this.limit == limit
    {
      regs, this.mem, inst, word, z, len := Regs(pc, seq(32, _ => 0)), mem, UNIMP, 0, 0, 0;
      this.limit := limit;
    }

    /** The instruction's own effect: the internal result register, the memory, and what to write back. */
    method Execute() returns (ok: bool, rd: u32, pc: u32)
      requires Decoded(inst)
      modifies this`z, this`mem
      ensures match EffectOf(inst, regs, old(mem), len)
              case None => !ok
              case Some(e) => ok && e == Effect(rd, z, pc, mem)
    {
      hide AluOp, BrOp, Load, Store;
      ok, rd, pc, z := true, 0, 0, 0;
      match inst {
        case LUI(r, imm) =>
          rd, z := r, imm;
        case AUIPC(r, imm) =>
          rd, z := r, Add32(regs.pc, imm);
        case JAL(r, imm) =>
          rd, z, pc := r, Add32(regs.pc, 4), Add32(regs.pc, imm);
        case JALR(r, rs1, imm) =>
          rd, z, pc := r, Add32(regs.pc, 4), Add32(GetReg(regs.x, rs1), imm);
        case BR(bop, rs1, rs2, imm) =>
          if BrOp(bop, GetReg(regs.x, rs1), GetReg(regs.x, rs2)) {
            pc := Add32(regs.pc, imm);
          }
        case LOAD(lop, r, rs1, imm) =>
          var v := Load(mem, lop, Add32(GetReg(regs.x, rs1), imm));
          if v == None {
            return false, 0, 0;
          }
          rd, z := r, v.value;
        case STORE(sop, rs1, rs2, imm) =>
          var addr := Add32(GetReg(regs.x, rs1), imm);
          var stored := Store(mem, sop, addr, GetReg(regs.x, rs2));
          if Load(mem, Width(sop), addr) == None || stored == None {
            return false, 0, 0;
          }
          mem := stored.value;
        case ALUI(aop, r, rs1, imm) =>
          rd, z := r, AluOp(aop, GetReg(regs.x, rs1), imm);
        case ALU(aop, r, rs1, rs2) =>
          rd, z := r, AluOp(aop, GetReg(regs.x, rs1), GetReg(regs.x, rs2));
        case FENCE =>
        case EBREAK(_) =>
        case ECALL(r) =>
          var v := SYSCALL(len, regs.pc, regs.x, mem);
          if v == None {
            return false, 0, 0;
          }
          rd, z := r, v.value;
        case UNIMP =>
          pc := regs.pc;
      }
    }

    /** `eval_inst`. */
    method EvalInst() returns (ok: bool)
      modifies this
      ensures match Eval(old(Current()), limit)
              case None => !ok
              case Some(s) => ok && Current() == s
    {
      hide Decode, LoadWord, EffectOf;
      if limit.Some? && limit.value <= len {
        return false;
      }
      if regs.pc % 4 != 0 {
        return false;
      }
      var parsed := Decode(LoadWord(mem, regs.pc));
      if parsed == None {
        return false;
      }
      DecodedWords(LoadWord(mem, regs.pc));
      word, inst := parsed.value.0, parsed.value.1;
      var rd, pc;
      ok, rd, pc := Execute();
      if !ok {
        return;
      }
      if pc == 0 {
        pc := Add32(regs.pc, 4);
      }
      EffectInRange(inst, regs, old(mem), len);
      regs := Regs(pc, SetReg(regs.x, rd, z));
      len := len + 1;
    }
  }

  lemma EffectInRange(inst: Inst, regs: Regs, mem: Memory, len: nat)
    requires Decoded(inst)
    ensures EffectOf(inst, regs, mem, len).Some? ==> EffectOf(inst, regs, mem, len).value.rd < 32
  {
  }

  /** Register x0 reads as zero and is never written. */
  lemma ZeroStaysZero(s: State, limit: Option<nat>)
    requires s.regs.x[0] == 0 && Eval(s, limit).Some?
    ensures Eval(s, limit).value.regs.x[0] == 0
  {
    hide Decode, AluOp, BrOp, Load, Store, LoadWord, EffectOf;
    DecodedWords(LoadWord(s.mem, s.regs.pc));
  }
}
