/** What the instructions of the machine mean (vm/src/eval.rs, vm/src/memory.rs), as laws that relate the operations to
    each other and to arithmetic. */
module VmLaws {
  import opened Wrappers
  import opened Powers
  import opened Rv32
  import opened Rv32Encoding
  import opened Vm

  // ---- Arithmetic ----

  /** Addition and subtraction wrap around, and undo each other. */
  lemma AddAndSubtract(x: u32, y: u32)
    ensures AluOp(ADD, x, y) == x + y || AluOp(ADD, x, y) == x + y - WORD
    ensures AluOp(SUB, x, y) == x - y || AluOp(SUB, x, y) == x - y + WORD
    ensures AluOp(ADD, AluOp(SUB, x, y), y) == x && AluOp(SUB, AluOp(ADD, x, y), y) == x
    ensures Add32(x, y) == AluOp(ADD, x, y)
  {
  }

  /** The signed reading of a word is the residue of least absolute value. */
  lemma SignedIsCentered(x: u32)
    ensures -0x8000_0000 <= Signed(x) < 0x8000_0000
    ensures Signed(x) == x || Signed(x) == x - WORD
  {
  }

  /** Comparisons decide the signed and the unsigned order. Moving both operands by half the range turns one into the
      other, and a subtraction wraps exactly when the first operand is smaller. */
  lemma Comparisons(x: u32, y: u32)
    ensures AluOp(SLT, x, y) == (if Signed(x) < Signed(y) then 1 else 0)
    ensures AluOp(SLTU, x, y) == (if x < y then 1 else 0)
    ensures AluOp(SLT, x, y) == AluOp(SLTU, Add32(x, 0x8000_0000), Add32(y, 0x8000_0000))
    ensures AluOp(SLTU, x, y) == 1 <==> AluOp(SUB, x, y) == x - y + WORD
  {
  }

  /** The branch conditions are three pairs of opposites, and test what the comparisons compute. */
  lemma Branches(x: u32, y: u32)
    ensures BrOp(BNE, x, y) == !BrOp(BEQ, x, y) && BrOp(BGE, x, y) == !BrOp(BLT, x, y) && BrOp(BGEU, x, y) == !BrOp(BLTU, x, y)
    ensures BrOp(BEQ, x, y) <==> AluOp(SUB, x, y) == 0
    ensures BrOp(BLT, x, y) <==> AluOp(SLT, x, y) == 1
    ensures BrOp(BLTU, x, y) <==> AluOp(SLTU, x, y) == 1
  {
  }

  lemma {:induction false} ShiftLeftIsTimes(x: nat, n: nat)
    ensures ShiftLeft(x, n) == x * Pow2(n)
  {
    if n > 0 {
      ShiftLeftIsTimes(x, n - 1);
      Doubled(x, Pow2(n - 1));
    }
  }

  lemma Doubled(x: int, p: int)
    ensures x * (2 * p) == 2 * (x * p)
  {
  }

  /** Halving a quotient. */
  lemma HalfOfQuotient(x: int, p: nat)
    requires p >= 1
    ensures x / p / 2 == x / (2 * p)
  {
    var q := x / p / 2;
    var r := x / p % 2 * p + x % p;
    assert x == (x / p) * p + x % p;
    assert x / p == 2 * q + x / p % 2;
    assert x == q * (2 * p) + r && 0 <= r < 2 * p;
    Division(x, q, 2 * p, r);
  }

  lemma {:induction false} ShiftRightIsDivided(x: int, n: nat)
    ensures ShiftRight(x, n) == x / Pow2(n)
  {
    if n > 0 {
      ShiftRightIsDivided(x, n - 1);
      HalfOfQuotient(x, Pow2(n - 1));
    }
  }

  /** Shifts multiply and divide by a power of two, the arithmetic one rounding the signed value down. Only the low five
      bits of the second operand count. */
  lemma Shifts(x: u32, y: u32)
    ensures AluOp(SLL, x, y) == x * Pow2(y % 32) % WORD
    ensures AluOp(SRL, x, y) == x / Pow2(y % 32)
    ensures Signed(AluOp(SRA, x, y)) == Signed(x) / Pow2(y % 32)
  {
    hide ShiftLeft, ShiftRight, Pow2;
    ShiftLeftIsTimes(x, y % 32);
    ShiftRightIsDivided(x, y % 32);
    ShiftRightIsDivided(Signed(x), y % 32);
  }

  /** Bit i of a number. */
  predicate Bit(x: nat, i: nat) {
    x / Pow2(i) % 2 == 1
  }

  lemma BitOfHalf(x: nat, i: nat)
    ensures Bit(x, i + 1) == Bit(x / 2, i)
  {
    var p := Pow2(i);
    var q, r := x / 2 / p, x / 2 % p;
    assert x / 2 == q * p + r;
    assert x == q * (2 * p) + (2 * r + x % 2);
    Division(x, q, 2 * p, 2 * r + x % 2);
  }

  lemma LowestBit(x: nat)
    ensures Bit(x, 0) == (x % 2 == 1)
  {
  }

  lemma HalfOfBitwise(op: (bool, bool) -> bool, x: nat, y: nat, n: nat)
    requires n > 0
    ensures Bitwise(op, x, y, n) / 2 == Bitwise(op, x / 2, y / 2, n - 1)
    ensures (Bitwise(op, x, y, n) % 2 == 1) == op(x % 2 == 1, y % 2 == 1)
  {
    var half := Bitwise(op, x / 2, y / 2, n - 1);
    Division(Bitwise(op, x, y, n), half, 2, if op(x % 2 == 1, y % 2 == 1) then 1 else 0);
  }

  lemma {:induction false} BitOfBitwise(op: (bool, bool) -> bool, x: nat, y: nat, n: nat, i: nat)
    requires i < n
    ensures Bit(Bitwise(op, x, y, n), i) == op(Bit(x, i), Bit(y, i))
    decreases n
  {
    hide *;
    HalfOfBitwise(op, x, y, n);
    if i == 0 {
      LowestBit(x);
      LowestBit(y);
      LowestBit(Bitwise(op, x, y, n));
    } else {
      BitOfBitwise(op, x / 2, y / 2, n - 1, i - 1);
      BitOfHalf(x, i - 1);
      BitOfHalf(y, i - 1);
      BitOfHalf(Bitwise(op, x, y, n), i - 1);
    }
  }

  /** The logical operations work bit by bit. */
  lemma Logic(x: u32, y: u32, i: nat)
    requires i < 32
    ensures Bit(AluOp(AND, x, y), i) == (Bit(x, i) && Bit(y, i))
    ensures Bit(AluOp(OR, x, y), i) == (Bit(x, i) || Bit(y, i))
    ensures Bit(AluOp(XOR, x, y), i) == (Bit(x, i) != Bit(y, i))
  {
    hide Bit;
    BitOfBitwise((a, b) => a && b, x, y, 32, i);
    BitOfBitwise((a, b) => a || b, x, y, 32, i);
    BitOfBitwise((a, b) => a != b, x, y, 32, i);
  }

  // ---- Registers ----

  /** Register 0 reads as 0 whatever is written; every other register reads as what was written last. */
  lemma Registers32(x: Registers, r: u32, v: u32, q: u32)
    requires r < 32 && q < 32
    ensures GetReg(SetReg(x, r, v), q) == if q == 0 then 0 else if q == r then v else GetReg(x, q)
  {
  }

  // ---- Memory ----

  /** How many bytes an access touches, and how many values they hold. */
  function Bytes(lop: LOP): nat {
    if lop == LW then 4 else if lop == LH || lop == LHU then 2 else 1
  }

  function Values(lop: LOP): int {
    if lop == LW then WORD else if lop == LH || lop == LHU then 0x1_0000 else 0x100
  }

  /** The i-th byte of a word, from the lowest. */
  function ByteAt(v: u32, i: nat): nat
    requires i < 4
  {
    if i == 0 then v % 0x100 else if i == 1 then v / 0x100 % 0x100 else if i == 2 then v / 0x1_0000 % 0x100 else v / 0x100_0000
  }

  /** A load fails exactly when it is misaligned. The low bytes of the value are those in memory, the lowest first; above
      them there is nothing, or for a signed load the sign. */
  lemma Loads(mem: Memory, lop: LOP, a: u32)
    ensures Load(mem, lop, a).None? <==> a % Bytes(lop) != 0
    ensures Load(mem, lop, a).Some? ==>
              var v := Load(mem, lop, a).value;
              && (forall i :: 0 <= i < Bytes(lop) ==> a + i < WORD && ByteAt(v, i) == LoadByte(mem, a + i))
              && if lop == LB || lop == LH then -Values(lop) <= 2 * Signed(v) < Values(lop) else v < Values(lop)
  {
    hide Signed, ByteAt;
    match lop
    case LB => SignedByte(LoadByte(mem, a));
    case LBU => SignedByte(LoadByte(mem, a));
    case LW =>
      if a % 4 == 0 {
        WordRoom(a);
        FourBytes(LoadByte(mem, a), LoadByte(mem, a + 1), LoadByte(mem, a + 2), LoadByte(mem, a + 3));
      }
    case _ =>
      if a % 2 == 0 {
        HalfRoom(a);
        SignedHalf(LoadByte(mem, a), LoadByte(mem, a + 1));
      }
  }

  lemma SignedByte(b: byte)
    ensures var v: u32 := if b < 0x80 then b else b + 0xffff_ff00;
            ByteAt(v, 0) == ByteAt(b, 0) == b && -0x100 <= 2 * Signed(v) < 0x100
  {
    Division(b + 0xffff_ff00, 0xff_ffff, 0x100, b);
  }

  lemma SignedHalf(b: byte, c: byte)
    ensures var h := b + 0x100 * c;
            var v: u32 := if h < 0x8000 then h else h + 0xffff_0000;
            && ByteAt(v, 0) == ByteAt(h, 0) == b && ByteAt(v, 1) == ByteAt(h, 1) == c
            && -0x1_0000 <= 2 * Signed(v) < 0x1_0000
  {
    Division(b + 0x100 * c, c, 0x100, b);
    Division(b + 0x100 * c + 0xffff_0000, 0xff_ff00 + c, 0x100, b);
    Division(0xff_ff00 + c, 0xffff, 0x100, c);
  }

  lemma FourBytes(a: byte, b: byte, c: byte, d: byte)
    ensures var v := a + 0x100 * b + 0x1_0000 * c + 0x100_0000 * d;
            ByteAt(v, 0) == a && ByteAt(v, 1) == b && ByteAt(v, 2) == c && ByteAt(v, 3) == d
  {
    var v := a + 0x100 * b + 0x1_0000 * c + 0x100_0000 * d;
    Digit(v, d * 0x100 + c, 0x100, b, 0x100, a);
    Digit(v, d, 0x100, c, 0x1_0000, b * 0x100 + a);
    Division(v, d, 0x100_0000, c * 0x1_0000 + b * 0x100 + a);
    Division(v, d * 0x1_0000 + c * 0x100 + b, 0x100, a);
  }

  function Unsigned(sop: SOP): LOP {
    match sop
    case SB => LBU
    case SH => LHU
    case SW => LW
  }

  /** A store fails exactly when it is misaligned. Loading from the same place then gives the value cut to its width, and
      all other bytes stay as they are. */
  lemma StoreThenLoad(mem: Memory, sop: SOP, a: u32, v: u32)
    ensures Store(mem, sop, a, v).None? <==> a % Bytes(Unsigned(sop)) != 0
    ensures Store(mem, sop, a, v).Some? ==>
              var mem' := Store(mem, sop, a, v).value;
              && Load(mem', Unsigned(sop), a) == Some(v % Values(Unsigned(sop)))
              && forall b: u32 :: b < a || b >= a + Bytes(Unsigned(sop)) ==> LoadByte(mem', b) == LoadByte(mem, b)
  {
    BytesOf(v);
    hide Byte;
    match sop
    case SB =>
    case SH =>
      if a % 2 == 0 {
        HalfRoom(a);
      }
    case SW =>
      if a % 4 == 0 {
        WordRoom(a);
      }
  }

  lemma BytesOf(v: u32)
    ensures v == Byte(v, 1) + 0x100 * Byte(v, 0x100) + 0x1_0000 * Byte(v, 0x1_0000) + 0x100_0000 * Byte(v, 0x100_0000)
    ensures v % 0x1_0000 == Byte(v, 1) + 0x100 * Byte(v, 0x100) && v % 0x100 == Byte(v, 1) && v % WORD == v
  {
    var p := v / 0x100;
    var q := p / 0x100;
    Quotients(v, p, q, q / 0x100);
  }

  lemma Quotients(v: u32, p: nat, q: nat, r: nat)
    requires p == v / 0x100 && q == p / 0x100 && r == q / 0x100
    ensures v / 0x1_0000 == q && v / 0x100_0000 == r && r < 0x100
    ensures v % 0x1_0000 == p % 0x100 * 0x100 + v % 0x100
    ensures v == r * 0x100_0000 + q % 0x100 * 0x1_0000 + p % 0x100 * 0x100 + v % 0x100
  {
    Division(v, q, 0x1_0000, p % 0x100 * 0x100 + v % 0x100);
    Division(v, r, 0x100_0000, q % 0x100 * 0x1_0000 + p % 0x100 * 0x100 + v % 0x100);
  }

  // ---- Instructions ----

  /** The pc after a jump to an address: the address, but a jump to 0 falls through. */
  function Landing(pc: u32, target: u32): u32 {
    if target == 0 then Add32(pc, 4) else target
  }

  /** The value an instruction computes, the next pc and the memory, in terms of its operands. */
  ghost predicate Means(inst: Inst, regs: Regs, mem: Memory, len: nat, z: u32, pc': u32, mem': Memory)
    requires Decoded(inst)
  {
    var pc, imm := regs.pc, Immediate(inst);
    var X, Y := GetReg(regs.x, FirstSource(inst)), GetReg(regs.x, SecondSource(inst));
    && (!inst.STORE? ==> mem' == mem)
    && (!inst.JAL? && !inst.JALR? && !inst.BR? && !inst.UNIMP? ==> pc' == Add32(pc, 4))
    && match inst
       case LUI(_, _) => z == imm
       case AUIPC(_, _) => z == Add32(pc, imm)
       case JAL(_, _) => z == Add32(pc, 4) && pc' == Landing(pc, Add32(pc, imm))
       case JALR(_, _, _) => z == Add32(pc, 4) && pc' == Landing(pc, Add32(X, imm))
       case BR(op, _, _, _) => z == 0 && pc' == if BrOp(op, X, Y) then Landing(pc, Add32(pc, imm)) else Add32(pc, 4)
       case LOAD(op, _, _, _) => Load(mem, op, Add32(X, imm)) == Some(z)
       case STORE(op, _, _, _) => z == 0 && Store(mem, op, Add32(X, imm), Y) == Some(mem')
       case ALUI(op, _, _, _) => z == AluOp(op, X, imm)
       case ALU(op, _, _, _) => z == AluOp(op, X, Y)
       case ECALL(_) => SYSCALL(len, pc, regs.x, mem) == Some(z)
       case FENCE => z == 0
       case EBREAK(_) => z == 0
       case UNIMP => z == 0 && pc' == Landing(pc, pc)
  }

  lemma SourcesDecoded(inst: Inst)
    requires Decoded(inst)
    ensures FirstSource(inst) < 32 && SecondSource(inst) < 32 && WrittenBy(inst) < 32
  {
  }

  lemma EffectMeans(inst: Inst, regs: Regs, mem: Memory, len: nat, e: Effect)
    requires Decoded(inst) && EffectOf(inst, regs, mem, len) == Some(e)
    ensures e.rd == WrittenBy(inst)
    ensures Means(inst, regs, mem, len, e.z, Landing(regs.pc, e.pc), e.mem)
  {
    hide AluOp, BrOp, Load, Store, Add32, GetReg;
  }

  /** Evaluating an instruction. It is the one that the word at pc encodes; it writes its result to its destination and
      leaves all other registers alone, and means what it should. */
  lemma Evaluated(s: State, s': State, limit: Option<nat>)
    requires Eval(s, limit) == Some(s')
    ensures (limit.Some? ==> s.len < limit.value) && s'.len == s.len + 1 && s.regs.pc % 4 == 0
    ensures Decode(LoadWord(s.mem, s.regs.pc)) == Some((s'.word, s'.inst)) && Decoded(s'.inst)
    ensures forall r: u32 :: r < 32 ==>
              s'.regs.x[r] == if r != 0 && r == WrittenBy(s'.inst) then s'.z else s.regs.x[r]
    ensures Means(s'.inst, s.regs, s.mem, s.len, s'.z, s'.regs.pc, s'.mem)
  {
    hide Decode, LoadWord, EffectOf, Means;
    var w := LoadWord(s.mem, s.regs.pc);
    DecodedWords(w);
    var e := EffectOf(s'.inst, s.regs, s.mem, s.len).value;
    EffectMeans(s'.inst, s.regs, s.mem, s.len, e);
  }

  /** The operation itself fails: a misaligned load or store, or a failing system call. */
  ghost predicate Fails(inst: Inst, regs: Regs, mem: Memory, len: nat)
    requires Decoded(inst)
  {
    var addr := Add32(GetReg(regs.x, FirstSource(inst)), Immediate(inst));
    || (inst.LOAD? && addr % Bytes(inst.lop) != 0)
    || (inst.STORE? && addr % Bytes(Unsigned(inst.sop)) != 0)
    || (inst.ECALL? && SYSCALL(len, regs.pc, regs.x, mem).None?)
  }

  lemma EffectFails(inst: Inst, regs: Regs, mem: Memory, len: nat)
    requires Decoded(inst)
    ensures EffectOf(inst, regs, mem, len).None? <==> Fails(inst, regs, mem, len)
  {
    hide AluOp, BrOp, Load, Store, Add32, GetReg;
    var addr := Add32(GetReg(regs.x, FirstSource(inst)), Immediate(inst));
    if inst.LOAD? {
      Loads(mem, inst.lop, addr);
    } else if inst.STORE? {
      Loads(mem, Width(inst.sop), addr);
      StoreThenLoad(mem, inst.sop, addr, GetReg(regs.x, inst.rs2));
    }
  }

  /** Evaluation fails on the length limit, a misaligned pc, a word that does not parse, or an operation that fails, and on
      nothing else. */
  lemma EvaluationFails(s: State, limit: Option<nat>)
    ensures (limit.Some? && limit.value <= s.len) || s.regs.pc % 4 != 0 ==> Eval(s, limit).None?
    ensures (limit.None? || s.len < limit.value) && s.regs.pc % 4 == 0 ==>
              var w := LoadWord(s.mem, s.regs.pc);
              && (Parse(w).None? ==> Eval(s, limit).None?)
              && (Parse(w).Some? ==>
                    && Decode(w).Some? && Decoded(Decode(w).value.1)
                    && (Eval(s, limit).None? <==> Fails(Decode(w).value.1, s.regs, s.mem, s.len)))
  {
    hide Decode, Parse, LoadWord, EffectOf, Fails;
    if s.regs.pc % 4 == 0 {
      var w := LoadWord(s.mem, s.regs.pc);
      DecodedWords(w);
      DecodeIsParse(w);
      if Decode(w).Some? {
        EffectFails(Decode(w).value.1, s.regs, s.mem, s.len);
      }
    }
  }

  /** Jumps and taken branches reach their target unless it is 0, where the machine goes on with the next word (which is
      0 itself only after the last word of memory). */
  lemma JumpsReachTarget(s: State, s': State, limit: Option<nat>, target: u32)
    requires Eval(s, limit) == Some(s') && Decoded(s'.inst)
    requires var x := s.regs.x;
             || (s'.inst.JAL? && target == Add32(s.regs.pc, s'.inst.imm))
             || (s'.inst.JALR? && target == Add32(GetReg(x, s'.inst.rs1), s'.inst.imm))
             || (s'.inst.BR? && target == Add32(s.regs.pc, s'.inst.imm)
                 && BrOp(s'.inst.bop, GetReg(x, s'.inst.rs1), GetReg(x, s'.inst.rs2)))
    ensures s'.regs.pc == target <==> target != 0 || s.regs.pc == WORD - 4
  {
    hide Eval, BrOp, GetReg, Decode, LoadWord, Add32, Landing, AluOp, Load, Store;
    Evaluated(s, s', limit);
    LandsOnTarget(s.regs.pc, target);
  }

  lemma LandsOnTarget(pc: u32, target: u32)
    ensures Landing(pc, target) == target <==> target != 0 || pc == WORD - 4
  {
  }

  /** A machine at the word of jalr x0, 0(x0). */
  const AT_JUMP_TO_ZERO: State :=
    State(Regs(0x1000, seq(32, _ => 0)), map[0x1000 := 0x67, 0x1001 := 0, 0x1002 := 0, 0x1003 := 0], UNIMP, 0, 0, 0)

  /** It goes on at the next word instead of jumping to 0. */
  lemma JumpToZeroFallsThrough()
    ensures Eval(AT_JUMP_TO_ZERO, None).Some?
    ensures var s' := Eval(AT_JUMP_TO_ZERO, None).value; s'.inst == JALR(0, 0, 0) && s'.regs.pc == 0x1004
  {
    hide *;
    var s := AT_JUMP_TO_ZERO;
    JumpToZeroState(s);
    JumpToZeroWord(0);
    DecodeIsParse(0x67);
    EvaluationFails(s, None);
    NeverFails(JALR(0, 0, 0), s.regs, s.mem, s.len);
    var s' := Eval(s, None).value;
    Evaluated(s, s', None);
    JumpToZeroMeans(s, s'.z, s'.regs.pc, s'.mem);
  }

  lemma JumpToZeroState(s: State)
    requires s == AT_JUMP_TO_ZERO
    ensures s.regs.pc == 0x1000 && s.regs.pc % 4 == 0 && LoadWord(s.mem, s.regs.pc) == 0x67
  {
  }

  lemma JumpToZeroWord(rd: u32)
    requires rd < 32
    ensures Parse(rd * 0x80 + 0x67) == Some(JALR(rd, 0, 0))
  {
    hide Parse;
    ParseEncode(JALR(rd, 0, 0));
  }

  lemma NeverFails(inst: Inst, regs: Regs, mem: Memory, len: nat)
    requires Decoded(inst) && inst.JALR?
    ensures !Fails(inst, regs, mem, len)
  {
  }

  lemma JumpToZeroMeans(s: State, z: u32, pc': u32, mem': Memory)
    requires s.regs.pc == 0x1000 && Means(JALR(0, 0, 0), s.regs, s.mem, s.len, z, pc', mem')
    ensures pc' == 0x1004
  {
  }
}
