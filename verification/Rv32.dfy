/** RV32 instructions and their encoding (vm/src/rv32.rs, vm/src/rv32/parse.rs). */
module Rv32 {
  import opened Wrappers

  const WORD: nat := 0x1_0000_0000

  type u32 = x: nat | x < 0x1_0000_0000

  datatype BOP = BEQ | BNE | BLT | BGE | BLTU | BGEU

  datatype LOP = LB | LH | LW | LBU | LHU

  datatype SOP = SB | SH | SW

  datatype AOP = ADD | SUB | SLL | SLT | SLTU | XOR | SRL | SRA | OR | AND

  datatype Inst =
    | LUI(rd: u32, imm: u32)
    | AUIPC(rd: u32, imm: u32)
    | JAL(rd: u32, imm: u32)
    | JALR(rd: u32, rs1: u32, imm: u32)
    | BR(bop: BOP, rs1: u32, rs2: u32, imm: u32)
    | LOAD(lop: LOP, rd: u32, rs1: u32, imm: u32)
    | STORE(sop: SOP, rs1: u32, rs2: u32, imm: u32)
    | ALUI(aop: AOP, rd: u32, rs1: u32, imm: u32)
    | ALU(aop: AOP, rd: u32, rs1: u32, rs2: u32)
    | FENCE
    | ECALL(rd: u32)
    | EBREAK(rd: u32)
    | UNIMP

  // ---- Operands ----

  /** The register an instruction writes; 0 if it writes none. */
  function WrittenBy(inst: Inst): u32 {
    match inst
    case LUI(rd, _) => rd
    case AUIPC(rd, _) => rd
    case JAL(rd, _) => rd
    case JALR(rd, _, _) => rd
    case LOAD(_, rd, _, _) => rd
    case ALUI(_, rd, _, _) => rd
    case ALU(_, rd, _, _) => rd
    case ECALL(rd) => rd
    case _ => 0
  }

  /** The registers an instruction reads; 0 where it reads none. */
  function FirstSource(inst: Inst): u32 {
    match inst
    case JALR(_, rs1, _) => rs1
    case BR(_, rs1, _, _) => rs1
    case LOAD(_, _, rs1, _) => rs1
    case STORE(_, rs1, _, _) => rs1
    case ALUI(_, _, rs1, _) => rs1
    case ALU(_, _, rs1, _) => rs1
    case _ => 0
  }

  function SecondSource(inst: Inst): u32 {
    match inst
    case BR(_, _, rs2, _) => rs2
    case STORE(_, _, rs2, _) => rs2
    case ALU(_, _, _, rs2) => rs2
    case _ => 0
  }

  /** The immediate of an instruction; 0 if it has none. */
  function Immediate(inst: Inst): u32 {
    match inst
    case LUI(_, imm) => imm
    case AUIPC(_, imm) => imm
    case JAL(_, imm) => imm
    case JALR(_, _, imm) => imm
    case BR(_, _, _, imm) => imm
    case LOAD(_, _, _, imm) => imm
    case STORE(_, _, _, imm) => imm
    case ALUI(_, _, _, imm) => imm
    case _ => 0
  }

  // ---- Fields of an instruction word ----

  function Opcode(w: u32): nat { w % 0x80 }

  function Rd(w: u32): (r: u32)
    ensures r < 32
  {
    w / 0x80 % 32
  }

  function Funct3(w: u32): nat { w / 0x1000 % 8 }

  function Rs1(w: u32): (r: u32)
    ensures r < 32
  {
    w / 0x8000 % 32
  }

  function Rs2(w: u32): (r: u32)
    ensures r < 32
  {
    w / 0x10_0000 % 32
  }

  function Funct7(w: u32): nat { w / 0x200_0000 }

  /** The sign bit, extended to the bits from `low` up. */
  function SignBits(w: u32, low: nat): nat
    requires low <= WORD
  {
    if w >= 0x8000_0000 then WORD - low else 0
  }

  function ImmI(w: u32): u32 { SignBits(w, 0x800) + w / 0x10_0000 % 0x800 }

  function ImmS(w: u32): u32 { SignBits(w, 0x800) + w / 0x200_0000 % 0x40 * 0x20 + w / 0x80 % 0x20 }

  function ImmB(w: u32): u32 {
    SignBits(w, 0x1000) + w / 0x80 % 2 * 0x800 + w / 0x200_0000 % 0x40 * 0x20 + w / 0x100 % 0x10 * 2
  }

  function ImmU(w: u32): u32 { w - w % 0x1000 }

  function ImmJ(w: u32): u32 {
    SignBits(w, 0x10_0000) + w / 0x1000 % 0x100 * 0x1000 + w / 0x10_0000 % 2 * 0x800 + w / 0x20_0000 % 0x400 * 2
  }

  function ImmA(w: u32): u32 {
    if Funct3(w) == 1 || Funct3(w) == 5 then Rs2(w) else ImmI(w)
  }

  // ---- Parsing ----

  const OPC_LUI := 0x37
  const OPC_AUIPC := 0x17
  const OPC_JAL := 0x6f
  const OPC_JALR := 0x67
  const OPC_BR := 0x63
  const OPC_LOAD := 0x03
  const OPC_STORE := 0x23
  const OPC_ALUI := 0x13
  const OPC_ALU := 0x33
  const OPC_FENCE := 0x0f
  const OPC_ECALL := 0x73

  function Bop(w: u32): Option<BOP> {
    match Funct3(w)
    case 0 => Some(BEQ)
    case 1 => Some(BNE)
    case 4 => Some(BLT)
    case 5 => Some(BGE)
    case 6 => Some(BLTU)
    case 7 => Some(BGEU)
    case _ => None
  }

  function Lop(w: u32): Option<LOP> {
    match Funct3(w)
    case 0 => Some(LB)
    case 1 => Some(LH)
    case 2 => Some(LW)
    case 4 => Some(LBU)
    case 5 => Some(LHU)
    case _ => None
  }

  function Sop(w: u32): Option<SOP> {
    match Funct3(w)
    case 0 => Some(SB)
    case 1 => Some(SH)
    case 2 => Some(SW)
    case _ => None
  }

  function Aop(w: u32): Option<AOP> {
    match (Funct3(w), Funct7(w))
    case (0, 0x20) => Some(SUB)
    case (0, 0) => Some(ADD)
    case (1, 0) => Some(SLL)
    case (2, 0) => Some(SLT)
    case (3, 0) => Some(SLTU)
    case (4, 0) => Some(XOR)
    case (5, 0) => Some(SRL)
    case (5, 0x20) => Some(SRA)
    case (6, 0) => Some(OR)
    case (7, 0) => Some(AND)
    case _ => None
  }

  function Aopi(w: u32): Option<AOP> {
    match (Funct3(w), Funct7(w))
    case (0, _) => Some(ADD)
    case (1, 0) => Some(SLL)
    case (2, _) => Some(SLT)
    case (3, _) => Some(SLTU)
    case (4, _) => Some(XOR)
    case (5, 0) => Some(SRL)
    case (5, 0x20) => Some(SRA)
    case (6, _) => Some(OR)
    case (7, _) => Some(AND)
    case _ => None
  }

  /** `parse_u32`. */
  function Parse(w: u32): Option<Inst> {
    var opc := Opcode(w);
    if opc == OPC_LUI then Some(LUI(Rd(w), ImmU(w)))
    else if opc == OPC_AUIPC then Some(AUIPC(Rd(w), ImmU(w)))
    else if opc == OPC_JAL then Some(JAL(Rd(w), ImmJ(w)))
    else if opc == OPC_JALR then (if Funct3(w) == 0 then Some(JALR(Rd(w), Rs1(w), ImmI(w))) else None)
    else if opc == OPC_BR then (if Bop(w).Some? then Some(BR(Bop(w).value, Rs1(w), Rs2(w), ImmB(w))) else None)
    else if opc == OPC_LOAD then (if Lop(w).Some? then Some(LOAD(Lop(w).value, Rd(w), Rs1(w), ImmI(w))) else None)
    else if opc == OPC_STORE then (if Sop(w).Some? then Some(STORE(Sop(w).value, Rs1(w), Rs2(w), ImmS(w))) else None)
    else if opc == OPC_ALUI then (if Aopi(w).Some? then Some(ALUI(Aopi(w).value, Rd(w), Rs1(w), ImmA(w))) else None)
    else if opc == OPC_ALU then (if Aop(w).Some? then Some(ALU(Aop(w).value, Rd(w), Rs1(w), Rs2(w))) else None)
    else if opc == OPC_FENCE then Some(FENCE)
    else if opc == OPC_ECALL then
      (match w / 0x1000
       case 0x00000 => Some(ECALL(Rd(w)))
       case 0x00100 => Some(EBREAK(Rd(w)))
       case 0xc0001 => Some(UNIMP)
       case _ => None)
    else None
  }

  /** `translate_nexus`: the plain ECALL and EBREAK words get return register 10. */
  function Translate(w: u32): u32 {
    if w == 0x00000073 || w == 0x00100073 then w + 10 * 0x80 else w
  }

  /** `parse_inst` on a full word: only four-byte encodings are accepted. */
  function Decode(w: u32): Option<(u32, Inst)> {
    if w % 4 != 3 || w % 32 == 31 then None
    else
      match Parse(Translate(w))
      case None => None
      case Some(inst) => Some((Translate(w), inst))
  }

  // ---- Arithmetic ----

  function Add32(a: u32, b: u32): u32 { (a + b) % WORD }

  function Sub32(a: u32, b: u32): u32 { (a - b) % WORD }

  function Signed(x: u32): int { if x >= 0x8000_0000 then x - WORD else x }

  /** Applies op to each of the low n bits. */
  function Bitwise(op: (bool, bool) -> bool, x: nat, y: nat, n: nat): (r: nat)
    ensures r < ShiftLeft(1, n)
  {
    if n == 0 then 0
    else 2 * Bitwise(op, x / 2, y / 2, n - 1) + if op(x % 2 == 1, y % 2 == 1) then 1 else 0
  }

  function ShiftLeft(x: nat, n: nat): (r: nat)
  {
    if n == 0 then x else 2 * ShiftLeft(x, n - 1)
  }

  /** Rounds towards minus infinity, like an arithmetic shift. */
  function ShiftRight(x: int, n: nat): (r: int)
    ensures x >= 0 ==> 0 <= r <= x
    ensures x < 0 ==> x <= r < 0
  {
    if n == 0 then x else ShiftRight(x, n - 1) / 2
  }

  lemma BitsOfWord()
    ensures ShiftLeft(1, 32) == WORD
  {
    assert ShiftLeft(1, 8) == 256;
    assert ShiftLeft(1, 16) == 256 * ShiftLeft(1, 8);
    assert ShiftLeft(1, 24) == 256 * ShiftLeft(1, 16);
    assert ShiftLeft(1, 32) == 256 * ShiftLeft(1, 24);
  }

  function BrOp(op: BOP, x: u32, y: u32): bool {
    match op
    case BEQ => x == y
    case BNE => x != y
    case BLT => Signed(x) < Signed(y)
    case BGE => Signed(x) >= Signed(y)
    case BLTU => x < y
    case BGEU => x >= y
  }

  function AluOp(op: AOP, x: u32, y: u32): u32 {
    BitsOfWord();
    var shamt := y % 32;
    match op
    case ADD => Add32(x, y)
    case SUB => Sub32(x, y)
    case SLT => if Signed(x) < Signed(y) then 1 else 0
    case SLTU => if x < y then 1 else 0
    case SLL => ShiftLeft(x, shamt) % WORD
    case SRL => ShiftRight(x, shamt)
    case SRA => ShiftRight(Signed(x), shamt) % WORD
    case AND => Bitwise((a, b) => a && b, x, y, 32)
    case OR => Bitwise((a, b) => a || b, x, y, 32)
    case XOR => Bitwise((a, b) => a != b, x, y, 32)
  }
}
