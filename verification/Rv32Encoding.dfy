/** The instruction encoding, as an assembler that is inverse to the parser (vm/src/rv32/parse.rs). */
module Rv32Encoding {
  import opened Wrappers
  import opened Rv32

  // ---- Quotients and remainders ----

  lemma AtMost(a: int, b: int, d: int)
    requires d > 0 && a * d < (b + 1) * d
    ensures a <= b
  {
  }

  /** Division with remainder is unique. */
  lemma Division(x: int, q: int, d: nat, r: nat)
    requires r < d && x == q * d + r
    ensures x / d == q && x % d == r
  {
    var p := x / d;
    assert x == p * d + x % d;
    assert p * d < (q + 1) * d && q * d < (p + 1) * d;
    AtMost(p, q, d);
    AtMost(q, p, d);
  }

  // ---- Words and their six fields ----

  /** The word with these fields, from the highest bits down. */
  function Word(f7: nat, rs2: nat, rs1: nat, f3: nat, rd: nat, opc: nat): u32
    requires f7 < 128 && rs2 < 32 && rs1 < 32 && f3 < 8 && rd < 32 && opc < 128
  {
    f7 * 0x200_0000 + rs2 * 0x10_0000 + rs1 * 0x8000 + f3 * 0x1000 + rd * 0x80 + opc
  }

  lemma FieldsOfWord(f7: nat, rs2: nat, rs1: nat, f3: nat, rd: nat, opc: nat)
    requires f7 < 128 && rs2 < 32 && rs1 < 32 && f3 < 8 && rd < 32 && opc < 128
    ensures var w := Word(f7, rs2, rs1, f3, rd, opc);
            && Funct7(w) == f7 && Rs2(w) == rs2 && Rs1(w) == rs1 && Funct3(w) == f3 && Rd(w) == rd && Opcode(w) == opc
  {
    var w := Word(f7, rs2, rs1, f3, rd, opc);
    var a, b, c, d := f7 * 32 + rs2, (f7 * 32 + rs2) * 32 + rs1, ((f7 * 32 + rs2) * 32 + rs1) * 8 + f3, (((f7 * 32 + rs2) * 32 + rs1) * 8 + f3) * 32 + rd;
    Division(w, d, 0x80, opc);
    Division(d, c, 32, rd);
    Division(w, c, 0x1000, rd * 0x80 + opc);
    Division(c, b, 8, f3);
    Division(w, b, 0x8000, f3 * 0x1000 + rd * 0x80 + opc);
    Division(b, a, 32, rs1);
    Division(w, a, 0x10_0000, rs1 * 0x8000 + f3 * 0x1000 + rd * 0x80 + opc);
    Division(a, f7, 32, rs2);
    Division(w, f7, 0x200_0000, rs2 * 0x10_0000 + rs1 * 0x8000 + f3 * 0x1000 + rd * 0x80 + opc);
  }

  lemma WordOfFields(w: u32)
    ensures Funct7(w) < 128 && Funct3(w) < 8 && Opcode(w) < 128
    ensures w == Word(Funct7(w), Rs2(w), Rs1(w), Funct3(w), Rd(w), Opcode(w))
  {
    var d := w / 0x80;
    var c := d / 32;
    var b := c / 8;
    var a := b / 32;
    var f := a / 32;
    Division(w, c, 0x1000, d % 32 * 0x80 + w % 0x80);
    Division(w, b, 0x8000, c % 8 * 0x1000 + d % 32 * 0x80 + w % 0x80);
    Division(w, a, 0x10_0000, b % 32 * 0x8000 + c % 8 * 0x1000 + d % 32 * 0x80 + w % 0x80);
    Division(w, f, 0x200_0000, a % 32 * 0x10_0000 + b % 32 * 0x8000 + c % 8 * 0x1000 + d % 32 * 0x80 + w % 0x80);
  }

  /** The immediates in terms of the fields; the top bit of the word is their sign. */
  lemma ImmediatesOfWord(sign: nat, g: nat, rs2: nat, rs1: nat, f3: nat, rd: nat, opc: nat)
    requires sign < 2 && g < 64 && rs2 < 32 && rs1 < 32 && f3 < 8 && rd < 32 && opc < 128
    ensures var w := Word(sign * 64 + g, rs2, rs1, f3, rd, opc);
            && ImmI(w) == sign * (WORD - 0x800) + g * 32 + rs2
            && ImmS(w) == sign * (WORD - 0x800) + g * 32 + rd
            && ImmB(w) == sign * (WORD - 0x1000) + rd % 2 * 0x800 + g * 32 + rd / 2 * 2
            && ImmU(w) == (((sign * 64 + g) * 32 + rs2) * 32 + rs1) * 0x8000 + f3 * 0x1000
            && ImmJ(w) == sign * (WORD - 0x10_0000) + (rs1 * 8 + f3) * 0x1000 + rs2 % 2 * 0x800 + g * 32 + rs2 / 2 * 2
  {
    hide ImmI, ImmS, ImmB, ImmU, ImmJ;
    ImmIOfWord(sign, g, rs2, rs1, f3, rd, opc);
    ImmSOfWord(sign, g, rs2, rs1, f3, rd, opc);
    ImmBOfWord(sign, g, rs2, rs1, f3, rd, opc);
    ImmUOfWord(sign, g, rs2, rs1, f3, rd, opc);
    ImmJOfWord(sign, g, rs2, rs1, f3, rd, opc);
  }

  /** The digit of x at weight d, in base m. */
  lemma Digit(x: nat, high: nat, m: nat, digit: nat, d: nat, low: nat)
    requires digit < m && low < d && x == (high * m + digit) * d + low
    ensures x / d % m == digit
  {
    Division(x, high * m + digit, d, low);
    Division(high * m + digit, high, m, digit);
  }

  lemma SignOfWord(sign: nat, g: nat, rs2: nat, rs1: nat, f3: nat, rd: nat, opc: nat)
    requires sign < 2 && g < 64 && rs2 < 32 && rs1 < 32 && f3 < 8 && rd < 32 && opc < 128
    ensures Word(sign * 64 + g, rs2, rs1, f3, rd, opc) >= 0x8000_0000 <==> sign == 1
  {
  }

  lemma ImmIOfWord(sign: nat, g: nat, rs2: nat, rs1: nat, f3: nat, rd: nat, opc: nat)
    requires sign < 2 && g < 64 && rs2 < 32 && rs1 < 32 && f3 < 8 && rd < 32 && opc < 128
    ensures ImmI(Word(sign * 64 + g, rs2, rs1, f3, rd, opc)) == sign * (WORD - 0x800) + g * 32 + rs2
  {
    hide Word;
    var w := Word(sign * 64 + g, rs2, rs1, f3, rd, opc);
    WordIs(sign, g, rs2, rs1, f3, rd, opc, w);
    SignOfWord(sign, g, rs2, rs1, f3, rd, opc);
    Digit(w, sign, 0x800, g * 32 + rs2, 0x10_0000, rs1 * 0x8000 + f3 * 0x1000 + rd * 0x80 + opc);
  }

  lemma WordIs(sign: nat, g: nat, rs2: nat, rs1: nat, f3: nat, rd: nat, opc: nat, w: u32)
    requires sign < 2 && g < 64 && rs2 < 32 && rs1 < 32 && f3 < 8 && rd < 32 && opc < 128 && w == Word(sign * 64 + g, rs2, rs1, f3, rd, opc)
    ensures w == sign * 0x8000_0000 + g * 0x200_0000 + rs2 * 0x10_0000 + rs1 * 0x8000 + f3 * 0x1000 + rd * 0x80 + opc
  {
  }

  lemma ImmSOfWord(sign: nat, g: nat, rs2: nat, rs1: nat, f3: nat, rd: nat, opc: nat)
    requires sign < 2 && g < 64 && rs2 < 32 && rs1 < 32 && f3 < 8 && rd < 32 && opc < 128
    ensures ImmS(Word(sign * 64 + g, rs2, rs1, f3, rd, opc)) == sign * (WORD - 0x800) + g * 32 + rd
  {
    hide Word;
    var w := Word(sign * 64 + g, rs2, rs1, f3, rd, opc);
    WordIs(sign, g, rs2, rs1, f3, rd, opc, w);
    SignOfWord(sign, g, rs2, rs1, f3, rd, opc);
    var low := rs2 * 0x10_0000 + rs1 * 0x8000 + f3 * 0x1000 + rd * 0x80 + opc;
    Digit(w, sign, 0x40, g, 0x200_0000, low);
    Digit(w, (sign * 64 + g) * 0x2000 + rs2 * 0x100 + rs1 * 8 + f3, 0x20, rd, 0x80, opc);
  }

  lemma ImmBOfWord(sign: nat, g: nat, rs2: nat, rs1: nat, f3: nat, rd: nat, opc: nat)
    requires sign < 2 && g < 64 && rs2 < 32 && rs1 < 32 && f3 < 8 && rd < 32 && opc < 128
    ensures ImmB(Word(sign * 64 + g, rs2, rs1, f3, rd, opc)) == sign * (WORD - 0x1000) + rd % 2 * 0x800 + g * 32 + rd / 2 * 2
  {
    hide Word;
    var w := Word(sign * 64 + g, rs2, rs1, f3, rd, opc);
    WordIs(sign, g, rs2, rs1, f3, rd, opc, w);
    SignOfWord(sign, g, rs2, rs1, f3, rd, opc);
    var high, low := (sign * 64 + g) * 0x2000 + rs2 * 0x100 + rs1 * 8 + f3, rs2 * 0x10_0000 + rs1 * 0x8000 + f3 * 0x1000 + rd * 0x80 + opc;
    Digit(w, sign, 0x40, g, 0x200_0000, low);
    Halves(rd);
    Digit(w, high * 16 + rd / 2, 2, rd % 2, 0x80, opc);
    Digit(w, high, 0x10, rd / 2, 0x100, rd % 2 * 0x80 + opc);
  }

  lemma Halves(x: nat)
    ensures x == x / 2 * 2 + x % 2
  {
  }

  lemma ImmUOfWord(sign: nat, g: nat, rs2: nat, rs1: nat, f3: nat, rd: nat, opc: nat)
    requires sign < 2 && g < 64 && rs2 < 32 && rs1 < 32 && f3 < 8 && rd < 32 && opc < 128
    ensures ImmU(Word(sign * 64 + g, rs2, rs1, f3, rd, opc)) == (((sign * 64 + g) * 32 + rs2) * 32 + rs1) * 0x8000 + f3 * 0x1000
  {
    hide Word;
    var w := Word(sign * 64 + g, rs2, rs1, f3, rd, opc);
    WordIs(sign, g, rs2, rs1, f3, rd, opc, w);
    Division(w, (((sign * 64 + g) * 32 + rs2) * 32 + rs1) * 8 + f3, 0x1000, rd * 0x80 + opc);
  }

  lemma ImmJOfWord(sign: nat, g: nat, rs2: nat, rs1: nat, f3: nat, rd: nat, opc: nat)
    requires sign < 2 && g < 64 && rs2 < 32 && rs1 < 32 && f3 < 8 && rd < 32 && opc < 128
    ensures ImmJ(Word(sign * 64 + g, rs2, rs1, f3, rd, opc))
         == sign * (WORD - 0x10_0000) + (rs1 * 8 + f3) * 0x1000 + rs2 % 2 * 0x800 + g * 32 + rs2 / 2 * 2
  {
    hide Word;
    var w := Word(sign * 64 + g, rs2, rs1, f3, rd, opc);
    WordIs(sign, g, rs2, rs1, f3, rd, opc, w);
    SignOfWord(sign, g, rs2, rs1, f3, rd, opc);
    Halves(rs2);
    var low := rs1 * 0x8000 + f3 * 0x1000 + rd * 0x80 + opc;
    Digit(w, (sign * 64 + g) * 32 + rs2, 0x100, rs1 * 8 + f3, 0x1000, rd * 0x80 + opc);
    Digit(w, (sign * 64 + g) * 16 + rs2 / 2, 2, rs2 % 2, 0x10_0000, low);
    Digit(w, sign, 0x400, g * 16 + rs2 / 2, 0x20_0000, rs2 % 2 * 0x10_0000 + low);
  }

  // ---- The assembler ----

  function BopCode(op: BOP): nat {
    match op
    case BEQ => 0
    case BNE => 1
    case BLT => 4
    case BGE => 5
    case BLTU => 6
    case BGEU => 7
  }

  function LopCode(op: LOP): nat {
    match op
    case LB => 0
    case LH => 1
    case LW => 2
    case LBU => 4
    case LHU => 5
  }

  function SopCode(op: SOP): nat {
    match op
    case SB => 0
    case SH => 1
    case SW => 2
  }

  function AopCode(op: AOP): nat {
    match op
    case ADD => 0
    case SUB => 0
    case SLL => 1
    case SLT => 2
    case SLTU => 3
    case XOR => 4
    case SRL => 5
    case SRA => 5
    case OR => 6
    case AND => 7
  }

  function AopHigh(op: AOP): nat {
    if op == SUB || op == SRA then 0x20 else 0
  }

  predicate IsShift(op: AOP) {
    op == SLL || op == SRL || op == SRA
  }

  /** The immediate is the residue of a signed number of this many values on each side of zero. */
  predicate Fits(imm: u32, half: nat) {
    imm < half || imm + half >= WORD
  }

  /** Which instructions have an encoding: operands name registers, immediates have the width of their format. */
  predicate Encodable(inst: Inst) {
    match inst
    case LUI(rd, imm) => rd < 32 && imm % 0x1000 == 0
    case AUIPC(rd, imm) => rd < 32 && imm % 0x1000 == 0
    case JAL(rd, imm) => rd < 32 && Fits(imm, 0x10_0000) && imm % 2 == 0
    case JALR(rd, rs1, imm) => rd < 32 && rs1 < 32 && Fits(imm, 0x800)
    case BR(_, rs1, rs2, imm) => rs1 < 32 && rs2 < 32 && Fits(imm, 0x1000) && imm % 2 == 0
    case LOAD(_, rd, rs1, imm) => rd < 32 && rs1 < 32 && Fits(imm, 0x800)
    case STORE(_, rs1, rs2, imm) => rs1 < 32 && rs2 < 32 && Fits(imm, 0x800)
    case ALUI(op, rd, rs1, imm) => rd < 32 && rs1 < 32 && op != SUB && if IsShift(op) then imm < 32 else Fits(imm, 0x800)
    case ALU(_, rd, rs1, rs2) => rd < 32 && rs1 < 32 && rs2 < 32
    case FENCE => true
    case ECALL(rd) => rd < 32
    case EBREAK(rd) => rd < 32
    case UNIMP => true
  }

  /** The sign and the low bits of a signed immediate, as they stand at the top of the word. */
  function HighBits(imm: u32): (f7: nat)
    ensures f7 < 128
  {
    (if imm >= 0x8000_0000 then 64 else 0) + imm / 32 % 64
  }

  /** Formats of the instruction set: R, I, S, B, U and J. */
  function FormatI(imm: u32, rs1: u32, f3: nat, rd: u32, opc: nat): u32
    requires rs1 < 32 && f3 < 8 && rd < 32 && opc < 128
  {
    Word(HighBits(imm), imm % 32, rs1, f3, rd, opc)
  }

  function FormatS(imm: u32, rs2: u32, rs1: u32, f3: nat, opc: nat): u32
    requires rs2 < 32 && rs1 < 32 && f3 < 8 && opc < 128
  {
    Word(HighBits(imm), rs2, rs1, f3, imm % 32, opc)
  }

  function FormatB(imm: u32, rs2: u32, rs1: u32, f3: nat, opc: nat): u32
    requires rs2 < 32 && rs1 < 32 && f3 < 8 && opc < 128
  {
    Word(HighBits(imm), rs2, rs1, f3, imm / 2 % 16 * 2 + imm / 0x800 % 2, opc)
  }

  function FormatU(imm: u32, rd: u32, opc: nat): u32
    requires rd < 32 && opc < 128
  {
    Word(imm / 0x200_0000, imm / 0x10_0000 % 32, imm / 0x8000 % 32, imm / 0x1000 % 8, rd, opc)
  }

  function FormatJ(imm: u32, rd: u32, opc: nat): u32
    requires rd < 32 && opc < 128
  {
    Word(HighBits(imm), imm / 2 % 16 * 2 + imm / 0x800 % 2, imm / 0x8000 % 32, imm / 0x1000 % 8, rd, opc)
  }

  /** The word of an instruction. */
  function Encode(inst: Inst): u32
    requires Encodable(inst)
  {
    match inst
    case LUI(rd, imm) => FormatU(imm, rd, OPC_LUI)
    case AUIPC(rd, imm) => FormatU(imm, rd, OPC_AUIPC)
    case JAL(rd, imm) => FormatJ(imm, rd, OPC_JAL)
    case JALR(rd, rs1, imm) => FormatI(imm, rs1, 0, rd, OPC_JALR)
    case BR(op, rs1, rs2, imm) => FormatB(imm, rs2, rs1, BopCode(op), OPC_BR)
    case LOAD(op, rd, rs1, imm) => FormatI(imm, rs1, LopCode(op), rd, OPC_LOAD)
    case STORE(op, rs1, rs2, imm) => FormatS(imm, rs2, rs1, SopCode(op), OPC_STORE)
    case ALUI(op, rd, rs1, imm) =>
      if IsShift(op) then Word(AopHigh(op), imm, rs1, AopCode(op), rd, OPC_ALUI)
      else FormatI(imm, rs1, AopCode(op), rd, OPC_ALUI)
    case ALU(op, rd, rs1, rs2) => Word(AopHigh(op), rs2, rs1, AopCode(op), rd, OPC_ALU)
    case FENCE => Word(0, 0, 0, 0, 0, OPC_FENCE)
    case ECALL(rd) => Word(0, 0, 0, 0, rd, OPC_ECALL)
    case EBREAK(rd) => Word(0, 1, 0, 0, rd, OPC_ECALL)
    case UNIMP => Word(0x60, 0, 0, 1, 0, OPC_ECALL)
  }

  // ---- Immediates there and back ----

  /** A signed immediate cut into its sign, the bits above the low five, and the low five. */
  lemma Cut(imm: u32)
    requires Fits(imm, 0x800)
    ensures imm == (if imm >= 0x8000_0000 then WORD - 0x800 else 0) + imm / 32 % 64 * 32 + imm % 32
  {
    var sign := if imm >= 0x8000_0000 then 1 else 0;
    var m := imm - sign * (WORD - 0x800);
    Division(imm, sign * ((WORD - 0x800) / 32) + m / 32, 32, m % 32);
    Division(imm / 32, sign * ((WORD - 0x800) / 0x800), 64, m / 32);
  }

  lemma ImmediateI(imm: u32, rs1: u32, f3: nat, rd: u32, opc: nat)
    requires rs1 < 32 && f3 < 8 && rd < 32 && opc < 128 && Fits(imm, 0x800)
    ensures ImmI(FormatI(imm, rs1, f3, rd, opc)) == imm
  {
    hide Word, ImmI;
    var sign := if imm >= 0x8000_0000 then 1 else 0;
    ImmIOfWord(sign, imm / 32 % 64, imm % 32, rs1, f3, rd, opc);
    Cut(imm);
  }

  lemma ImmediateS(imm: u32, rs2: u32, rs1: u32, f3: nat, opc: nat)
    requires rs2 < 32 && rs1 < 32 && f3 < 8 && opc < 128 && Fits(imm, 0x800)
    ensures ImmS(FormatS(imm, rs2, rs1, f3, opc)) == imm
  {
    hide Word, ImmS;
    var sign := if imm >= 0x8000_0000 then 1 else 0;
    ImmSOfWord(sign, imm / 32 % 64, rs2, rs1, f3, imm % 32, opc);
    Cut(imm);
  }

  /** A branch offset: sign, bit 11, bits 10 to 5, bits 4 to 1. */
  lemma CutBranch(imm: u32)
    requires Fits(imm, 0x1000) && imm % 2 == 0
    ensures imm == (if imm >= 0x8000_0000 then WORD - 0x1000 else 0) + imm / 0x800 % 2 * 0x800 + imm / 32 % 64 * 32 + imm / 2 % 16 * 2
  {
    var q := imm / 2;
    var p := q / 16;
    var n := p / 64;
    var t := n / 2;
    Division(imm, p, 32, q % 16 * 2);
    Division(imm, n, 0x800, p % 64 * 32 + q % 16 * 2);
    TopOf(imm, t, 0x1000, n % 2 * 0x800 + p % 64 * 32 + q % 16 * 2);
  }

  /** What is left above a signed immediate is all zeros or all ones. */
  lemma TopOf(imm: u32, top: nat, half: nat, low: nat)
    requires Fits(imm, half) && (half == 0x1000 || half == 0x10_0000) && imm == top * half + low && low < half
    ensures top * half == if imm >= 0x8000_0000 then WORD - half else 0
  {
  }

  lemma ImmediateB(imm: u32, rs2: u32, rs1: u32, f3: nat, opc: nat)
    requires rs2 < 32 && rs1 < 32 && f3 < 8 && opc < 128 && Fits(imm, 0x1000) && imm % 2 == 0
    ensures ImmB(FormatB(imm, rs2, rs1, f3, opc)) == imm
  {
    hide Word, ImmB;
    var sign := if imm >= 0x8000_0000 then 1 else 0;
    var c, a := imm / 2 % 16, imm / 0x800 % 2;
    ImmBOfWord(sign, imm / 32 % 64, rs2, rs1, f3, c * 2 + a, opc);
    Division(c * 2 + a, c, 2, a);
    CutBranch(imm);
  }

  lemma ImmediateU(imm: u32, rd: u32, opc: nat)
    requires rd < 32 && opc < 128 && imm % 0x1000 == 0
    ensures ImmU(FormatU(imm, rd, opc)) == imm
  {
    hide Word, ImmU;
    WordOfFields(imm);
    CutUpper(imm);
    var f7 := imm / 0x200_0000;
    Halves64(f7);
    ImmUOfWord(f7 / 64, f7 % 64, imm / 0x10_0000 % 32, imm / 0x8000 % 32, imm / 0x1000 % 8, rd, opc);
  }

  lemma Halves64(f7: nat)
    requires f7 < 128
    ensures f7 / 64 < 2 && f7 == f7 / 64 * 64 + f7 % 64
  {
  }

  lemma CutUpper(imm: u32)
    requires imm % 0x1000 == 0
    ensures imm / 0x200_0000 < 128
    ensures imm == ((imm / 0x200_0000 * 32 + imm / 0x10_0000 % 32) * 32 + imm / 0x8000 % 32) * 0x8000 + imm / 0x1000 % 8 * 0x1000
  {
    var c := imm / 0x1000;
    var b := c / 8;
    var a := b / 32;
    var f := a / 32;
    Division(imm, b, 0x8000, c % 8 * 0x1000);
    Division(imm, a, 0x10_0000, b % 32 * 0x8000 + c % 8 * 0x1000);
    Division(imm, f, 0x200_0000, a % 32 * 0x10_0000 + b % 32 * 0x8000 + c % 8 * 0x1000);
  }

  /** A jump offset: sign, bits 19 to 12, bit 11, bits 10 to 5, bits 4 to 1. */
  lemma CutJump(imm: u32)
    requires Fits(imm, 0x10_0000) && imm % 2 == 0
    ensures imm == (if imm >= 0x8000_0000 then WORD - 0x10_0000 else 0) + (imm / 0x8000 % 32 * 8 + imm / 0x1000 % 8) * 0x1000
                   + imm / 0x800 % 2 * 0x800 + imm / 32 % 64 * 32 + imm / 2 % 16 * 2
  {
    var q := imm / 2;
    var p := q / 16;
    var n := p / 64;
    var l := n / 2;
    var k := l / 8;
    var t := k / 32;
    Division(imm, p, 32, q % 16 * 2);
    Division(imm, n, 0x800, p % 64 * 32 + q % 16 * 2);
    Division(imm, l, 0x1000, n % 2 * 0x800 + p % 64 * 32 + q % 16 * 2);
    Division(imm, k, 0x8000, l % 8 * 0x1000 + n % 2 * 0x800 + p % 64 * 32 + q % 16 * 2);
    TopOf(imm, t, 0x10_0000, k % 32 * 0x8000 + l % 8 * 0x1000 + n % 2 * 0x800 + p % 64 * 32 + q % 16 * 2);
  }

  lemma ImmediateJ(imm: u32, rd: u32, opc: nat)
    requires rd < 32 && opc < 128 && Fits(imm, 0x10_0000) && imm % 2 == 0
    ensures ImmJ(FormatJ(imm, rd, opc)) == imm
  {
    hide Word, ImmJ;
    var sign := if imm >= 0x8000_0000 then 1 else 0;
    var c, a := imm / 2 % 16, imm / 0x800 % 2;
    ImmJOfWord(sign, imm / 32 % 64, c * 2 + a, imm / 0x8000 % 32, imm / 0x1000 % 8, rd, opc);
    Division(c * 2 + a, c, 2, a);
    CutJump(imm);
  }

  // ---- Every word of a format is built from its own parts ----

  /** The word by its sign, the six bits below, and the other fields. */
  lemma Parts(w: u32) returns (sign: nat, g: nat)
    ensures sign < 2 && g < 64 && Funct3(w) < 8 && Opcode(w) < 128 && Funct7(w) == sign * 64 + g
    ensures w == Word(sign * 64 + g, Rs2(w), Rs1(w), Funct3(w), Rd(w), Opcode(w))
  {
    WordOfFields(w);
    Halves64(Funct7(w));
    sign, g := Funct7(w) / 64, Funct7(w) % 64;
  }

  lemma HighBitsOf(imm: u32, sign: nat, g: nat, half: nat, rest: nat, low: nat)
    requires sign < 2 && g < 64 && low < 32 && (half == 0x800 || half == 0x1000 || half == 0x10_0000)
    requires rest * 0x800 < half && imm == sign * (WORD - half) + rest * 0x800 + g * 32 + low
    ensures HighBits(imm) == sign * 64 + g && imm % 32 == low && Fits(imm, half)
  {
    Digit(imm, sign * ((WORD - half) / 0x800) + rest, 64, g, 32, low);
    Division(imm, (sign * ((WORD - half) / 0x800) + rest) * 64 + g, 32, low);
  }

  lemma BuiltI(w: u32)
    ensures Funct3(w) < 8 && Opcode(w) < 128 && Fits(ImmI(w), 0x800)
    ensures FormatI(ImmI(w), Rs1(w), Funct3(w), Rd(w), Opcode(w)) == w
  {
    hide Word, ImmI, HighBits, Fits, Funct7, Funct3, Rd, Rs1, Rs2, Opcode;
    var sign, g := Parts(w);
    ImmIOfWord(sign, g, Rs2(w), Rs1(w), Funct3(w), Rd(w), Opcode(w));
    HighBitsOf(ImmI(w), sign, g, 0x800, 0, Rs2(w));
  }

  lemma BuiltS(w: u32)
    ensures Funct3(w) < 8 && Opcode(w) < 128 && Fits(ImmS(w), 0x800)
    ensures FormatS(ImmS(w), Rs2(w), Rs1(w), Funct3(w), Opcode(w)) == w
  {
    hide Word, ImmS, HighBits, Fits, Funct7, Funct3, Rd, Rs1, Rs2, Opcode;
    var sign, g := Parts(w);
    ImmSOfWord(sign, g, Rs2(w), Rs1(w), Funct3(w), Rd(w), Opcode(w));
    HighBitsOf(ImmS(w), sign, g, 0x800, 0, Rd(w));
  }

  /** The two scattered bits of a branch or jump offset, put back. */
  lemma Scattered(imm: u32, sign: nat, g: nat, half: nat, rest: nat, field: nat)
    requires sign < 2 && g < 64 && field < 32 && (half == 0x1000 || half == 0x10_0000) && (rest * 2 + 1) * 0x800 < half
    requires imm == sign * (WORD - half) + rest * 0x1000 + field % 2 * 0x800 + g * 32 + field / 2 * 2
    ensures HighBits(imm) == sign * 64 + g && imm / 2 % 16 * 2 + imm / 0x800 % 2 == field && Fits(imm, half) && imm % 2 == 0
  {
    var c, a := field / 2, field % 2;
    Halves(field);
    HighBitsOf(imm, sign, g, half, rest * 2 + a, c * 2);
    var top := sign * ((WORD - half) / 0x1000) + rest;
    Digit(imm, top, 2, a, 0x800, g * 32 + c * 2);
    Digit(imm, (top * 2 + a) * 64 + g, 16, c, 2, 0);
    Division(imm, ((top * 2 + a) * 64 + g) * 16 + c, 2, 0);
  }

  lemma BuiltB(w: u32)
    ensures Funct3(w) < 8 && Opcode(w) < 128 && Fits(ImmB(w), 0x1000) && ImmB(w) % 2 == 0
    ensures FormatB(ImmB(w), Rs2(w), Rs1(w), Funct3(w), Opcode(w)) == w
  {
    hide Word, ImmB, HighBits, Fits, Funct7, Funct3, Rd, Rs1, Rs2, Opcode;
    var sign, g := Parts(w);
    ImmBOfWord(sign, g, Rs2(w), Rs1(w), Funct3(w), Rd(w), Opcode(w));
    Scattered(ImmB(w), sign, g, 0x1000, 0, Rd(w));
  }

  lemma BuiltJ(w: u32)
    ensures Opcode(w) < 128 && Fits(ImmJ(w), 0x10_0000) && ImmJ(w) % 2 == 0
    ensures FormatJ(ImmJ(w), Rd(w), Opcode(w)) == w
  {
    hide Word, ImmJ, HighBits, Fits, Funct7, Funct3, Rd, Rs1, Rs2, Opcode;
    var sign, g := Parts(w);
    ImmJOfWord(sign, g, Rs2(w), Rs1(w), Funct3(w), Rd(w), Opcode(w));
    var imm, top, low := ImmJ(w), sign * ((WORD - 0x10_0000) / 0x10_0000), Rs2(w) % 2 * 0x800 + g * 32 + Rs2(w) / 2 * 2;
    Scattered(imm, sign, g, 0x10_0000, Rs1(w) * 8 + Funct3(w), Rs2(w));
    Digit(imm, top, 32, Rs1(w), 0x8000, Funct3(w) * 0x1000 + low);
    Digit(imm, top * 32 + Rs1(w), 8, Funct3(w), 0x1000, low);
  }

  lemma BuiltU(w: u32)
    ensures Opcode(w) < 128 && ImmU(w) % 0x1000 == 0
    ensures FormatU(ImmU(w), Rd(w), Opcode(w)) == w
  {
    WordOfFields(w);
    var imm, low := ImmU(w), w % 0x1000;
    UpperOf(w, imm);
  }

  /** Clearing the low twelve bits keeps the fields above them. */
  lemma UpperOf(w: u32, imm: u32)
    requires imm == w - w % 0x1000
    ensures imm / 0x200_0000 == Funct7(w) && imm / 0x10_0000 % 32 == Rs2(w) && imm / 0x8000 % 32 == Rs1(w) && imm / 0x1000 % 8 == Funct3(w)
    ensures imm % 0x1000 == 0
  {
    hide Word;
    var sign, g := Parts(w);
    var f7, rs2, rs1, f3 := Funct7(w), Rs2(w), Rs1(w), Funct3(w);
    hide Funct7, Rs2, Rs1, Funct3, Rd, Opcode;
    WordIs(sign, g, rs2, rs1, f3, Rd(w), Opcode(w), w);
    Division(w, ((f7 * 32 + rs2) * 32 + rs1) * 8 + f3, 0x1000, Rd(w) * 0x80 + Opcode(w));
    Division(imm, ((f7 * 32 + rs2) * 32 + rs1) * 8 + f3, 0x1000, 0);
    Division(((f7 * 32 + rs2) * 32 + rs1) * 8 + f3, (f7 * 32 + rs2) * 32 + rs1, 8, f3);
    Digit(imm, f7 * 32 + rs2, 32, rs1, 0x8000, f3 * 0x1000);
    Digit(imm, f7, 32, rs2, 0x10_0000, rs1 * 0x8000 + f3 * 0x1000);
    Division(imm, f7, 0x200_0000, rs2 * 0x10_0000 + rs1 * 0x8000 + f3 * 0x1000);
  }

  // ---- The parser and the assembler are inverse to each other ----

  lemma ParseOfI(imm: u32, rs1: u32, f3: nat, rd: u32, opc: nat)
    requires rs1 < 32 && f3 < 8 && rd < 32 && opc < 128 && Fits(imm, 0x800)
    ensures var w := FormatI(imm, rs1, f3, rd, opc);
            ImmI(w) == imm && Rs1(w) == rs1 && Funct3(w) == f3 && Rd(w) == rd && Opcode(w) == opc
  {
    hide Word, ImmI, Funct7, Funct3, Rd, Rs1, Rs2, Opcode, Fits;
    ImmediateI(imm, rs1, f3, rd, opc);
    FieldsOfWord(HighBits(imm), imm % 32, rs1, f3, rd, opc);
  }

  lemma ParseOfS(imm: u32, rs2: u32, rs1: u32, f3: nat, opc: nat)
    requires rs2 < 32 && rs1 < 32 && f3 < 8 && opc < 128 && Fits(imm, 0x800)
    ensures var w := FormatS(imm, rs2, rs1, f3, opc);
            ImmS(w) == imm && Rs2(w) == rs2 && Rs1(w) == rs1 && Funct3(w) == f3 && Opcode(w) == opc
  {
    hide Word, ImmS, Funct7, Funct3, Rd, Rs1, Rs2, Opcode, Fits;
    ImmediateS(imm, rs2, rs1, f3, opc);
    FieldsOfWord(HighBits(imm), rs2, rs1, f3, imm % 32, opc);
  }

  lemma ParseOfB(imm: u32, rs2: u32, rs1: u32, f3: nat, opc: nat)
    requires rs2 < 32 && rs1 < 32 && f3 < 8 && opc < 128 && Fits(imm, 0x1000) && imm % 2 == 0
    ensures var w := FormatB(imm, rs2, rs1, f3, opc);
            ImmB(w) == imm && Rs2(w) == rs2 && Rs1(w) == rs1 && Funct3(w) == f3 && Opcode(w) == opc
  {
    hide Word, ImmB, Funct7, Funct3, Rd, Rs1, Rs2, Opcode, Fits;
    ImmediateB(imm, rs2, rs1, f3, opc);
    FieldsOfWord(HighBits(imm), rs2, rs1, f3, imm / 2 % 16 * 2 + imm / 0x800 % 2, opc);
  }

  lemma ParseOfUJ(imm: u32, rd: u32, opc: nat)
    requires rd < 32 && opc < 128
    ensures imm % 0x1000 == 0 ==> var w := FormatU(imm, rd, opc); ImmU(w) == imm && Rd(w) == rd && Opcode(w) == opc
    ensures Fits(imm, 0x10_0000) && imm % 2 == 0 ==>
              var w := FormatJ(imm, rd, opc); ImmJ(w) == imm && Rd(w) == rd && Opcode(w) == opc
  {
    hide Word, ImmU, ImmJ, Funct7, Funct3, Rd, Rs1, Rs2, Opcode, Fits;
    if imm % 0x1000 == 0 {
      ImmediateU(imm, rd, opc);
      FieldsOfWord(imm / 0x200_0000, imm / 0x10_0000 % 32, imm / 0x8000 % 32, imm / 0x1000 % 8, rd, opc);
    }
    if Fits(imm, 0x10_0000) && imm % 2 == 0 {
      ImmediateJ(imm, rd, opc);
      FieldsOfWord(HighBits(imm), imm / 2 % 16 * 2 + imm / 0x800 % 2, imm / 0x8000 % 32, imm / 0x1000 % 8, rd, opc);
    }
  }

  lemma ParseEncodeArithmetic(inst: Inst)
    requires Encodable(inst) && (inst.ALUI? || inst.ALU?)
    ensures Parse(Encode(inst)) == Some(inst)
  {
    hide Word, FormatI, ImmI, Funct7, Funct3, Rd, Rs1, Rs2, Opcode, Fits;
    if inst.ALU? {
      FieldsOfWord(AopHigh(inst.aop), inst.rs2, inst.rs1, AopCode(inst.aop), inst.rd, OPC_ALU);
    } else if IsShift(inst.aop) {
      FieldsOfWord(AopHigh(inst.aop), inst.imm, inst.rs1, AopCode(inst.aop), inst.rd, OPC_ALUI);
    } else {
      ParseOfI(inst.imm, inst.rs1, AopCode(inst.aop), inst.rd, OPC_ALUI);
    }
  }

  /** Parsing the word of any instruction gives the instruction back. */
  lemma ParseEncode(inst: Inst)
    requires Encodable(inst)
    ensures Parse(Encode(inst)) == Some(inst)
  {
    hide Word, FormatI, FormatS, FormatB, FormatU, FormatJ, ImmI, ImmS, ImmB, ImmU, ImmJ, Funct7, Funct3, Rd, Rs1, Rs2, Opcode, Fits;
    match inst
    case LUI(rd, imm) => ParseOfUJ(imm, rd, OPC_LUI);
    case AUIPC(rd, imm) => ParseOfUJ(imm, rd, OPC_AUIPC);
    case JAL(rd, imm) => ParseOfUJ(imm, rd, OPC_JAL);
    case JALR(rd, rs1, imm) => ParseOfI(imm, rs1, 0, rd, OPC_JALR);
    case BR(op, rs1, rs2, imm) => ParseOfB(imm, rs2, rs1, BopCode(op), OPC_BR);
    case LOAD(op, rd, rs1, imm) => ParseOfI(imm, rs1, LopCode(op), rd, OPC_LOAD);
    case STORE(op, rs1, rs2, imm) => ParseOfS(imm, rs2, rs1, SopCode(op), OPC_STORE);
    case ALUI(_, _, _, _) => ParseEncodeArithmetic(inst);
    case ALU(_, _, _, _) => ParseEncodeArithmetic(inst);
    case FENCE => FieldsOfWord(0, 0, 0, 0, 0, OPC_FENCE);
    case ECALL(rd) => SystemWord(0, 0, 0, 0, rd);
    case EBREAK(rd) => SystemWord(0, 1, 0, 0, rd);
    case UNIMP => SystemWord(0x60, 0, 0, 1, 0);
  }

  lemma SystemWord(f7: nat, rs2: nat, rs1: nat, f3: nat, rd: nat)
    requires f7 < 128 && rs2 < 32 && rs1 < 32 && f3 < 8 && rd < 32
    ensures var w := Word(f7, rs2, rs1, f3, rd, OPC_ECALL);
            Opcode(w) == OPC_ECALL && Rd(w) == rd && w / 0x1000 == ((f7 * 32 + rs2) * 32 + rs1) * 8 + f3
  {
    FieldsOfWord(f7, rs2, rs1, f3, rd, OPC_ECALL);
    hide Rd, Opcode;
    Division(Word(f7, rs2, rs1, f3, rd, OPC_ECALL), ((f7 * 32 + rs2) * 32 + rs1) * 8 + f3, 0x1000, rd * 0x80 + OPC_ECALL);
  }

  /** A word that parses is the encoding of what it parses to, so no two words mean the same instruction. Only FENCE and
      UNIMP ignore a part of their words. */
  lemma EncodeParse(w: u32, inst: Inst)
    requires Parse(w) == Some(inst)
    ensures Encodable(inst)
    ensures !inst.FENCE? && !inst.UNIMP? ==> Encode(inst) == w
  {
    hide Word, FormatI, FormatS, FormatB, FormatU, FormatJ, ImmI, ImmS, ImmB, ImmU, ImmJ, Funct7, Funct3, Rd, Rs1, Rs2, Opcode, Fits;
    BuiltI(w);
    BuiltS(w);
    BuiltB(w);
    BuiltU(w);
    BuiltJ(w);
    WordOfFields(w);
    if Opcode(w) == OPC_ECALL {
      SystemFields(w);
    }
  }

  lemma SystemFields(w: u32)
    requires Opcode(w) == OPC_ECALL
    ensures w / 0x1000 == 0 ==> w == Word(0, 0, 0, 0, Rd(w), OPC_ECALL)
    ensures w / 0x1000 == 0x100 ==> w == Word(0, 1, 0, 0, Rd(w), OPC_ECALL)
  {
    WordOfFields(w);
    hide Rd, Rs1, Rs2, Funct3, Funct7;
    SystemWord(Funct7(w), Rs2(w), Rs1(w), Funct3(w), Rd(w));
  }

  // ---- Decoding a word in memory ----

  /** Every word that parses has the low bits of a four-byte encoding, so the size check rejects nothing more. */
  lemma ParsedIsFourBytes(w: u32)
    requires Parse(w).Some?
    ensures w % 4 == 3 && w % 32 != 31
  {
    hide Funct7, Funct3, Rd, Rs1, Rs2, ImmI, ImmS, ImmB, ImmU, ImmJ, ImmA, Bop, Lop, Sop, Aop, Aopi;
    var q, opc := w / 0x80, w % 0x80;
    Division(w, q * 4 + opc / 32, 32, opc % 32);
    Division(w, q * 32 + opc / 4, 4, opc % 4);
  }

  /** Decoding fails exactly on the words that do not parse, and means what they parse to - except that the plain ECALL
      and EBREAK are given the register 10. */
  lemma DecodeIsParse(w: u32)
    ensures Decode(w).None? <==> Parse(w).None?
    ensures Parse(w).Some? ==>
              var (word, inst) := Decode(w).value;
              && Parse(word) == Some(inst)
              && inst == (match Parse(w).value
                          case ECALL(rd) => ECALL(if rd == 0 then 10 else rd)
                          case EBREAK(rd) => EBREAK(if rd == 0 then 10 else rd)
                          case other => other)
              && (inst == Parse(w).value ==> word == w)
  {
    hide Parse, Translate;
    SystemRegister(w);
    TranslatedSystemCalls(w);
    if Parse(w).Some? {
      ParsedIsFourBytes(w);
    }
  }

  lemma TranslatedSystemCalls(w: u32)
    ensures Translate(w) == if w == 0x73 then 0x573 else if w == 0x00100073 then 0x00100573 else w
    ensures Parse(0x573) == Some(ECALL(10)) && Parse(0x00100573) == Some(EBREAK(10))
  {
    hide Parse;
    SystemCalls(10);
  }

  lemma SystemRegister(w: u32)
    ensures Parse(w) == Some(ECALL(0)) <==> w == 0x73
    ensures Parse(w) == Some(EBREAK(0)) <==> w == 0x00100073
  {
    SystemCalls(0);
    if Parse(w) == Some(ECALL(0)) || Parse(w) == Some(EBREAK(0)) {
      EncodeParse(w, Parse(w).value);
    }
  }

  lemma SystemCalls(rd: u32)
    requires rd < 32
    ensures Encode(ECALL(rd)) == rd * 0x80 + 0x73 && Parse(rd * 0x80 + 0x73) == Some(ECALL(rd))
    ensures Encode(EBREAK(rd)) == rd * 0x80 + 0x00100073 && Parse(rd * 0x80 + 0x00100073) == Some(EBREAK(rd))
  {
    hide Parse;
    ParseEncode(ECALL(rd));
    ParseEncode(EBREAK(rd));
  }
}
