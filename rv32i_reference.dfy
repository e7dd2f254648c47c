/** The RV32I subset the decoder recognises, stated directly in terms of the
    instruction word's numeric bit fields (section 2.2, "Base Instruction
    Formats", of the RISC-V Unprivileged ISA Specification, Volume I). This is
    the reference the string-based decoder is proved against: one exhaustive
    match over opcode, funct3 and funct7 with the decoder's extra guards. */
module Rv32iReference {

  /** An instruction word: any 32-bit unsigned value. */
  type Word = w: nat | w < 0x1_0000_0000

  datatype Option<T> = None | Some(value: T)

  /** The mnemonics the decoder has a predicate for. NOP has a predicate but is
      not among the mnemonics the decoder scans. */
  datatype Mnemonic =
    | ANDI | SLTIU | SRLI | SLTI | SRAI | SLLI | ORI | XORI | ADDI
    | LW
    | AND | SLTU | MULH | SRA | XOR | SUB | SLT | MULHSU | MULHU | SRL | SLL | ADD | MUL | OR
    | SW
    | NOP

  /** The operand shape a mnemonic is reported with. */
  datatype Format = IType | RType | LoadType | StoreType | NoOperands

  /** A decoded instruction. Immediates are the raw unsigned field values; they
      are never sign-extended. */
  datatype Decoded =
    | Invalid
    | ImmShift(op: Mnemonic, dst: nat, src: nat, shamt: nat)
    | ImmArith(op: Mnemonic, dst: nat, src: nat, imm: nat)
    | RegReg(op: Mnemonic, dst: nat, src1: nat, src2: nat)
    | Load(op: Mnemonic, dst: nat, base: nat, offset: nat)
    | Store(op: Mnemonic, src: nat, base: nat, offset: nat)
    | NoOperand(op: Mnemonic)

  function FormatOf(m: Mnemonic): Format {
    match m
    case ANDI | SLTIU | SRLI | SLTI | SRAI | SLLI | ORI | XORI | ADDI => IType
    case LW => LoadType
    case SW => StoreType
    case NOP => NoOperands
    case _ => RType
  }

  predicate IsShift(m: Mnemonic) {
    m == SLLI || m == SRLI || m == SRAI
  }

  // The bit fields of a word, as numbers.

  /** bits 6..0 */
  function Opcode(w: Word): (r: nat)
    ensures r < 128
  {
    w % 128
  }

  /** bits 11..7: the destination register, and the low part of a store offset */
  function Rd(w: Word): (r: nat)
    ensures r < 32
  {
    (w / 128) % 32
  }

  /** bits 14..12 */
  function Funct3(w: Word): (r: nat)
    ensures r < 8
  {
    (w / 4096) % 8
  }

  /** bits 19..15 */
  function Rs1(w: Word): (r: nat)
    ensures r < 32
  {
    (w / 32768) % 32
  }

  /** bits 24..20: the second source register, and the shift amount */
  function Rs2(w: Word): (r: nat)
    ensures r < 32
  {
    (w / 1048576) % 32
  }

  /** bits 31..25: funct7, and the high part of a store offset */
  function Funct7(w: Word): (r: nat)
    ensures r < 128
  {
    w / 33554432
  }

  /** bits 31..20: the I-type immediate, unsigned */
  function ImmI(w: Word): (r: nat)
    ensures r < 4096
  {
    w / 1048576
  }

  /** bits 31..30 */
  function Bits31To30(w: Word): (r: nat)
    ensures r < 4
  {
    w / 1073741824
  }

  /** The mnemonic a word encodes within the supported subset, if any. LW and
      SW are only recognised with base register zero, and SW (but not LW) also
      needs bits 31..30 clear. An opcode of 0x7F (the NOP encoding) is not
      recognised. */
  function ReferenceMnemonic(w: Word): Option<Mnemonic> {
    var opcode, funct3, funct7 := Opcode(w), Funct3(w), Funct7(w);
    if opcode == 0x13 then
      if funct3 == 0 then Some(ADDI)
      else if funct3 == 1 then (if funct7 == 0 then Some(SLLI) else None)
      else if funct3 == 2 then Some(SLTI)
      else if funct3 == 3 then Some(SLTIU)
      else if funct3 == 4 then Some(XORI)
      else if funct3 == 5 then
        (if funct7 == 0 then Some(SRLI) else if funct7 == 0x20 then Some(SRAI) else None)
      else if funct3 == 6 then Some(ORI)
      else Some(ANDI)
    else if opcode == 0x03 then
      if funct3 == 2 && Rs1(w) == 0 then Some(LW) else None
    else if opcode == 0x23 then
      if funct3 == 2 && Rs1(w) == 0 && Bits31To30(w) == 0 then Some(SW) else None
    else if opcode == 0x33 then
      if funct7 == 0 then
        if funct3 == 0 then Some(ADD)
        else if funct3 == 1 then Some(SLL)
        else if funct3 == 2 then Some(SLT)
        else if funct3 == 3 then Some(SLTU)
        else if funct3 == 4 then Some(XOR)
        else if funct3 == 5 then Some(SRL)
        else if funct3 == 6 then Some(OR)
        else Some(AND)
      else if funct7 == 0x20 then
        if funct3 == 0 then Some(SUB) else if funct3 == 5 then Some(SRA) else None
      else if funct7 == 1 then
        if funct3 == 0 then Some(MUL)
        else if funct3 == 1 then Some(MULH)
        else if funct3 == 2 then Some(MULHSU)
        else if funct3 == 3 then Some(MULHU)
        else None
      else None
    else None
  }

  /** The operands of mnemonic `m` in word `w`, by the mnemonic's format. A
      store offset is funct7 above rd: the 12-bit S-type immediate. */
  function Operands(m: Mnemonic, w: Word): Decoded {
    match FormatOf(m)
    case IType =>
      if IsShift(m) then ImmShift(m, Rd(w), Rs1(w), Rs2(w)) else ImmArith(m, Rd(w), Rs1(w), ImmI(w))
    case RType => RegReg(m, Rd(w), Rs1(w), Rs2(w))
    case LoadType => Load(m, Rd(w), Rs1(w), ImmI(w))
    case StoreType => Store(m, Rs2(w), Rs1(w), Funct7(w) * 32 + Rd(w))
    case NoOperands => NoOperand(m)
  }

  function ReferenceDecode(w: Word): Decoded {
    match ReferenceMnemonic(w)
    case None => Invalid
    case Some(m) => Operands(m, w)
  }

  // Facts about the reference alone; the decoder inherits them through
  // DecodeProperties.DecodeAgreesWithReference.

  /** A word is invalid exactly when no mnemonic is recognised; NOP and the
      operand-less shape are never produced. */
  lemma ReferenceInvalid(w: Word)
    ensures ReferenceDecode(w) == Invalid <==> ReferenceMnemonic(w) == None
    ensures ReferenceMnemonic(w) != Some(NOP) && !ReferenceDecode(w).NoOperand?
    ensures Opcode(w) == 0x7F ==> ReferenceDecode(w) == Invalid
  {
  }

  /** A recognised word is reported with the operands of its mnemonic. */
  lemma ReferenceOperands(w: Word)
    ensures ReferenceMnemonic(w).Some? ==> ReferenceDecode(w) == Operands(ReferenceMnemonic(w).value, w)
    ensures ReferenceDecode(w) != Invalid ==> ReferenceMnemonic(w) == Some(ReferenceDecode(w).op)
  {
  }

  /** LW: opcode 0x03, funct3 2, rs1 0; bits 31..30 are not looked at. */
  lemma ReferenceLoadWord(w: Word)
    ensures ReferenceDecode(w).Load? <==> Opcode(w) == 0x03 && Funct3(w) == 2 && Rs1(w) == 0
    ensures ReferenceDecode(w).Load? ==> ReferenceDecode(w) == Load(LW, Rd(w), 0, ImmI(w))
  {
  }

  /** SW: opcode 0x23, funct3 2, rs1 0 and bits 31..30 clear. */
  lemma ReferenceStoreWord(w: Word)
    ensures ReferenceDecode(w).Store? <==>
      Opcode(w) == 0x23 && Funct3(w) == 2 && Rs1(w) == 0 && Bits31To30(w) == 0
    ensures ReferenceDecode(w).Store? ==>
      ReferenceDecode(w) == Store(SW, Rs2(w), 0, Funct7(w) * 32 + Rd(w))
    ensures ReferenceDecode(w).Store? ==> ReferenceDecode(w).offset < 1024
  {
  }

  /** I-type computational words: shifts and the unsigned immediate. */
  lemma ReferenceImmediate(w: Word)
    requires Opcode(w) == 0x13
    ensures Funct3(w) == 1 ==>
      ReferenceDecode(w) == if Funct7(w) == 0 then ImmShift(SLLI, Rd(w), Rs1(w), Rs2(w)) else Invalid
    ensures Funct3(w) == 5 ==>
      ReferenceDecode(w) ==
        if Funct7(w) == 0 then ImmShift(SRLI, Rd(w), Rs1(w), Rs2(w))
        else if Funct7(w) == 0x20 then ImmShift(SRAI, Rd(w), Rs1(w), Rs2(w))
        else Invalid
    ensures Funct3(w) != 1 && Funct3(w) != 5 ==>
      ReferenceDecode(w).ImmArith?
      && ReferenceDecode(w) == ImmArith(ReferenceDecode(w).op, Rd(w), Rs1(w), ImmI(w))
  {
  }

  /** R-type words: the funct7/funct3 pairs that are recognised. */
  lemma ReferenceRegister(w: Word)
    requires Opcode(w) == 0x33
    ensures ReferenceDecode(w) == Invalid <==>
      !(|| Funct7(w) == 0
        || (Funct7(w) == 0x20 && (Funct3(w) == 0 || Funct3(w) == 5))
        || (Funct7(w) == 1 && Funct3(w) < 4))
    ensures ReferenceDecode(w) != Invalid ==>
      ReferenceDecode(w).RegReg?
      && ReferenceDecode(w) == RegReg(ReferenceDecode(w).op, Rd(w), Rs1(w), Rs2(w))
  {
    if Funct7(w) == 0 {
    } else if Funct7(w) == 0x20 {
    } else if Funct7(w) == 1 {
    }
  }

  // Concrete words, for the reference. DecodeProperties.DriverWordsDecoded and
  // DecodeProperties.EdgeWordsDecoded state them for the decoder.

  /** The first and third words the decoder's driver feeds it: loads with
      base register zero. */
  lemma DriverLoads()
    ensures ReferenceDecode(0x02802603) == Load(LW, 12, 0, 40)
    ensures ReferenceDecode(0x06802e03) == Load(LW, 28, 0, 104)
  {
  }

  /** The second word the decoder's driver feeds it: a store whose offset
      is split between bits 31..25 and bits 11..7. */
  lemma DriverStore()
    ensures ReferenceDecode(0x06402423) == Store(SW, 4, 0, 104)
  {
  }

  /** The last two words the decoder's driver feeds it: the arithmetic right
      shift is told apart from the logical one by bit 30 alone, and the word
      0x5413 is a logical right shift, not a left shift. */
  lemma ShiftWords()
    ensures ReferenceDecode(0x40005413) == ImmShift(SRAI, 8, 0, 0)
    ensures ReferenceDecode(0x5413) == ImmShift(SRLI, 8, 0, 0)
  {
  }

  /** An undefined R-type combination is invalid; LW accepts set bits 31..30
      where SW rejects them; an all-ones immediate is 4095, not -1. */
  lemma EdgeWords()
    ensures ReferenceDecode(0x04000033) == Invalid
    ensures ReferenceDecode(0xC0002003) == Load(LW, 0, 0, 3072)
    ensures ReferenceDecode(0xC0002023) == Invalid
    ensures ReferenceDecode(0xFFF00013) == ImmArith(ADDI, 0, 0, 4095)
  {
  }
}
