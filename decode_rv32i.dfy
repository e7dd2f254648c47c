/** The decoder of utilities/decode_rv32i.py as it is written: it renders the
    word as 32 binary digits, slices the fields out of that text, evaluates one
    predicate per mnemonic by comparing slices with string literals, scans a
    fixed list of 25 predicates for the first true one and reports the operands
    of the instruction's category. */
module DecodeRv32i {
  import opened BinaryText
  import opened Rv32iReference

  /** The fields as sliced from the binary text. `bits31To30` is the slice the
      store predicate checks inline. */
  datatype Slices = Slices(
    shamt: string, imm12: string, rd: string, funct3: string, opcode: string,
    imm7: string, funct7: string, imm5: string, rs1: string, rs2: string,
    bits31To30: string)

  /** Bits hi..lo of the word whose 32-digit binary text is `text`, as the
      source slices them: `text[32 - hi - 1:32 - lo]`. */
  function Bits(text: string, hi: nat, lo: nat): string
    requires lo <= hi < |text| == 32
  {
    text[32 - hi - 1..32 - lo]
  }

  predicate WellFormed(s: Slices) {
    && |s.shamt| == 5 && IsBinary(s.shamt)
    && |s.imm12| == 12 && IsBinary(s.imm12)
    && |s.rd| == 5 && IsBinary(s.rd)
    && |s.funct3| == 3 && IsBinary(s.funct3)
    && |s.opcode| == 7 && IsBinary(s.opcode)
    && |s.imm7| == 7 && IsBinary(s.imm7)
    && |s.funct7| == 7 && IsBinary(s.funct7)
    && |s.imm5| == 5 && IsBinary(s.imm5)
    && |s.rs1| == 5 && IsBinary(s.rs1)
    && |s.rs2| == 5 && IsBinary(s.rs2)
    && |s.bits31To30| == 2 && IsBinary(s.bits31To30)
  }

  /** Every slice of binary text is binary text. */
  lemma SlicesAreBinary(text: string)
    requires |text| == 32 && IsBinary(text)
    ensures forall hi: nat, lo: nat | lo <= hi < 32 :: IsBinary(Bits(text, hi, lo))
  {
  }

  lemma PowersOfTwo()
    ensures Pow2(0) == 1 && Pow2(2) == 4 && Pow2(3) == 8 && Pow2(5) == 32 && Pow2(7) == 128
    ensures Pow2(12) == 4096 && Pow2(15) == 32768 && Pow2(20) == 1048576
    ensures Pow2(25) == 33554432 && Pow2(30) == 1073741824
  {
  }

  /** A slice of a word's text denotes the bits it names. */
  lemma BitsValue(w: Word, hi: nat, lo: nat)
    requires lo <= hi < 32
    ensures FromBinary(Bits(ToBinary(w, 32), hi, lo)) == (w / Pow2(lo)) % Pow2(hi - lo + 1)
  {
    FieldText(w, 32, hi, lo);
  }

  /** The slices of the low 25 bits denote the register and function fields. */
  lemma LowFieldValues(w: Word)
    ensures FromBinary(Bits(ToBinary(w, 32), 6, 0)) == Opcode(w)
    ensures FromBinary(Bits(ToBinary(w, 32), 11, 7)) == Rd(w)
    ensures FromBinary(Bits(ToBinary(w, 32), 14, 12)) == Funct3(w)
    ensures FromBinary(Bits(ToBinary(w, 32), 19, 15)) == Rs1(w)
    ensures FromBinary(Bits(ToBinary(w, 32), 24, 20)) == Rs2(w)
  {
    var text := ToBinary(w, 32);
    assert FromBinary(Bits(text, 6, 0)) == Opcode(w) by {
      BitsValue(w, 6, 0);
      PowersOfTwo();
    }
    assert FromBinary(Bits(text, 11, 7)) == Rd(w) by {
      BitsValue(w, 11, 7);
      PowersOfTwo();
    }
    assert FromBinary(Bits(text, 14, 12)) == Funct3(w) by {
      BitsValue(w, 14, 12);
      PowersOfTwo();
    }
    assert FromBinary(Bits(text, 19, 15)) == Rs1(w) by {
      BitsValue(w, 19, 15);
      PowersOfTwo();
    }
    assert FromBinary(Bits(text, 24, 20)) == Rs2(w) by {
      BitsValue(w, 24, 20);
      PowersOfTwo();
    }
  }

  /** The slices that reach bit 31 denote the top bits of the word. */
  lemma HighFieldValues(w: Word)
    ensures FromBinary(Bits(ToBinary(w, 32), 31, 25)) == Funct7(w)
    ensures FromBinary(Bits(ToBinary(w, 32), 31, 20)) == ImmI(w)
    ensures FromBinary(Bits(ToBinary(w, 32), 31, 30)) == Bits31To30(w)
  {
    var text := ToBinary(w, 32);
    assert FromBinary(Bits(text, 31, 25)) == Funct7(w) by {
      BitsValue(w, 31, 25);
      PowersOfTwo();
      SmallRemainder(Funct7(w), 128);
    }
    assert FromBinary(Bits(text, 31, 20)) == ImmI(w) by {
      BitsValue(w, 31, 20);
      PowersOfTwo();
      SmallRemainder(ImmI(w), 4096);
    }
    assert FromBinary(Bits(text, 31, 30)) == Bits31To30(w) by {
      BitsValue(w, 31, 30);
      PowersOfTwo();
      SmallRemainder(Bits31To30(w), 4);
    }
  }

  /** The field slices of a 32-digit binary text, as the decoder cuts them. */
  function SlicesOf(text: string): Slices
    requires |text| == 32
  {
    Slices(
      shamt := Bits(text, 24, 20),
      imm12 := Bits(text, 31, 20),
      rd := Bits(text, 11, 7),
      funct3 := Bits(text, 14, 12),
      opcode := Bits(text, 6, 0),
      imm7 := Bits(text, 31, 25),
      funct7 := Bits(text, 31, 25),
      imm5 := Bits(text, 11, 7),
      rs1 := Bits(text, 19, 15),
      rs2 := Bits(text, 24, 20),
      bits31To30 := Bits(text, 31, 30))
  }

  /** The slices of binary text have the field widths and are binary text. */
  lemma SlicesOfWellFormed(text: string)
    requires |text| == 32 && IsBinary(text)
    ensures WellFormed(SlicesOf(text))
  {
    SlicesAreBinary(text);
  }

  /** The value of each slice of a word's 32-digit text is the corresponding
      numeric bit field. */
  lemma SlicesOfValues(w: Word)
    ensures var s := SlicesOf(ToBinary(w, 32));
      && FromBinary(s.opcode) == Opcode(w)
      && FromBinary(s.rd) == FromBinary(s.imm5) == Rd(w)
      && FromBinary(s.funct3) == Funct3(w)
      && FromBinary(s.rs1) == Rs1(w)
      && FromBinary(s.rs2) == FromBinary(s.shamt) == Rs2(w)
      && FromBinary(s.funct7) == FromBinary(s.imm7) == Funct7(w)
      && FromBinary(s.imm12) == ImmI(w)
      && FromBinary(s.bits31To30) == Bits31To30(w)
      && FromBinary(s.imm7 + s.imm5) == Funct7(w) * 32 + Rd(w)
  {
    var text := ToBinary(w, 32);
    LowFieldValues(w);
    HighFieldValues(w);
    FromBinaryConcat(Bits(text, 31, 25), Bits(text, 11, 7));
    assert Pow2(5) == 32;
  }

  /** The field slices of a word. Each slice is the binary text of the bits it
      names, so converting it gives that bit field's value; imm7 and imm5
      concatenated give funct7 above rd. */
  function SliceFields(w: Word): (s: Slices)
    ensures WellFormed(s)
    ensures FromBinary(s.opcode) == Opcode(w)
    ensures FromBinary(s.rd) == FromBinary(s.imm5) == Rd(w)
    ensures FromBinary(s.funct3) == Funct3(w)
    ensures FromBinary(s.rs1) == Rs1(w)
    ensures FromBinary(s.rs2) == FromBinary(s.shamt) == Rs2(w)
    ensures FromBinary(s.funct7) == FromBinary(s.imm7) == Funct7(w)
    ensures FromBinary(s.imm12) == ImmI(w)
    ensures FromBinary(s.bits31To30) == Bits31To30(w)
    ensures FromBinary(s.imm7 + s.imm5) == Funct7(w) * 32 + Rd(w)
  {
    SlicesOfWellFormed(ToBinary(w, 32));
    SlicesOfValues(w);
    SlicesOf(ToBinary(w, 32))
  }

  /** The predicate the decoder computes for mnemonic `m`. */
  predicate Flag(m: Mnemonic, s: Slices) {
    match m
    // I-type computational instructions
    case ANDI => s.funct3 == "111" && s.opcode == "0010011"
    case SLTIU => s.funct3 == "011" && s.opcode == "0010011"
    case SRLI => s.funct3 == "101" && s.opcode == "0010011" && s.funct7 == "0000000"
    case SLTI => s.funct3 == "010" && s.opcode == "0010011"
    case SRAI => s.funct3 == "101" && s.opcode == "0010011" && s.funct7 == "0100000"
    case SLLI => s.funct3 == "001" && s.opcode == "0010011" && s.funct7 == "0000000"
    case ORI => s.funct3 == "110" && s.opcode == "0010011"
    case XORI => s.funct3 == "100" && s.opcode == "0010011"
    case ADDI => s.funct3 == "000" && s.opcode == "0010011"
    // LW: the check of bits 31..30 is disabled in the source
    case LW => s.funct3 == "010" && s.opcode == "0000011" && s.rs1 == "00000"
    // R-type instructions, including the multiplications of the M extension
    case AND => s.funct3 == "111" && s.opcode == "0110011" && s.funct7 == "0000000"
    case SLTU => s.funct3 == "011" && s.opcode == "0110011" && s.funct7 == "0000000"
    case MULH => s.funct3 == "001" && s.opcode == "0110011" && s.funct7 == "0000001"
    case SRA => s.funct3 == "101" && s.opcode == "0110011" && s.funct7 == "0100000"
    case XOR => s.funct3 == "100" && s.opcode == "0110011" && s.funct7 == "0000000"
    case SUB => s.funct3 == "000" && s.opcode == "0110011" && s.funct7 == "0100000"
    case SLT => s.funct3 == "010" && s.opcode == "0110011" && s.funct7 == "0000000"
    case MULHSU => s.funct3 == "010" && s.opcode == "0110011" && s.funct7 == "0000001"
    case MULHU => s.funct3 == "011" && s.opcode == "0110011" && s.funct7 == "0000001"
    case SRL => s.funct3 == "101" && s.opcode == "0110011" && s.funct7 == "0000000"
    case SLL => s.funct3 == "001" && s.opcode == "0110011" && s.funct7 == "0000000"
    case ADD => s.funct3 == "000" && s.opcode == "0110011" && s.funct7 == "0000000"
    case MUL => s.funct3 == "000" && s.opcode == "0110011" && s.funct7 == "0000001"
    case OR => s.funct3 == "110" && s.opcode == "0110011" && s.funct7 == "0000000"
    // SW: bits 31..30 must be clear
    case SW => s.bits31To30 == "00" && s.funct3 == "010" && s.opcode == "0100011" && s.rs1 == "00000"
    case NOP => s.opcode == "1111111"
  }

  /** Some I-type computational predicate holds. */
  predicate AllowedI(s: Slices) {
    Flag(ANDI, s) || Flag(SLTIU, s) || Flag(SRLI, s) || Flag(SLTI, s) || Flag(SRAI, s)
    || Flag(SLLI, s) || Flag(ORI, s) || Flag(XORI, s) || Flag(ADDI, s)
  }

  /** Some R-type predicate holds. */
  predicate AllowedR(s: Slices) {
    Flag(AND, s) || Flag(SLTU, s) || Flag(MULH, s) || Flag(SRA, s) || Flag(XOR, s)
    || Flag(SUB, s) || Flag(SLT, s) || Flag(MULHSU, s) || Flag(MULHU, s) || Flag(SRL, s)
    || Flag(SLL, s) || Flag(ADD, s) || Flag(MUL, s) || Flag(OR, s)
  }

  /** The mnemonics the decoder scans, in scan order. NOP is not among them. */
  const AssemblyOps: seq<Mnemonic> :=
    [ANDI, SLTIU, SRLI, SLTI, SRAI, SLLI, ORI, XORI,
     ADDI, LW, AND, SLTU, MULH, SRA, XOR, SUB,
     SLT, MULHSU, MULHU, SRL, SLL, ADD, MUL, OR,
     SW]

  /** The first mnemonic of `ops` whose predicate holds. */
  function FirstFlag(ops: seq<Mnemonic>, s: Slices): (r: Option<Mnemonic>)
    ensures r.None? <==> forall m | m in ops :: !Flag(m, s)
    ensures r.Some? ==> r.value in ops && Flag(r.value, s)
  {
    if ops == [] then None
    else if Flag(ops[0], s) then Some(ops[0])
    else FirstFlag(ops[1..], s)
  }

  /** The scan stops at the first position whose predicate holds. */
  lemma {:induction false} FirstFlagAt(ops: seq<Mnemonic>, s: Slices, i: nat)
    requires i < |ops| && Flag(ops[i], s)
    requires forall j | 0 <= j < i :: !Flag(ops[j], s)
    ensures FirstFlag(ops, s) == Some(ops[i])
  {
    if i > 0 {
      FirstFlagAt(ops[1..], s, i - 1);
    }
  }

  /** The report for mnemonic `op`, chosen by which category of predicates
      holds. The last branch prints the same diagnostic as a failed match. */
  function Shape(op: Mnemonic, s: Slices): Decoded {
    if AllowedI(s) then
      if Flag(SLLI, s) || Flag(SRLI, s) || Flag(SRAI, s) then
        ImmShift(op, FromBinary(s.rd), FromBinary(s.rs1), FromBinary(s.shamt))
      else
        ImmArith(op, FromBinary(s.rd), FromBinary(s.rs1), FromBinary(s.imm12))
    else if AllowedR(s) then
      RegReg(op, FromBinary(s.rd), FromBinary(s.rs1), FromBinary(s.rs2))
    else if Flag(LW, s) then
      Load(op, FromBinary(s.rd), FromBinary(s.rs1), FromBinary(s.imm12))
    else if Flag(SW, s) then
      Store(op, FromBinary(s.rs2), FromBinary(s.rs1), FromBinary(s.imm7 + s.imm5))
    else if Flag(NOP, s) then
      NoOperand(op)
    else
      Invalid
  }

  /** What the decoder reports for a word. */
  function Decode(w: Word): Decoded {
    var s := SliceFields(w);
    match FirstFlag(AssemblyOps, s)
    case None => Invalid
    case Some(op) => Shape(op, s)
  }

  /** The decoder itself: slice, scan the predicates in order and stop at the
      first that holds, then report the operands. */
  method DecodeWord(w: Word) returns (d: Decoded)
    ensures d == Decode(w)
  {
    var s := SliceFields(w);
    var asmOp: Option<Mnemonic> := None;
    for i := 0 to |AssemblyOps|
      invariant asmOp.None? ==> forall j | 0 <= j < i :: !Flag(AssemblyOps[j], s)
    {
      if Flag(AssemblyOps[i], s) {
        FirstFlagAt(AssemblyOps, s, i);
        asmOp := Some(AssemblyOps[i]);
        break;
      }
    }
    if asmOp.None? {
      return Invalid;
    }
    d := Shape(asmOp.value, s);
  }
}
