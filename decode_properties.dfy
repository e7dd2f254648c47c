/** What the decoder of utilities/decode_rv32i.py promises, proved about its
    model: each predicate means exactly its ISA table row, the predicates
    exclude each other so the scan order does not matter, the decoder agrees
    with the numeric reference decoder, and the quirks of the source (NOP never
    decoded, LW and SW checking different bits, unsigned immediates). */
module DecodeProperties {
  import opened BinaryText
  import opened Rv32iReference
  import opened DecodeRv32i

  /** A slice equals a string literal exactly when its value is the literal's value. */
  lemma LiteralField(field: string, value: nat, lit: string, k: nat)
    requires IsBinary(field) && |field| == |lit| && FromBinary(field) == value
    requires k < Pow2(|lit|) && lit == ToBinary(k, |lit|)
    ensures field == lit <==> value == k
  {
    BinaryEqualIff(field, lit);
    FromToBinary(k, |lit|);
    SmallRemainder(k, Pow2(|lit|));
  }

  // The string literals the predicates use are the binary renderings of
  // the field values they stand for.

  lemma IArithOpcodeRendering()
    ensures ToBinary(0x13, 7) == "0010011"
  {
  }

  lemma LoadOpcodeRendering()
    ensures ToBinary(0x03, 7) == "0000011"
  {
  }

  lemma StoreOpcodeRendering()
    ensures ToBinary(0x23, 7) == "0100011"
  {
  }

  lemma RegRegOpcodeRendering()
    ensures ToBinary(0x33, 7) == "0110011"
  {
  }

  lemma NopOpcodeRendering()
    ensures ToBinary(0x7F, 7) == "1111111"
  {
  }

  lemma Funct3Renderings()
    ensures ToBinary(0, 3) == "000" && ToBinary(1, 3) == "001" && ToBinary(2, 3) == "010"
    ensures ToBinary(3, 3) == "011" && ToBinary(4, 3) == "100" && ToBinary(5, 3) == "101"
    ensures ToBinary(6, 3) == "110" && ToBinary(7, 3) == "111"
  {
  }

  lemma Funct7Renderings()
    ensures ToBinary(0, 7) == "0000000" && ToBinary(0x20, 7) == "0100000"
    ensures ToBinary(1, 7) == "0000001"
    ensures ToBinary(0, 5) == "00000" && ToBinary(0, 2) == "00"
  {
  }

  lemma OpcodeLiterals(w: Word)
    ensures var s := SliceFields(w);
      && (s.opcode == "0010011" <==> Opcode(w) == 0x13)
      && (s.opcode == "0000011" <==> Opcode(w) == 0x03)
      && (s.opcode == "0100011" <==> Opcode(w) == 0x23)
      && (s.opcode == "0110011" <==> Opcode(w) == 0x33)
      && (s.opcode == "1111111" <==> Opcode(w) == 0x7F)
  {
    var s := SliceFields(w);
    assert s.opcode == "0010011" <==> Opcode(w) == 0x13 by {
      assert Pow2(7) == 128;
      IArithOpcodeRendering();
      LiteralField(s.opcode, Opcode(w), "0010011", 0x13);
    }
    assert s.opcode == "0000011" <==> Opcode(w) == 0x03 by {
      assert Pow2(7) == 128;
      LoadOpcodeRendering();
      LiteralField(s.opcode, Opcode(w), "0000011", 0x03);
    }
    assert s.opcode == "0100011" <==> Opcode(w) == 0x23 by {
      assert Pow2(7) == 128;
      StoreOpcodeRendering();
      LiteralField(s.opcode, Opcode(w), "0100011", 0x23);
    }
    assert s.opcode == "0110011" <==> Opcode(w) == 0x33 by {
      assert Pow2(7) == 128;
      RegRegOpcodeRendering();
      LiteralField(s.opcode, Opcode(w), "0110011", 0x33);
    }
    assert s.opcode == "1111111" <==> Opcode(w) == 0x7F by {
      assert Pow2(7) == 128;
      NopOpcodeRendering();
      LiteralField(s.opcode, Opcode(w), "1111111", 0x7F);
    }
  }

  lemma Funct3Literals(w: Word)
    ensures var s := SliceFields(w);
      && (s.funct3 == "000" <==> Funct3(w) == 0)
      && (s.funct3 == "001" <==> Funct3(w) == 1)
      && (s.funct3 == "010" <==> Funct3(w) == 2)
      && (s.funct3 == "011" <==> Funct3(w) == 3)
      && (s.funct3 == "100" <==> Funct3(w) == 4)
      && (s.funct3 == "101" <==> Funct3(w) == 5)
      && (s.funct3 == "110" <==> Funct3(w) == 6)
      && (s.funct3 == "111" <==> Funct3(w) == 7)
  {
    var s := SliceFields(w);
    Funct3Renderings();
    assert Pow2(3) == 8;
    assert s.funct3 == "000" <==> Funct3(w) == 0 by {
      LiteralField(s.funct3, Funct3(w), "000", 0);
    }
    assert s.funct3 == "001" <==> Funct3(w) == 1 by {
      LiteralField(s.funct3, Funct3(w), "001", 1);
    }
    assert s.funct3 == "010" <==> Funct3(w) == 2 by {
      LiteralField(s.funct3, Funct3(w), "010", 2);
    }
    assert s.funct3 == "011" <==> Funct3(w) == 3 by {
      LiteralField(s.funct3, Funct3(w), "011", 3);
    }
    assert s.funct3 == "100" <==> Funct3(w) == 4 by {
      LiteralField(s.funct3, Funct3(w), "100", 4);
    }
    assert s.funct3 == "101" <==> Funct3(w) == 5 by {
      LiteralField(s.funct3, Funct3(w), "101", 5);
    }
    assert s.funct3 == "110" <==> Funct3(w) == 6 by {
      LiteralField(s.funct3, Funct3(w), "110", 6);
    }
    assert s.funct3 == "111" <==> Funct3(w) == 7 by {
      LiteralField(s.funct3, Funct3(w), "111", 7);
    }
  }

  lemma Funct7Literals(w: Word)
    ensures var s := SliceFields(w);
      && (s.funct7 == "0000000" <==> Funct7(w) == 0)
      && (s.funct7 == "0100000" <==> Funct7(w) == 0x20)
      && (s.funct7 == "0000001" <==> Funct7(w) == 1)
  {
    var s := SliceFields(w);
    Funct7Renderings();
    assert Pow2(7) == 128;
    assert s.funct7 == "0000000" <==> Funct7(w) == 0 by {
      LiteralField(s.funct7, Funct7(w), "0000000", 0);
    }
    assert s.funct7 == "0100000" <==> Funct7(w) == 0x20 by {
      LiteralField(s.funct7, Funct7(w), "0100000", 0x20);
    }
    assert s.funct7 == "0000001" <==> Funct7(w) == 1 by {
      LiteralField(s.funct7, Funct7(w), "0000001", 1);
    }
  }

  lemma ZeroLiterals(w: Word)
    ensures var s := SliceFields(w);
      && (s.rs1 == "00000" <==> Rs1(w) == 0)
      && (s.bits31To30 == "00" <==> Bits31To30(w) == 0)
  {
    var s := SliceFields(w);
    Funct7Renderings();
    assert Pow2(2) == 4 && Pow2(5) == 32;
    assert s.rs1 == "00000" <==> Rs1(w) == 0 by {
      LiteralField(s.rs1, Rs1(w), "00000", 0);
    }
    assert s.bits31To30 == "00" <==> Bits31To30(w) == 0 by {
      LiteralField(s.bits31To30, Bits31To30(w), "00", 0);
    }
  }

  /** The literal comparisons the predicates make, each matched with the
      numeric test it amounts to. */
  predicate LiteralsMatch(s: Slices, w: Word) {
    && (s.opcode == "0010011" <==> Opcode(w) == 0x13)
    && (s.opcode == "0000011" <==> Opcode(w) == 0x03)
    && (s.opcode == "0100011" <==> Opcode(w) == 0x23)
    && (s.opcode == "0110011" <==> Opcode(w) == 0x33)
    && (s.opcode == "1111111" <==> Opcode(w) == 0x7F)
    && (s.funct3 == "000" <==> Funct3(w) == 0)
    && (s.funct3 == "001" <==> Funct3(w) == 1)
    && (s.funct3 == "010" <==> Funct3(w) == 2)
    && (s.funct3 == "011" <==> Funct3(w) == 3)
    && (s.funct3 == "100" <==> Funct3(w) == 4)
    && (s.funct3 == "101" <==> Funct3(w) == 5)
    && (s.funct3 == "110" <==> Funct3(w) == 6)
    && (s.funct3 == "111" <==> Funct3(w) == 7)
    && (s.funct7 == "0000000" <==> Funct7(w) == 0)
    && (s.funct7 == "0100000" <==> Funct7(w) == 0x20)
    && (s.funct7 == "0000001" <==> Funct7(w) == 1)
    && (s.rs1 == "00000" <==> Rs1(w) == 0)
    && (s.bits31To30 == "00" <==> Bits31To30(w) == 0)
  }

  lemma SliceLiteralsMatch(w: Word)
    ensures LiteralsMatch(SliceFields(w), w)
  {
    OpcodeLiterals(w);
    Funct3Literals(w);
    Funct7Literals(w);
    ZeroLiterals(w);
  }

  lemma ImmediateFlagMeaning(s: Slices, w: Word, m: Mnemonic)
    requires LiteralsMatch(s, w) && FormatOf(m) == IType
    ensures Flag(m, s) <==> ReferenceMnemonic(w) == Some(m)
  {
  }

  lemma RegisterFlagMeaning(s: Slices, w: Word, m: Mnemonic)
    requires LiteralsMatch(s, w) && FormatOf(m) == RType
    ensures Flag(m, s) <==> ReferenceMnemonic(w) == Some(m)
  {
  }

  lemma MemoryFlagMeaning(s: Slices, w: Word, m: Mnemonic)
    requires LiteralsMatch(s, w) && (FormatOf(m) == LoadType || FormatOf(m) == StoreType)
    ensures Flag(m, s) <==> ReferenceMnemonic(w) == Some(m)
  {
  }

  /** Each of the decoder's predicates holds exactly when the reference decoder
      recognises that mnemonic; the NOP predicate holds for opcode 0x7F, which
      the reference does not recognise. */
  lemma FlagMeaning(w: Word, m: Mnemonic)
    ensures Flag(m, SliceFields(w)) <==>
      if m == NOP then Opcode(w) == 0x7F else ReferenceMnemonic(w) == Some(m)
  {
    var s := SliceFields(w);
    SliceLiteralsMatch(w);
    match FormatOf(m)
    case IType => ImmediateFlagMeaning(s, w, m);
    case RType => RegisterFlagMeaning(s, w, m);
    case LoadType => MemoryFlagMeaning(s, w, m);
    case StoreType => MemoryFlagMeaning(s, w, m);
    case NoOperands => assert m == NOP;
  }

  /** No two of the 26 predicates hold together, whatever the slices are. */
  lemma FlagsExclusive(s: Slices, m1: Mnemonic, m2: Mnemonic)
    requires Flag(m1, s) && Flag(m2, s)
    ensures m1 == m2
  {
  }

  /** Whatever the order of the scanned mnemonics, the scan finds the one
      whose predicate holds. */
  lemma {:induction false} FirstFlagIsUnique(ops: seq<Mnemonic>, s: Slices, m: Mnemonic)
    requires m in ops && Flag(m, s)
    ensures FirstFlag(ops, s) == Some(m)
  {
    if Flag(ops[0], s) {
      FlagsExclusive(s, ops[0], m);
    } else {
      FirstFlagIsUnique(ops[1..], s, m);
    }
  }

  /** Scanning the same mnemonics in any order gives the same result. */
  lemma ScanOrderIrrelevant(ops1: seq<Mnemonic>, ops2: seq<Mnemonic>, s: Slices)
    requires forall m :: m in ops1 <==> m in ops2
    ensures FirstFlag(ops1, s) == FirstFlag(ops2, s)
  {
    if FirstFlag(ops1, s).Some? {
      var m := FirstFlag(ops1, s).value;
      FirstFlagIsUnique(ops1, s, m);
      FirstFlagIsUnique(ops2, s, m);
    }
  }

  /** The reference decoder never yields NOP, so what it recognises is scanned. */
  lemma ReferenceMnemonicScanned(w: Word)
    ensures ReferenceMnemonic(w).Some? ==> ReferenceMnemonic(w).value in AssemblyOps
  {
  }

  /** Once the predicate of mnemonic `m` holds, no other predicate does. */
  lemma OnlyFlag(s: Slices, m: Mnemonic)
    requires Flag(m, s)
    ensures forall m' | Flag(m', s) :: m' == m
  {
    forall m' | Flag(m', s)
      ensures m' == m
    {
      FlagsExclusive(s, m', m);
    }
  }

  lemma ImmediateCategory(s: Slices, m: Mnemonic)
    requires Flag(m, s)
    ensures AllowedI(s) <==> FormatOf(m) == IType
    ensures (Flag(SLLI, s) || Flag(SRLI, s) || Flag(SRAI, s)) <==> IsShift(m)
  {
    OnlyFlag(s, m);
  }

  lemma RegisterCategory(s: Slices, m: Mnemonic)
    requires Flag(m, s)
    ensures AllowedR(s) <==> FormatOf(m) == RType
  {
    OnlyFlag(s, m);
  }

  /** Once the predicate of mnemonic `m` holds, the category tests of the
      report pick out exactly the category of `m`. */
  lemma CategoryOfFlag(s: Slices, m: Mnemonic)
    requires Flag(m, s)
    ensures AllowedI(s) <==> FormatOf(m) == IType
    ensures AllowedR(s) <==> FormatOf(m) == RType
    ensures Flag(LW, s) <==> m == LW
    ensures Flag(SW, s) <==> m == SW
    ensures Flag(NOP, s) <==> m == NOP
    ensures (Flag(SLLI, s) || Flag(SRLI, s) || Flag(SRAI, s)) <==> IsShift(m)
  {
    ImmediateCategory(s, m);
    RegisterCategory(s, m);
    OnlyFlag(s, m);
  }

  /** Once the predicate of a scanned mnemonic holds, the decoder reports the
      operands the reference gives that mnemonic. */
  lemma ShapeMatchesOperands(w: Word, m: Mnemonic)
    requires m != NOP && Flag(m, SliceFields(w))
    ensures Shape(m, SliceFields(w)) == Operands(m, w)
  {
    CategoryOfFlag(SliceFields(w), m);
  }

  /** The decoder as written agrees with the reference decoder on every word. */
  lemma DecodeAgreesWithReference(w: Word)
    ensures Decode(w) == ReferenceDecode(w)
  {
    var s := SliceFields(w);
    ReferenceMnemonicScanned(w);
    match ReferenceMnemonic(w)
    case None =>
      forall m | m in AssemblyOps
        ensures !Flag(m, s)
      {
        FlagMeaning(w, m);
      }
    case Some(m) =>
      FlagMeaning(w, m);
      FirstFlagIsUnique(AssemblyOps, s, m);
      ShapeMatchesOperands(w, m);
  }

  /** None of the scanned predicates holds exactly when the reference
      recognises no mnemonic. */
  lemma NoFlagIff(w: Word)
    ensures (forall m | m in AssemblyOps :: !Flag(m, SliceFields(w))) <==> ReferenceMnemonic(w) == None
  {
    ReferenceMnemonicScanned(w);
    var s := SliceFields(w);
    match ReferenceMnemonic(w)
    case None =>
      forall m | m in AssemblyOps
        ensures !Flag(m, s)
      {
        FlagMeaning(w, m);
      }
    case Some(m) =>
      FlagMeaning(w, m);
  }

  /** The predicate of the mnemonic the reference recognises holds. */
  lemma RecognisedFlag(w: Word)
    ensures ReferenceMnemonic(w).Some? ==> Flag(ReferenceMnemonic(w).value, SliceFields(w))
  {
    if ReferenceMnemonic(w).Some? {
      FlagMeaning(w, ReferenceMnemonic(w).value);
    }
  }

  /** A word is reported invalid exactly when none of the 25 scanned
      predicates holds, which is exactly when the reference recognises no
      mnemonic. */
  lemma DecodeInvalidIff(w: Word)
    ensures Decode(w) == Invalid <==> forall m | m in AssemblyOps :: !Flag(m, SliceFields(w))
    ensures Decode(w) == Invalid <==> ReferenceMnemonic(w) == None
  {
    DecodeAgreesWithReference(w);
    ReferenceInvalid(w);
    NoFlagIff(w);
  }

  /** The NOP predicate holds for every word with opcode 0x7F, yet NOP is not
      scanned, so every such word is reported invalid. */
  lemma NopNeverDecoded(w: Word)
    requires Opcode(w) == 0x7F
    ensures Flag(NOP, SliceFields(w))
    ensures Decode(w) == Invalid
  {
    FlagMeaning(w, NOP);
    DecodeAgreesWithReference(w);
    ReferenceInvalid(w);
  }

  /** NOP is the one predicate the scan leaves out. */
  /** The scan list holds 25 mnemonics: every mnemonic with a predicate
      except NOP, each exactly once. */
  lemma ScanListContents()
    ensures |AssemblyOps| == 25
    ensures forall m :: m in AssemblyOps <==> m != NOP
    ensures forall i, j | 0 <= i < j < |AssemblyOps| :: AssemblyOps[i] != AssemblyOps[j]
  {
  }

  /** After a successful scan one of the I, R, LW or SW categories holds. */
  lemma ScannedCategory(s: Slices)
    ensures FirstFlag(AssemblyOps, s).Some? ==> AllowedI(s) || AllowedR(s) || Flag(LW, s) || Flag(SW, s)
  {
    var r := FirstFlag(AssemblyOps, s);
    if r.Some? {
      ScanListContents();
      var m := r.value;
      assert m != NOP;
      CategoryOfFlag(s, m);
    }
  }

  /** The report's NOP branch and its final fallback are dead: a successful
      scan always lands in the I, R, LW or SW branch, and nothing is ever
      reported without operands. */
  lemma DeadReportBranches(w: Word)
    ensures var s := SliceFields(w);
      FirstFlag(AssemblyOps, s).Some? ==> AllowedI(s) || AllowedR(s) || Flag(LW, s) || Flag(SW, s)
    ensures !Decode(w).NoOperand?
  {
    ScannedCategory(SliceFields(w));
    DecodeAgreesWithReference(w);
    ReferenceInvalid(w);
  }

  /** What is reported names a scanned mnemonic whose predicate holds, with
      the operands of that mnemonic's format. */
  lemma DecodeReportsFormat(w: Word)
    ensures var d := Decode(w);
      d != Invalid ==>
        && d.op in AssemblyOps
        && Flag(d.op, SliceFields(w))
        && ReferenceMnemonic(w) == Some(d.op)
        && d == Operands(d.op, w)
  {
    DecodeAgreesWithReference(w);
    ReferenceMnemonicScanned(w);
    ReferenceOperands(w);
    RecognisedFlag(w);
  }

  /** LW is recognised for opcode 0x03, funct3 2 and base register zero,
      whatever bits 31..30 are; its offset is the unsigned 12-bit immediate. */
  lemma LoadWordIff(w: Word)
    ensures Decode(w).Load? <==> Opcode(w) == 0x03 && Funct3(w) == 2 && Rs1(w) == 0
    ensures Decode(w).Load? ==> Decode(w) == Load(LW, Rd(w), 0, ImmI(w))
  {
    DecodeAgreesWithReference(w);
    ReferenceLoadWord(w);
  }

  /** SW is recognised for opcode 0x23, funct3 2, base register zero and bits
      31..30 clear; its offset is funct7 above rd, and so below 1024. */
  lemma StoreWordIff(w: Word)
    ensures Decode(w).Store? <==>
      Opcode(w) == 0x23 && Funct3(w) == 2 && Rs1(w) == 0 && Bits31To30(w) == 0
    ensures Decode(w).Store? ==> Decode(w) == Store(SW, Rs2(w), 0, Funct7(w) * 32 + Rd(w))
    ensures Decode(w).Store? ==> Decode(w).offset < 1024
  {
    DecodeAgreesWithReference(w);
    ReferenceStoreWord(w);
  }

  /** I-type computational words: shifts report the rs2 field as the shift
      amount and need funct7 0 (SLLI, SRLI) or 0x20 (SRAI); every other
      funct3 reports the 12-bit immediate unsigned. */
  lemma ImmediateOperands(w: Word)
    requires Opcode(w) == 0x13
    ensures Funct3(w) == 1 ==>
      Decode(w) == if Funct7(w) == 0 then ImmShift(SLLI, Rd(w), Rs1(w), Rs2(w)) else Invalid
    ensures Funct3(w) == 5 ==>
      Decode(w) ==
        if Funct7(w) == 0 then ImmShift(SRLI, Rd(w), Rs1(w), Rs2(w))
        else if Funct7(w) == 0x20 then ImmShift(SRAI, Rd(w), Rs1(w), Rs2(w))
        else Invalid
    ensures Funct3(w) != 1 && Funct3(w) != 5 ==>
      Decode(w).ImmArith? && Decode(w) == ImmArith(Decode(w).op, Rd(w), Rs1(w), ImmI(w))
  {
    DecodeAgreesWithReference(w);
    ReferenceImmediate(w);
  }

  /** R-type words: reported with rd, rs1 and rs2, and invalid exactly for the
      funct7/funct3 pairs outside the table (funct7 other than 0, 0x20 and 1;
      funct7 0x20 with funct3 other than 0 and 5; funct7 1 with funct3 4..7). */
  lemma RegisterOperands(w: Word)
    requires Opcode(w) == 0x33
    ensures Decode(w) == Invalid <==>
      !(|| Funct7(w) == 0
        || (Funct7(w) == 0x20 && (Funct3(w) == 0 || Funct3(w) == 5))
        || (Funct7(w) == 1 && Funct3(w) < 4))
    ensures Decode(w) != Invalid ==>
      Decode(w).RegReg? && Decode(w) == RegReg(Decode(w).op, Rd(w), Rs1(w), Rs2(w))
  {
    DecodeAgreesWithReference(w);
    ReferenceRegister(w);
  }

  /** The decoder on the five words its driver feeds it. The word 0x5413
      has funct3 `101`, so it is a logical right shift, not a left shift. */
  lemma DriverWordsDecoded(w: Word)
    ensures w == 0x02802603 ==> Decode(w) == Load(LW, 12, 0, 40)
    ensures w == 0x06402423 ==> Decode(w) == Store(SW, 4, 0, 104)
    ensures w == 0x06802e03 ==> Decode(w) == Load(LW, 28, 0, 104)
    ensures w == 0x40005413 ==> Decode(w) == ImmShift(SRAI, 8, 0, 0)
    ensures w == 0x5413 ==> Decode(w) == ImmShift(SRLI, 8, 0, 0)
  {
    DecodeAgreesWithReference(w);
    DriverLoads();
    DriverStore();
    ShiftWords();
  }

  /** The decoder on an undefined R-type combination, on the top bits LW
      ignores and SW checks, and on an all-ones immediate, which is reported
      as 4095 rather than -1. */
  lemma EdgeWordsDecoded(w: Word)
    ensures w == 0x04000033 ==> Decode(w) == Invalid
    ensures w == 0xC0002003 ==> Decode(w) == Load(LW, 0, 0, 3072)
    ensures w == 0xC0002023 ==> Decode(w) == Invalid
    ensures w == 0xFFF00013 ==> Decode(w) == ImmArith(ADDI, 0, 0, 4095)
  {
    DecodeAgreesWithReference(w);
    EdgeWords();
  }
}
