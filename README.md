# RV32I instruction decoder

This project models `decode_rv32i_hex` in `utilities/decode_rv32i.py` and
proves properties of it. The function decodes one 32-bit RISC-V instruction
word in three steps:

1. It renders the word as 32 binary digits and slices the standard bit fields
   out of that text: opcode, rd, funct3, rs1, rs2/shamt, funct7/imm7, imm12
   and imm5.
2. It computes one predicate per mnemonic by comparing those slices with
   string literals. The mnemonics are the I-type computational instructions,
   LW, the R-type instructions (with MUL, MULH, MULHSU and MULHU from the "M"
   extension), SW and NOP. It then scans 25 of the predicates in a fixed
   order and keeps the first one that holds.
3. It reports the operands in the shape of the matched instruction's
   category.

The project has four modules:

- `BinaryText` (`binary_text.dfy`) models the decoder's text:
  - the zero-filled binary rendering, `ToBinary`;
  - the conversion of binary digits back to a number, `FromBinary`;
  - the facts that tie a slice of the text to the arithmetic value of the
    bits it names.
- `Rv32iReference` (`rv32i_reference.dfy`) is an independent reference
  decoder. It works on the numeric bit fields of the word, as laid out in
  section 2.2 ("Base Instruction Formats") of the RISC-V Unprivileged ISA
  Specification, Volume I. It is a single nested case analysis on opcode,
  funct3 and funct7, with the decoder's extra guards on rs1 and bits 31..30.
- `DecodeRv32i` (`decode_rv32i.dfy`) is the decoder as written:
  - string slices and string comparisons;
  - the predicate list in source order, without NOP;
  - the first-match scan, as the method `DecodeWord` with a loop that breaks
    at the first predicate that holds, specified by the recursive function
    `FirstFlag`;
  - the report chain, as the function `Shape`.
- `DecodeProperties` (`decode_properties.dfy`) proves that the decoder agrees
  with the reference on every word, together with the properties listed in
  the table below.

The printed text is replaced by the datatype `Decoded`:

- `Invalid`, for the failed assertion and for the final error branch;
- `ImmShift`, `ImmArith`, `RegReg`, `Load` and `Store`, one per operand
  shape;
- `NoOperand`, for the NOP branch. The decoder never produces it.

Three behaviours of the code are kept as they are:

- NOP is never decoded. Its predicate exists, but NOP is missing from the
  scanned lists. A word with opcode `1111111` is therefore invalid, and (with
  assertions enabled) the NOP report branch is dead.
- LW does not check bits 31..30, because that test is commented out. SW
  does check them.
- I-type immediates and load offsets are raw unsigned values. They are not
  sign-extended as section 2.3 of the ISA specification prescribes, so
  0xFFF00013 is ADDI with immediate 4095.

The word 0x5413 in the driver list has funct3 `101`, so the code decodes it
as SRLI, not SLLI (`DecodeProperties.DriverWordsDecoded`).

## Model

| member | source | states |
|---|---|---|
| BinaryText.FromToBinary | utilities/decode_rv32i.py:10 | reading back the zero-filled binary rendering of `x` at width `n` gives `x mod 2^n`, so the 32-digit text of a word denotes the word |
| BinaryText.ToFromBinary | utilities/decode_rv32i.py:10 | rendering the value of a binary string at the string's own length gives the string back, so binary texts and values correspond one to one |
| BinaryText.FieldText | utilities/decode_rv32i.py:13-22 | the slice `text[width-1-hi : width-lo]` of a rendering is the rendering of bits hi..lo, and it denotes `(x / 2^lo) mod 2^(hi-lo+1)` |
| BinaryText.FromBinaryConcat | utilities/decode_rv32i.py:99 | converting a concatenation of digit strings places the first string's value above the second's: `val(a+b) = val(a) * 2^len(b) + val(b)` |
| BinaryText.ToBinary | utilities/decode_rv32i.py:10 | the zero-filled rendering `bin(x)[2:].zfill(width)` of a value below 2^width: exactly `width` characters, each '0' or '1'; FromToBinary and ToFromBinary tie it to FromBinary |
| BinaryText.FromBinary | utilities/decode_rv32i.py:88-99 | `int(s, 2)` on a digit string: the value is below 2^len(s); FromToBinary, ToFromBinary and FromBinaryConcat state what it computes |
| DecodeRv32i.SliceFields | utilities/decode_rv32i.py:13-22 | every slice is binary text of its field's width; opcode = w mod 128, rd = imm5 = (w/2^7) mod 32, funct3 = (w/2^12) mod 8, rs1 = (w/2^15) mod 32, rs2 = shamt = (w/2^20) mod 32, funct7 = imm7 = w/2^25, imm12 = w/2^20, bits 31..30 = w/2^30; imm7 followed by imm5 denotes funct7 * 32 + rd |
| DecodeRv32i.Flag | utilities/decode_rv32i.py:26-67 | the 26 mnemonic predicates as string comparisons of opcode, funct3, funct7, rs1 and bits 31..30 (LW without the bits 31..30 test); FlagMeaning gives their numeric meaning and FlagsExclusive their mutual exclusion |
| DecodeRv32i.AllowedI | utilities/decode_rv32i.py:35 | `ALLOWED_I`: one of the nine I-type computational predicates holds; CategoryOfFlag shows it holds exactly for an I-type match |
| DecodeRv32i.AllowedR | utilities/decode_rv32i.py:58-59 | `ALLOWED_R`: one of the fourteen R-type predicates holds; CategoryOfFlag shows it holds exactly for an R-type match |
| DecodeProperties.ScanListContents | utilities/decode_rv32i.py:71-78 | the scan list `AssemblyOps` has 25 entries, no repeats, and holds every mnemonic with a predicate except NOP |
| DecodeRv32i.FirstFlag | utilities/decode_rv32i.py:79-83 | the scan finds nothing exactly when no predicate in the list holds; what it finds is in the list and its predicate holds |
| DecodeRv32i.DecodeWord | utilities/decode_rv32i.py:79-104 | the loop keeps the invariant "no earlier predicate holds" until it breaks at the first one that does, and the method returns the decoder's result `Decode(w)` |
| DecodeRv32i.Shape | utilities/decode_rv32i.py:86-104 | the report chain: category tests in source order, operands converted with `int(..., 2)`, the store offset from `imm7 + imm5`; ShapeMatchesOperands and DeadReportBranches state what it yields |
| DecodeRv32i.Decode | utilities/decode_rv32i.py:5-104 | slice, scan, then report, or `Invalid` when the scan finds nothing; DecodeAgreesWithReference characterises it on every word |
| DecodeProperties.FlagMeaning | utilities/decode_rv32i.py:26-67 | each string-comparison predicate holds exactly when the reference decoder recognises that mnemonic; the NOP predicate holds exactly for opcode 0x7F |
| DecodeProperties.FlagsExclusive | utilities/decode_rv32i.py:26-67 | no two of the 26 predicates hold together |
| DecodeProperties.FirstFlagIsUnique | utilities/decode_rv32i.py:79-83 | if the predicate of some listed mnemonic holds, the first-match scan returns exactly that mnemonic, in whatever order the list is |
| DecodeProperties.ScanOrderIrrelevant | utilities/decode_rv32i.py:71-83 | two scan lists with the same members give the same result |
| DecodeProperties.CategoryOfFlag | utilities/decode_rv32i.py:86-101 | once a predicate holds, the category tests of the report (I, R, LW, SW, NOP, shift) select exactly that mnemonic's category |
| DecodeProperties.ShapeMatchesOperands | utilities/decode_rv32i.py:86-99 | for a scanned mnemonic whose predicate holds, the report gives the operands the reference assigns to that mnemonic's format |
| DecodeProperties.DecodeAgreesWithReference | utilities/decode_rv32i.py:5-104 | on every 32-bit word, the decoder's result equals the reference decoder's result |
| DecodeProperties.DecodeInvalidIff | utilities/decode_rv32i.py:79-84 | a word is invalid exactly when none of the 25 scanned predicates holds, and exactly when the reference recognises no mnemonic |
| DecodeProperties.NopNeverDecoded | utilities/decode_rv32i.py:67-84 | every word with opcode 0x7F satisfies the NOP predicate and is still reported invalid |
| DecodeProperties.DeadReportBranches | utilities/decode_rv32i.py:86-104 | after a successful scan, one of the I, R, LW or SW categories holds, so the NOP branch and the final error branch are never taken; no word is reported without operands |
| DecodeProperties.DecodeReportsFormat | utilities/decode_rv32i.py:86-104 | a valid report names a scanned mnemonic whose predicate holds, which is the mnemonic the reference recognises, and carries that mnemonic's operands |
| DecodeProperties.LoadWordIff | utilities/decode_rv32i.py:38-39 | a word is reported as a load exactly when opcode = 0x03, funct3 = 2 and rs1 = 0, whatever bits 31..30 are; it is then LW with dst rd, base 0 and offset the unsigned imm12 |
| DecodeProperties.StoreWordIff | utilities/decode_rv32i.py:62-63 | a word is reported as a store exactly when opcode = 0x23, funct3 = 2, rs1 = 0 and bits 31..30 are clear; it is then SW with src rs2, base 0 and offset funct7 * 32 + rd, which is below 1024 |
| DecodeProperties.ImmediateOperands | utilities/decode_rv32i.py:86-90 | for opcode 0x13: funct3 1 is SLLI when funct7 = 0 and invalid otherwise; funct3 5 is SRLI when funct7 = 0, SRAI when funct7 = 0x20, and invalid otherwise; the shifts report rs2 as shamt; every other funct3 reports the unsigned imm12 |
| DecodeProperties.RegisterOperands | utilities/decode_rv32i.py:44-59 | for opcode 0x33, a word is invalid exactly outside funct7 = 0, funct7 = 0x20 with funct3 0 or 5, and funct7 = 1 with funct3 below 4; otherwise it is reported with rd, rs1 and rs2 |
| DecodeProperties.DriverWordsDecoded | utilities/decode_rv32i.py:107 | the five driver words decode as LW dst 12 base 0 offset 40 (0x02802603), SW src 4 base 0 offset 104 (0x06402423), LW dst 28 base 0 offset 104 (0x06802e03), SRAI dst 8 src 0 shamt 0 (0x40005413) and SRLI dst 8 src 0 shamt 0 (0x5413) |
| DecodeProperties.EdgeWordsDecoded | utilities/decode_rv32i.py:38-63 | 0x04000033 (funct7 2) is invalid; 0xC0002003 is LW dst 0 base 0 offset 3072 although bits 31..30 are set; 0xC0002023 is invalid because they are; 0xFFF00013 is ADDI with immediate 4095, not -1 |

## Left out

- Parsing the hex string with `int(..., 16)` (line 10) is not modelled. The model starts from the number.
- Words of 2^32 or more are excluded by the `Word` type. Their rendering is longer than 32 digits, so the slices would no longer line up with the fields.
- The printed text and its `%`-formatting (lines 88-104) are not modelled. The decoder returns a `Decoded` value instead.
- The `assert` at line 84 raises an exception in the source. The model returns `Invalid` instead.
- The `FORMAT_I`, `FORMAT_R` and `FORMAT_LW` flags are constant `True` and are dropped from the predicates.
- The driver loop at lines 107-109 runs on import and prints. Its five words appear only as the sample lemmas.
- BinaryText.FromBinary counts every digit other than '1' as 0. Python's `int(..., 2)` rejects such digits, but the decoder only converts slices of a binary rendering, which contain no other digits.
