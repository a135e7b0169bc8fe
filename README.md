# RV32I two-pass assembler, modelled in Dafny

This project models `RISCVAssembler` from `assembler.py`, a small two-pass
assembler. It turns RISC-V assembly text (a subset of the RV32I base
instruction set plus the pseudo-instructions `nop`, `li` and `mv`) into
32-bit machine words. It covers:

- **The register table and `reg`** (module `Registers`). The constructor
  builds the table: the generic names `x0`..`x31` in a loop, then the ABI
  names over them. `reg` strips its token, lower-cases it and looks it up.
- **`imm`** (module `Immediates`). A token that starts with `0x` is read as
  hexadecimal. Any other token is read as a signed decimal.
- **The encoders `R`, `I`, `S`, `B`, `U` and `J`** (module `Formats`, on
  top of `Bits`). Python's `&` with a mask, `<<`, `>>` and `|` on unbounded
  two's-complement integers are written out explicitly.
- **The mnemonic dispatch of `assemble`** (module `Dispatch`). Each branch
  of the `elif` chain is one `Form`. Operands are fetched and converted in
  the order Python evaluates them, so the error a bad line reports is the
  one the source raises first.
- **The two passes** (module `Passes`), as functions over the lines:
  - `Pass1` is what `first_pass` leaves in the label table.
  - `Pass2` is what `assemble` returns.

  Both passes read a line through the same `View`: the label the line
  defines, if any, and the instruction text left after the comment and the
  label are removed.
- **The class itself** (module `Assembler`, class `RiscvAssembler`):
  - the constructor's register loop;
  - `FirstPass`, which updates the `labels` field in place;
  - `Assemble`, which appends to `machine` and advances `pc`.

  Each method is proved against the `Passes` function that specifies it.

Each exception the source can raise becomes an `Err` of the `Results.Error`
datatype:

- `UnknownRegister`: the `ValueError` of `reg`.
- `InvalidImmediate`: the `ValueError` of `int()`.
- `UnknownInstruction`: the final `else`.
- `UndefinedLabel`: the `KeyError` on `self.labels`.
- `MissingOperand(i)`: the `IndexError` on `parts[i]`.

The first error aborts the pass and no words are returned.

Three behaviours of the code are easy to miss, and the model keeps them:

- **Opcode masking.** `R` and `I` mask every field, opcode included. `S`,
  `B`, `U` and `J` OR the opcode in without masking it
  (assembler.py:58, 70, 74, 85), and so does the model. The field lemmas
  for those four formats are stated for an opcode below `0x80`, which every
  call in `assemble` passes.
- **Too few operands.** A line with too few operands makes `parts[i]`
  raise `IndexError`. The model returns `MissingOperand(i)` for it. An
  instruction text made only of separators, such as `()`, has no tokens at
  all and fails with `MissingOperand(0)`.
- **Unknown registers.** `reg` fails with the message "Unknown register"
  (assembler.py:28). The model calls this error `UnknownRegister`.

## Model

| member | source | states |
|---|---|---|
| Registers.GenericNames | assembler.py:10-11 | after `i` steps the table maps exactly `x0`..`x{i-1}`, each `xj` to `j`, and nothing else |
| Registers.GenericNamesStep | assembler.py:10-11 | one loop step `self.registers[f'x{i}'] = i` turns the table for `i` names into the table for `i+1` names |
| Registers.GenericNameInjective | assembler.py:11 | distinct register numbers get distinct generic names |
| Registers.AbiNamesShape | assembler.py:12-21 | every ABI name maps below 32, is lower-case letters and digits, and does not start with `x` |
| Registers.Table | assembler.py:9-21 | every name in the finished table (generic names, then the ABI names over them) maps to a register number below 32 |
| Registers.Reg | assembler.py:24-29 | a resolved register is below 32, and a failure names the stripped, lower-cased token |
| Registers.RegGeneric | assembler.py:10-29 | `reg('x{i}')` resolves to `i` for every `i < 32` |
| Registers.RegAbi | assembler.py:12-29 | every ABI alias resolves to its listed number (so `fp` and `s0` both give 8) |
| Registers.RegDefined | assembler.py:24-29 | `reg` succeeds if and only if the stripped, lower-cased token is some `xN` with `N < 32` or an ABI alias |
| Registers.RegNormalised | assembler.py:26 | surrounding whitespace and letter case never change what `reg` returns |
| Immediates.DecimalLiteral | assembler.py:36 | a failure names the token, and a token without a leading `-` never reads as negative |
| Immediates.Imm | assembler.py:31-36 | a failure names the stripped token, and a `0x` token never reads as negative |
| Immediates.ImmStrips | assembler.py:33 | surrounding whitespace never changes what `imm` returns |
| Immediates.ImmDecimalRoundTrip | assembler.py:36 | every integer written as `str(v)` is read back as `v` |
| Immediates.ImmHexRoundTrip | assembler.py:34-35 | every natural number written as `0x` and hex digits is read back as itself |
| Immediates.ImmNeedsDigit | assembler.py:31-36 | a token with no decimal digit (empty, `-`, `+`, `0x`) is always rejected |
| Formats.R | assembler.py:39-43 | the R-type word; what it holds is stated by `RPacked` and `RFields` |
| Formats.I | assembler.py:45-49 | the I-type word; stated by `IPacked`, `IFields` and `IImmediateRoundTrip` |
| Formats.S | assembler.py:51-58 | the S-type word; stated by `SPacked`, `SFields` and `SImmediateRoundTrip` |
| Formats.B | assembler.py:60-70 | the B-type word; stated by `BPacked`, `BFields`, `BOffsetRoundTrip` and `BIgnoresBit0` |
| Formats.U | assembler.py:72-74 | the U-type word; stated by `UPacked` and `UFields` |
| Formats.J | assembler.py:76-85 | the J-type word; stated by `JPacked`, `JFields`, `JOffsetRoundTrip` and `JIgnoresBit0` |
| Formats.RPacked | assembler.py:39-43 | the bitwise OR of the shifted fields is the sum of each masked field times its bit position, since the fields do not overlap |
| Formats.IPacked | assembler.py:45-49 | the same for `I`, with the immediate masked to 12 bits |
| Formats.SPacked | assembler.py:51-58 | the same for `S`, with the immediate split into bits 11:5 and 4:0 |
| Formats.BPacked | assembler.py:60-70 | the same for `B`, with the offset split into bits 12, 10:5, 4:1 and 11 |
| Formats.UPacked | assembler.py:72-74 | `U` is the immediate modulo 2^20 in bits 31:12, plus `rd` and the opcode |
| Formats.JPacked | assembler.py:76-85 | the same for `J`, with the offset split into bits 20, 19:12, 11 and 10:1 |
| Formats.SOffsetBits | assembler.py:53-55 | bits 11:5 and bits 4:0 of a 12-bit immediate put back together give the immediate |
| Formats.BOffsetBits | assembler.py:62-66 | the four slices of a 13-bit offset put back together give the offset without bit 0 |
| Formats.JOffsetBits | assembler.py:78-82 | the four slices of a 21-bit offset put back together give the offset without bit 0 |
| Formats.RFields | assembler.py:39-43 | the word is below 2^32, and each of opcode, rd, funct3, rs1, rs2 and funct7 can be read back, masked, from its bit range |
| Formats.IFields | assembler.py:45-49 | the word is below 2^32, each register field can be read back, and bits 31:20 hold `imm mod 4096` |
| Formats.SFields | assembler.py:51-58 | the word is below 2^32, rs2 is in bits 24:20 and rs1 in 19:15, and bits 31:25 followed by 11:7 make `imm mod 4096` |
| Formats.BFields | assembler.py:60-70 | the word is below 2^32, the registers can be read back, and bits 31, 7, 30:25 and 11:8 reassemble the 13-bit offset without bit 0 |
| Formats.UFields | assembler.py:72-74 | the word is below 2^32, bits 31:12 hold `imm mod 2^20`, and the low 12 bits hold only `rd` and the opcode |
| Formats.JFields | assembler.py:76-85 | the word is below 2^32, and bits 31, 19:12, 20 and 30:21 reassemble the 21-bit offset without bit 0 |
| Formats.IImmediateRoundTrip | assembler.py:45-49 | every immediate in `[-2048, 2048)` is recovered from the word by sign extension |
| Formats.SImmediateRoundTrip | assembler.py:51-58 | every store offset in `[-2048, 2048)` is recovered from the split fields by sign extension |
| Formats.BOffsetRoundTrip | assembler.py:60-70 | every even branch offset in `[-4096, 4096)` is recovered from the word |
| Formats.JOffsetRoundTrip | assembler.py:76-85 | every even jump offset in `[-2^20, 2^20)` is recovered from the word |
| Formats.BIgnoresBit0 | assembler.py:60-70 | bit 0 of a branch offset never reaches the word |
| Formats.JIgnoresBit0 | assembler.py:76-85 | bit 0 of a jump offset never reaches the word |
| Formats.JumpBackFour | assembler.py:76-85 | `J(-4, 0, 0x6F)` is `0xFFDFF06F` |
| Text.Trim | assembler.py:26 | the stripped string is no longer than the input and neither starts nor ends with whitespace |
| Text.TrimInfix | assembler.py:26 | what `strip()` keeps is the infix of the string that starts after the leading whitespace |
| Text.TrimCuts | assembler.py:26 | everything `strip()` removes, at either end, is whitespace |
| Text.TrimIdempotent | assembler.py:33 | stripping twice is stripping once |
| Text.Lower | assembler.py:26 | lower-casing keeps the length and maps each character by itself, ASCII capitals to small letters |
| Text.LowerIdempotent | assembler.py:118 | lower-casing twice is lower-casing once |
| Text.LowerTrim | assembler.py:26 | lower-casing a stripped token leaves nothing to strip |
| Text.StripComment | assembler.py:91 | the result has no `#` and is no longer than the line |
| Text.StripCommentSingleLine | assembler.py:91 | on one line, removing the comment keeps exactly the text before the first `#` |
| Text.BeforeColon | assembler.py:95 | the label part is the text up to, not including, the first colon |
| Text.AfterColon | assembler.py:97 | label part, colon and remainder put back together give the line |
| Text.Tokens | assembler.py:116-117 | every token is non-empty and contains no comma, parenthesis or whitespace |
| Text.TokensSplit | assembler.py:116-117 | the first token is a maximal run: only separators come before it, a separator or the end of the line right after it, and the remaining tokens are those of the rest of the line |
| Text.TokensNone | assembler.py:116-118 | a line has no tokens if and only if it is all separators |
| Text.TokensKeep | assembler.py:116-117 | the tokens, joined, are exactly the line's non-separator characters in order |
| Text.DecimalRoundTrip | assembler.py:36 | the decimal digits of `n` read back as `n` |
| Text.HexRoundTrip | assembler.py:35 | the hexadecimal digits of `n` read back as `n` |
| Dispatch.Lookup | assembler.py:118-224 | the mnemonics of the `elif` chain, each with its branch; every funct3, funct7 and opcode a branch passes on fits its field |
| Dispatch.Operands | assembler.py:120-221 | the operands each branch fetches, in Python's evaluation order; stated per branch by the `...Operands` lemmas |
| Dispatch.Emit | assembler.py:120-221 | the encoder call each branch makes; stated per branch by the `...Encoding` and `...Word` lemmas |
| Dispatch.Encode | assembler.py:118-224 | a line encodes only if its lower-cased mnemonic is known, and an unknown one fails with `UnknownInstruction` |
| Dispatch.Dispatched | assembler.py:118-224 | a known mnemonic encodes if and only if its operands resolve; the word is the encoder's result, and the error is the first operand's |
| Dispatch.RegRegEncoding | assembler.py:121-140 | `add`..`sltu` encode if and only if there are three operands naming registers; the word is `R` with rd, rs1 and rs2 in source order, and too few operands give `MissingOperand(3)` |
| Dispatch.RegRegOperands | assembler.py:121-140 | the same, for the arguments passed to `R` |
| Dispatch.RegImmEncoding | assembler.py:143-160 | `addi`..`sltiu` (not `srai`) encode if and only if the immediate and both registers resolve; a failing immediate is the error reported, before either register; rd, rs1, funct3, OP-IMM and the low 12 bits of the immediate read back |
| Dispatch.RegImmOperands | assembler.py:143-160 | the same for the arguments of `I`, with the error order immediate, then rs1, then rd |
| Dispatch.ShiftRightArithEncoding | assembler.py:155-156 | `srai rd, rs1, shamt` encodes if and only if its operands resolve; the word has funct3 5, rd and rs1 in place, bit 30 set for every shift amount, and for a shift amount below `0x400` bits 31:20 hold `0x400 + shamt` |
| Dispatch.ShiftRightArithOperands | assembler.py:155-156 | the same, for the arguments passed to `I` |
| Dispatch.OrBit10 | assembler.py:156 | for a shift amount below `0x400`, OR-ing in `0x400` adds `0x400` |
| Dispatch.LoadEncoding | assembler.py:163-172 | loads read `rd, imm(rs1)`: offset from token 2, base from token 3, with the LOAD opcode |
| Dispatch.LoadOperands | assembler.py:163-172 | the same, for the arguments passed to `I` |
| Dispatch.StoreEncoding | assembler.py:175-180 | stores put the first operand in the rs2 slot and the base register (token 3) in rs1 |
| Dispatch.StoreOperands | assembler.py:175-180 | the same, for the arguments passed to `S` |
| Dispatch.BranchEncoding | assembler.py:183-200 | a branch encodes if and only if its label is defined and both registers resolve; the offset is `labels[target] - pc`, and an undefined label fails with `UndefinedLabel` |
| Dispatch.BranchOperands | assembler.py:183-200 | the same, for the arguments passed to `B` |
| Dispatch.JumpAndLinkEncoding | assembler.py:203-205 | `jal rd, label` encodes if and only if the label is defined and `rd` resolves, with offset `labels[target] - pc`; an undefined label fails with `UndefinedLabel`, and too few operands with `MissingOperand(2)` |
| Dispatch.JumpAndLinkOperands | assembler.py:203-205 | the same, for the arguments passed to `J` |
| Dispatch.JumpAndLinkRegisterEncoding | assembler.py:206-207 | `jalr rd, imm(rs1)` is `I` with the JALR opcode and funct3 0: rd, rs1 and the low 12 bits of the absolute immediate read back, and an in-range immediate decodes exactly |
| Dispatch.JumpAndLinkRegisterOperands | assembler.py:206-207 | the same, for the arguments passed to `I` |
| Dispatch.UpperEncoding | assembler.py:210-213 | `lui`/`auipc` pass `imm >> 12` (floor) to `U`, so the low 12 bits of the constant are dropped |
| Dispatch.UpperOperands | assembler.py:210-213 | the same, for the arguments passed to `U` |
| Dispatch.NopEncoding | assembler.py:216-217 | `nop` always gives `0x00000013`, whatever follows it |
| Dispatch.NopIsAddi | assembler.py:216-217 | `nop` gives the same word as `addi x0, x0, 0` |
| Dispatch.AddiZero | assembler.py:143-144 | `addi x0, x0, 0` encodes to `0x13` |
| Dispatch.LoadImmediateEncoding | assembler.py:218-219 | `li rd, imm` encodes if and only if the immediate and `rd` resolve, with rs1 = 0 |
| Dispatch.LoadImmediateOperands | assembler.py:218-219 | the same for the arguments of `I`, with the error order immediate, then rd |
| Dispatch.LoadImmediateIsAddi | assembler.py:218-219 | `li rd, v` gives exactly what `addi rd, x0, v` gives, errors included |
| Dispatch.MoveEncoding | assembler.py:220-221 | `mv rd, rs` encodes if and only if both registers resolve, with immediate 0 |
| Dispatch.MoveOperands | assembler.py:220-221 | the same for the arguments of `I`, with the error order rs, then rd |
| Dispatch.MoveIsAddi | assembler.py:220-221 | `mv rd, rs` gives exactly what `addi rd, rs, 0` gives, errors included |
| Dispatch.MnemonicCase | assembler.py:118 | the mnemonic's letter case never changes the result |
| Dispatch.RWord | assembler.py:121-140 | an R-type word with in-range fields returns each field unmasked |
| Dispatch.IWord | assembler.py:143-172 | an I-type word returns its registers and funct3, and an immediate in 12-bit range |
| Dispatch.SWord | assembler.py:175-180 | a store word returns its registers and funct3, and an offset in 12-bit range |
| Dispatch.BWord | assembler.py:183-200 | a branch word returns its registers and funct3, and an even offset in 13-bit range |
| Dispatch.JWord | assembler.py:203-205 | a `jal` word returns `rd`, and an even offset in 21-bit range |
| Dispatch.SraiWord | assembler.py:155-156 | an `srai` word always has bit 30 set, and holds `0x400 + shamt` in bits 31:20 for a shift amount below `0x400` |
| Dispatch.SraiImmediate | assembler.py:156 | the immediate `0x400` OR-ed with `shamt` always has bit 10 set, and is `0x400 + shamt` for a shift amount below `0x400` |
| Dispatch.UWord | assembler.py:210-213 | a `lui`/`auipc` word holds bits 31:12 of the written constant in bits 31:12 |
| Dispatch.EncodeWord | assembler.py:118-224 | every word the dispatch produces is below 2^32 |
| Dispatch.RegisterWord | assembler.py:121-160 | the same for the arithmetic branches |
| Dispatch.MemoryWord | assembler.py:163-207 | the same for loads, stores and `jalr` |
| Dispatch.ControlWord | assembler.py:183-213 | the same for branches, `jal`, `lui` and `auipc` |
| Dispatch.PseudoWord | assembler.py:216-221 | the same for `nop`, `li` and `mv` |
| Dispatch.AddiExample | assembler.py:143-144 | `addi a0, zero, 5` encodes to `0x00500513` |
| Dispatch.JumpBackExample | assembler.py:203-205 | `jal x0, L`, with `L` four bytes before the instruction, encodes to `0xFFDFF06F` |
| Passes.View | assembler.py:91-97 | how both passes see a line; stated by `ViewShape` |
| Passes.ViewShape | assembler.py:91-97 | a view's instruction text has no `#` and no surrounding whitespace, its label has no colon and no `#`, and a line without label has no colon |
| Passes.Step | assembler.py:92-99 | what `first_pass` does with one line; stated by `StepKeeps` and `StepDefines` |
| Passes.StepKeeps | assembler.py:92-99 | one line adds at most its own label, leaves every other label's address alone, and moves `pc` by 4 exactly when it holds an instruction |
| Passes.StepDefines | assembler.py:94-96 | a line defining `name` binds it to the current `pc` |
| Passes.Pass1 | assembler.py:87-99 | the first pass ends with `pc` equal to 4 times the number of instruction lines |
| Passes.Pass1Next | assembler.py:90-99 | the first pass over one more line is one more `Step` |
| Passes.Pass1Line | assembler.py:94-99 | the table and `pc` that `first_pass` holds after line `i` are the first pass over lines up to `i` |
| Passes.Pass1Defines | assembler.py:94-96 | a name is in the label table afterwards if and only if it was before or some line defines it |
| Passes.Pass1Address | assembler.py:94-99 | a label is bound to the address of the first instruction at or after its last definition |
| Passes.Pass1Aligned | assembler.py:87-99 | every label address is a multiple of 4, given that the table started that way |
| Passes.Pass2 | assembler.py:101-228 | a successful second pass returns one word per instruction line |
| Passes.Pass2Next | assembler.py:106-226 | the second pass over one more line keeps an earlier error, skips a line without instruction, and otherwise appends the line's word or fails with its error |
| Passes.Pass2Word | assembler.py:106-226 | each instruction line is encoded at its own address, and its word sits at that line's index among the instruction lines |
| Passes.Pass2Succeeds | assembler.py:106-228 | the second pass succeeds if and only if every instruction line encodes at its address |
| Passes.Pass2Abort | assembler.py:223-224 | once the second pass has failed, later lines change nothing |
| Passes.Pass2Fails | assembler.py:106-228 | a failing second pass reports the error of its first failing line, and every earlier instruction line encodes |
| Passes.LineOfWord | assembler.py:106-228 | every output word comes from an instruction line whose index among the instruction lines is the word's position |
| Passes.Program | assembler.py:87-228 | 4 times the number of words of a successful program is where the first pass left `pc`: both passes advance on the same lines |
| Passes.NoInstructionBetween | assembler.py:92-99 | lines without an instruction do not move the address |
| Passes.LabelWord | assembler.py:87-228 | `labels[L] / 4` is the index of the word of the first instruction after `L`'s last definition |
| Passes.AssembledLine | assembler.py:116-226 | each instruction line's word is the dispatch of its tokens at its address, with the labels of the first pass |
| Passes.Pass2Words | assembler.py:101-228 | every assembled word is below 2^32 |
| Passes.BranchOffset | assembler.py:183-200 | an assembled branch names a defined label, and its word carries `labels[target]` minus its own address, recovered when even and within 4 KiB |
| Passes.JumpOffset | assembler.py:203-205 | an assembled `jal` names a defined label, and its word carries `labels[target]` minus its own address, recovered when even and within 1 MiB |
| Assembler.RiscvAssembler.constructor | assembler.py:7-22 | the loop leaves exactly `x0`..`x31` in the table, the ABI names are added over them, and the label table is empty |
| Assembler.RiscvAssembler.FirstPass | assembler.py:87-99 | `labels` becomes `Pass1` of the old table over the lines, and `registers` is unchanged |
| Assembler.RiscvAssembler.Assemble | assembler.py:101-228 | the result is `Pass2` with the current labels: one word below 2^32 per instruction line, or the error of the first failing line |
| Assembler.AssembleLines | assembler.py:87-228 | a fresh assembler, its first pass and then `assemble` over the same lines compute `Program(lines)` |

## Left out

- `main` (assembler.py:231-256) is file and console plumbing and is not
  modelled: argument handling, reading the input file, writing one
  `{inst:08x}` line per word, and the prints.
- The regular expressions are written as string functions that match the
  same characters, not as a regex engine:
  - `re.sub(r'#.*', '', line)` is `StripComment`.
  - `re.split(r'[,\s()]+', clean)` with the empty parts dropped is `Tokens`.
- `str.lower()` is modelled on the ASCII letters only. No non-ASCII
  character lower-cases into a register name or mnemonic, so lookups
  succeed and fail exactly as in Python. Only the spelling of the offending
  name inside an `UnknownRegister` or `UnknownInstruction` error can differ.
- `int()` is modelled as an optional `+` or `-` followed by decimal digits,
  or `0x` followed by hexadecimal digits. Python also accepts underscores
  between digits and non-ASCII decimal digits; the model rejects both.
  CPython 3.11 and later (and the security releases of 3.7 to 3.10) also
  refuse a decimal string of more than 4300 digits with a `ValueError`; the
  model reads decimal strings of any length.
- Immediates.ImmDecimalRoundTrip: holds for every integer because the model
  has no digit limit. Under CPython's 4300-digit limit it holds only for
  integers of at most 4300 digits.
- Exception types and messages are collapsed into the `Error` datatype.
  Which error is reported first follows Python's left-to-right argument
  evaluation.
- Machine words are unbounded `int`s, as in Python. Their 32-bit range is
  proved, not imposed by a type.
- Registers.Reg: looks names up in the fixed table `Table()`, not in the
  `registers` field. The constructor proves `registers == Table()`, and no
  method changes the field. A caller that edits `asm.registers` from
  outside the class is not modelled.
- Assembler.RiscvAssembler.FirstPass and Assembler.RiscvAssembler.Assemble:
  read each line through the `View` function, which performs the same
  strip, comment removal and colon split as the source's statements. They
  do not transliterate those statements line by line.
- Dispatch.EncodeWord: states only that each word fits in 32 bits. What
  each field holds is stated per branch by the `...Encoding` lemmas and the
  `...Word` lemmas.
- Formats.SFields, Formats.BFields, Formats.UFields and Formats.JFields:
  are stated only for an opcode below `0x80`, because these encoders OR the
  opcode in without masking it. Every call in `assemble` passes a 7-bit
  constant.
- Passes.Pass1Aligned: assumes the label table starts aligned. `first_pass`
  is called on the empty table; a table prefilled from outside is not
  modelled.
- Passes.BranchOffset and Passes.JumpOffset: state that the offset decodes
  back only when it is even and fits the format. Out-of-range offsets are
  silently truncated by the masking, as in the source.
