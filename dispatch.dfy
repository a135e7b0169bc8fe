/** One instruction of the second pass: the mnemonic (lower-cased) picks an
    encoding, the operands are fetched by position and converted in the order
    the Python evaluates them, so the first failing one is the error reported. */
module Dispatch {
  import opened Results
  import opened Bits
  import opened Text
  import opened Formats
  import opened Registers
  import opened Immediates

  /** The major opcodes of the RV32I base instruction set (Table 24.1 of
      the RISC-V Unprivileged ISA Specification, version 20191213). */
  const OP := 0x33
  const OP_IMM := 0x13
  const LOAD := 0x03
  const STORE := 0x23
  const BRANCH := 0x63
  const JAL := 0x6F
  const JALR := 0x67
  const LUI := 0x37
  const AUIPC := 0x17

  /** The branch of the `elif` chain a mnemonic selects, with the constant
      fields that branch passes to its encoder. */
  datatype Form =
    | RegReg(funct7: nat, funct3: nat)  // `op rd, rs1, rs2`
    | RegImm(funct3: nat)               // `op rd, rs1, imm`
    | ShiftRightArith                   // `srai rd, rs1, shamt`
    | Load(funct3: nat)                 // `op rd, imm(rs1)`
    | Store(funct3: nat)                // `op rs2, imm(rs1)`
    | Branch(funct3: nat)               // `op rs1, rs2, label`
    | JumpAndLink                       // `jal rd, label`
    | JumpAndLinkRegister               // `jalr rd, imm(rs1)`
    | Upper(opcode: nat)                // `lui`/`auipc rd, imm`
    | Nop
    | LoadImmediate                     // `li rd, imm`
    | Move                              // `mv rd, rs`

  /** The mnemonics the `elif` chain knows, each with its branch; every
      function code and opcode a branch passes on fits its field. */
  function Lookup(op: string): (f: Option<Form>)
    ensures f.Some? ==> FieldsFit(f.value)
  {
    match op
    case "add" => Some(RegReg(0, 0))
    case "sub" => Some(RegReg(0x20, 0))
    case "xor" => Some(RegReg(0, 4))
    case "or" => Some(RegReg(0, 6))
    case "and" => Some(RegReg(0, 7))
    case "sll" => Some(RegReg(0, 1))
    case "srl" => Some(RegReg(0, 5))
    case "sra" => Some(RegReg(0x20, 5))
    case "slt" => Some(RegReg(0, 2))
    case "sltu" => Some(RegReg(0, 3))
    case "addi" => Some(RegImm(0))
    case "xori" => Some(RegImm(4))
    case "ori" => Some(RegImm(6))
    case "andi" => Some(RegImm(7))
    case "slli" => Some(RegImm(1))
    case "srli" => Some(RegImm(5))
    case "srai" => Some(ShiftRightArith)
    case "slti" => Some(RegImm(2))
    case "sltiu" => Some(RegImm(3))
    case "lw" => Some(Load(2))
    case "lh" => Some(Load(1))
    case "lhu" => Some(Load(5))
    case "lb" => Some(Load(0))
    case "lbu" => Some(Load(4))
    case "sw" => Some(Store(2))
    case "sh" => Some(Store(1))
    case "sb" => Some(Store(0))
    case "beq" => Some(Branch(0))
    case "bne" => Some(Branch(1))
    case "blt" => Some(Branch(4))
    case "bge" => Some(Branch(5))
    case "bltu" => Some(Branch(6))
    case "bgeu" => Some(Branch(7))
    case "jal" => Some(JumpAndLink)
    case "jalr" => Some(JumpAndLinkRegister)
    case "lui" => Some(Upper(LUI))
    case "auipc" => Some(Upper(AUIPC))
    case "nop" => Some(Nop)
    case "li" => Some(LoadImmediate)
    case "mv" => Some(Move)
    case _ => None
  }

  /** The constant fields of every branch fit their widths. */
  predicate FieldsFit(f: Form)
  {
    match f
    case RegReg(funct7, funct3) => funct7 < 0x80 && funct3 < 8
    case RegImm(funct3) => funct3 < 8
    case Load(funct3) => funct3 < 8
    case Store(funct3) => funct3 < 8
    case Branch(funct3) => funct3 < 8
    case Upper(opcode) => opcode < 0x80
    case _ => true
  }

  /** `parts[i]`, which raises `IndexError` past the end. */
  function Operand(parts: seq<string>, i: nat): (res: Result<string>)
    ensures res.Ok? <==> i < |parts|
    ensures res.Ok? ==> res.value == parts[i]
    ensures res.Err? ==> res.error == MissingOperand(i)
  {
    if i < |parts| then Ok(parts[i]) else Err(MissingOperand(i))
  }

  /** `self.reg(token)` on an operand that may be missing. */
  function RegOf(token: Result<string>): (res: Result<nat>)
    ensures res.Ok? <==> token.Ok? && Reg(token.value).Ok?
    ensures res.Ok? ==> res == Reg(token.value)
  {
    var name :- token;
    Reg(name)
  }

  /** `self.imm(token)` on an operand that may be missing. */
  function ImmOf(token: Result<string>): (res: Result<int>)
    ensures res.Ok? <==> token.Ok? && Imm(token.value).Ok?
    ensures res.Ok? ==> res == Imm(token.value)
  {
    var t :- token;
    Imm(t)
  }

  /** `self.labels[token]`: the token is looked up as it stands, so label
      references are case-sensitive; a missing key is a `KeyError`. */
  function LabelOf(labels: map<string, int>, token: Result<string>): (res: Result<int>)
    ensures res.Ok? <==> token.Ok? && token.value in labels
    ensures res.Ok? ==> res.value == labels[token.value]
    ensures token.Ok? && token.value !in labels ==> res == Err(UndefinedLabel(token.value))
  {
    var target :- token;
    if target in labels then Ok(labels[target]) else Err(UndefinedLabel(target))
  }

  /** `self.labels[...] - pc`: the byte offset from the instruction at `pc`
      to its target. */
  function Distance(target: int, pc: int): int
  {
    target - pc
  }

  /** An encoder call with its arguments evaluated: what one `elif` branch
      passes to `R`, `I`, `S`, `B`, `U` or `J`, or the literal word `nop`
      appends. */
  datatype Call =
    | RCall(funct7: int, rs2: int, rs1: int, funct3: int, rd: int, opcode: int)
    | ICall(imm: int, rs1: int, funct3: int, rd: int, opcode: int)
    | SCall(imm: int, rs2: int, rs1: int, funct3: int, opcode: int)
    | BCall(imm: int, rs2: int, rs1: int, funct3: int, opcode: int)
    | UCall(imm: int, rd: int, opcode: int)
    | JCall(imm: int, rd: int, opcode: int)
    | Literal(word: int)

  /** The word the encoder call returns. */
  function Emit(c: Call): int
  {
    match c
    case RCall(funct7, rs2, rs1, funct3, rd, opcode) => R(funct7, rs2, rs1, funct3, rd, opcode)
    case ICall(imm, rs1, funct3, rd, opcode) => I(imm, rs1, funct3, rd, opcode)
    case SCall(imm, rs2, rs1, funct3, opcode) => S(imm, rs2, rs1, funct3, opcode)
    case BCall(imm, rs2, rs1, funct3, opcode) => B(imm, rs2, rs1, funct3, opcode)
    case UCall(imm, rd, opcode) => U(imm, rd, opcode)
    case JCall(imm, rd, opcode) => J(imm, rd, opcode)
    case Literal(word) => word
  }

  /** The arguments of one `elif` branch, for the instruction at address
      `pc`, evaluated left to right as Python does; only `parts[1]` to
      `parts[3]` are ever read. */
  function Operands(f: Form, labels: map<string, int>, pc: int, parts: seq<string>): Result<Call>
  {
    Arguments(f, labels, pc, Operand(parts, 1), Operand(parts, 2), Operand(parts, 3))
  }

  /** The same, given the three operand tokens, any of which may be missing. */
  function Arguments(f: Form, labels: map<string, int>, pc: int, p1: Result<string>, p2: Result<string>, p3: Result<string>): Result<Call>
  {
    match f
    case RegReg(funct7, funct3) =>
      var rs2 :- RegOf(p3);
      var rs1 :- RegOf(p2);
      var rd :- RegOf(p1);
      Ok(RCall(funct7, rs2, rs1, funct3, rd, OP))
    case RegImm(funct3) =>
      var imm :- ImmOf(p3);
      var rs1 :- RegOf(p2);
      var rd :- RegOf(p1);
      Ok(ICall(imm, rs1, funct3, rd, OP_IMM))
    case ShiftRightArith =>
      var imm :- ImmOf(p3);
      var rs1 :- RegOf(p2);
      var rd :- RegOf(p1);
      Ok(ICall(Or(0x400, imm), rs1, 5, rd, OP_IMM))
    case Load(funct3) =>
      var imm :- ImmOf(p2);
      var rs1 :- RegOf(p3);
      var rd :- RegOf(p1);
      Ok(ICall(imm, rs1, funct3, rd, LOAD))
    case Store(funct3) =>
      var imm :- ImmOf(p2);
      var rs2 :- RegOf(p1);
      var rs1 :- RegOf(p3);
      Ok(SCall(imm, rs2, rs1, funct3, STORE))
    case Branch(funct3) =>
      var target :- LabelOf(labels, p3);
      var rs2 :- RegOf(p2);
      var rs1 :- RegOf(p1);
      Ok(BCall(Distance(target, pc), rs2, rs1, funct3, BRANCH))
    case JumpAndLink =>
      var target :- LabelOf(labels, p2);
      var rd :- RegOf(p1);
      Ok(JCall(Distance(target, pc), rd, JAL))
    case JumpAndLinkRegister =>
      var imm :- ImmOf(p2);
      var rs1 :- RegOf(p3);
      var rd :- RegOf(p1);
      Ok(ICall(imm, rs1, 0, rd, JALR))
    case Upper(opcode) =>
      var imm :- ImmOf(p2);
      var rd :- RegOf(p1);
      Ok(UCall(Shr(imm, 12), rd, opcode))
    case Nop =>
      Ok(Literal(0x13))
    case LoadImmediate =>
      var imm :- ImmOf(p2);
      var rd :- RegOf(p1);
      Ok(ICall(imm, 0, 0, rd, OP_IMM))
    case Move =>
      var rs :- RegOf(p2);
      var rd :- RegOf(p1);
      Ok(ICall(0, rs, 0, rd, OP_IMM))
  }

  /** One token list of the second pass to its machine word. */
  function Encode(labels: map<string, int>, pc: int, parts: seq<string>): (res: Result<int>)
    ensures res.Ok? ==> |parts| > 0 && Lookup(Lower(parts[0])).Some?
    ensures |parts| > 0 && Lookup(Lower(parts[0])).None? ==> res == Err(UnknownInstruction(Lower(parts[0])))
  {
    var mnemonic :- Operand(parts, 0);
    var op := Lower(mnemonic);
    match Lookup(op)
    case None => Err(UnknownInstruction(op))
    case Some(f) =>
      var call :- Operands(f, labels, pc, parts);
      Ok(Emit(call))
  }

  // ---- what each branch emits ----

  lemma Dispatched(labels: map<string, int>, pc: int, parts: seq<string>, f: Form)
    requires |parts| > 0 && Lookup(Lower(parts[0])) == Some(f)
    ensures Encode(labels, pc, parts).Ok? <==> Operands(f, labels, pc, parts).Ok?
    ensures Encode(labels, pc, parts).Ok? ==> Encode(labels, pc, parts).value == Emit(Operands(f, labels, pc, parts).value)
    ensures Encode(labels, pc, parts).Err? ==> Encode(labels, pc, parts).error == Operands(f, labels, pc, parts).error
    ensures FieldsFit(f)
  {
  }

  /** A value that fits in `k` bits survives the mask unchanged. */
  lemma MaskFits(x: nat, k: nat)
    requires x < Pow2(k)
    ensures Mask(x, k) == x
  {
    DivUnique(x, Pow2(k), 0, x);
  }

  /** A register number survives the 5-bit mask unchanged. */
  lemma RegisterFits(r: nat)
    requires r < 32
    ensures Mask(r, 5) == r
  {
    Pow2Table();
  }

  // ---- the words themselves, with every field in range ----

  lemma RWord(funct7: nat, rs2: nat, rs1: nat, funct3: nat, rd: nat)
    requires funct7 < 0x80 && rs2 < 32 && rs1 < 32 && funct3 < 8 && rd < 32
    ensures var w := R(funct7, rs2, rs1, funct3, rd, OP);
      0 <= w < 0x1_0000_0000 && Field(w, 0, 7) == OP && Field(w, 7, 5) == rd && Field(w, 12, 3) == funct3
      && Field(w, 15, 5) == rs1 && Field(w, 20, 5) == rs2 && Field(w, 25, 7) == funct7
  {
    RFields(funct7, rs2, rs1, funct3, rd, OP);
    Pow2Table();
    MaskFits(funct7, 7);
    MaskFits(rs2, 5);
    MaskFits(rs1, 5);
    MaskFits(funct3, 3);
    MaskFits(rd, 5);
  }

  lemma IWord(imm: int, rs1: nat, funct3: nat, rd: nat, opcode: nat)
    requires rs1 < 32 && funct3 < 8 && rd < 32 && opcode < 0x80
    ensures var w := I(imm, rs1, funct3, rd, opcode);
      0 <= w < 0x1_0000_0000 && Field(w, 0, 7) == opcode && Field(w, 7, 5) == rd && Field(w, 12, 3) == funct3
      && Field(w, 15, 5) == rs1 && Field(w, 20, 12) == Mask(imm, 12)
      && (-0x800 <= imm < 0x800 ==> ImmI(w) == imm)
  {
    IFields(imm, rs1, funct3, rd, opcode);
    Pow2Table();
    MaskFits(rs1, 5);
    MaskFits(rd, 5);
    MaskFits(funct3, 3);
    MaskFits(opcode, 7);
    if -0x800 <= imm < 0x800 {
      IImmediateRoundTrip(imm, rs1, funct3, rd, opcode);
    }
  }

  lemma SWord(imm: int, rs2: nat, rs1: nat, funct3: nat)
    requires rs2 < 32 && rs1 < 32 && funct3 < 8
    ensures var w := S(imm, rs2, rs1, funct3, STORE);
      0 <= w < 0x1_0000_0000 && Field(w, 0, 7) == STORE && Field(w, 12, 3) == funct3
      && Field(w, 15, 5) == rs1 && Field(w, 20, 5) == rs2
      && Field(w, 25, 7) * 0x20 + Field(w, 7, 5) == Mask(imm, 12)
      && (-0x800 <= imm < 0x800 ==> ImmS(w) == imm)
  {
    SFields(imm, rs2, rs1, funct3, STORE);
    Pow2Table();
    MaskFits(rs2, 5);
    MaskFits(rs1, 5);
    MaskFits(funct3, 3);
    if -0x800 <= imm < 0x800 {
      SImmediateRoundTrip(imm, rs2, rs1, funct3, STORE);
    }
  }

  lemma BWord(offset: int, rs2: nat, rs1: nat, funct3: nat)
    requires rs2 < 32 && rs1 < 32 && funct3 < 8
    ensures var w := B(offset, rs2, rs1, funct3, BRANCH);
      0 <= w < 0x1_0000_0000 && Field(w, 0, 7) == BRANCH && Field(w, 12, 3) == funct3
      && Field(w, 15, 5) == rs1 && Field(w, 20, 5) == rs2
      && (-0x1000 <= offset < 0x1000 && offset % 2 == 0 ==> ImmB(w) == offset)
  {
    BFields(offset, rs2, rs1, funct3, BRANCH);
    Pow2Table();
    MaskFits(rs2, 5);
    MaskFits(rs1, 5);
    MaskFits(funct3, 3);
    if -0x1000 <= offset < 0x1000 && offset % 2 == 0 {
      BOffsetRoundTrip(offset, rs2, rs1, funct3, BRANCH);
    }
  }

  lemma JWord(offset: int, rd: nat)
    requires rd < 32
    ensures var w := J(offset, rd, JAL);
      0 <= w < 0x1_0000_0000 && Field(w, 0, 7) == JAL && Field(w, 7, 5) == rd
      && (-0x10_0000 <= offset < 0x10_0000 && offset % 2 == 0 ==> ImmJ(w) == offset)
  {
    JFields(offset, rd, JAL);
    RegisterFits(rd);
    if -0x10_0000 <= offset < 0x10_0000 && offset % 2 == 0 {
      JOffsetRoundTrip(offset, rd, JAL);
    }
  }

  /** Bit `k` of an I-type immediate lands at bit `20 + k` of the word. */
  lemma ImmBitInWord(w: int, imm: int, k: nat)
    requires k < 12 && Field(w, 20, 12) == Mask(imm, 12)
    ensures Field(w, 20 + k, 1) == Field(imm, k, 1)
  {
    FieldOfField(w, 20, 12, k);
    MaskKeepsBit(imm, k, 12);
  }

  lemma SraiWord(shamt: int, rs1: nat, rd: nat)
    requires rs1 < 32 && rd < 32
    ensures var w := I(Or(0x400, shamt), rs1, 5, rd, OP_IMM);
      0 <= w < 0x1_0000_0000 && Field(w, 0, 7) == OP_IMM && Field(w, 7, 5) == rd && Field(w, 12, 3) == 5
      && Field(w, 15, 5) == rs1 && Field(w, 30, 1) == 1 && (0 <= shamt < 0x400 ==> Field(w, 20, 12) == 0x400 + shamt)
  {
    var imm := Or(0x400, shamt);
    SraiImmediate(shamt);
    IWord(imm, rs1, 5, rd, OP_IMM);
    ImmBitInWord(I(imm, rs1, 5, rd, OP_IMM), imm, 10);
  }

  /** The immediate of `srai`: bit 10 is always set, and a shift amount
      below 2^10 sits unchanged in the bits below it. */
  lemma SraiImmediate(shamt: int)
    ensures Field(Or(0x400, shamt), 10, 1) == 1
    ensures 0 <= shamt < 0x400 ==> Mask(Or(0x400, shamt), 12) == 0x400 + shamt
  {
    assert Pow2(10) == 0x400 && Pow2(12) == 0x1000 by { Pow2Table(); }
    OrSetsBit(10, 0x400, shamt);
    if 0 <= shamt < 0x400 {
      OrBit10(shamt);
      assert 0x400 + shamt < Pow2(12);
    }
  }

  lemma UWord(imm: int, rd: nat, opcode: nat)
    requires rd < 32 && opcode < 0x80
    ensures var w := U(Shr(imm, 12), rd, opcode);
      0 <= w < 0x1_0000_0000 && Field(w, 0, 7) == opcode && Field(w, 7, 5) == rd && Field(w, 12, 20) == Field(imm, 12, 20)
  {
    UFields(Shr(imm, 12), rd, opcode);
    RegisterFits(rd);
  }

  /** Register-register instructions (`add rd, rs1, rs2`): they succeed
      exactly when the three registers are there and known, the missing
      `rs2` is the first thing noticed, and every operand lands in its field. */
  lemma RegRegEncoding(labels: map<string, int>, pc: int, parts: seq<string>, funct7: nat, funct3: nat)
    requires |parts| > 0 && Lookup(Lower(parts[0])) == Some(RegReg(funct7, funct3))
    ensures Encode(labels, pc, parts).Ok? <==>
      |parts| >= 4 && Reg(parts[3]).Ok? && Reg(parts[2]).Ok? && Reg(parts[1]).Ok?
    ensures |parts| < 4 ==> Encode(labels, pc, parts) == Err(MissingOperand(3))
    ensures Encode(labels, pc, parts).Ok? ==>
      var w := Encode(labels, pc, parts).value;
      && 0 <= w < 0x1_0000_0000
      && Field(w, 0, 7) == OP
      && Field(w, 7, 5) == Reg(parts[1]).value
      && Field(w, 12, 3) == funct3
      && Field(w, 15, 5) == Reg(parts[2]).value
      && Field(w, 20, 5) == Reg(parts[3]).value
      && Field(w, 25, 7) == funct7
  {
    Dispatched(labels, pc, parts, RegReg(funct7, funct3));
    RegRegOperands(labels, pc, parts, funct7, funct3);
    if Encode(labels, pc, parts).Ok? {
      RWord(funct7, Reg(parts[3]).value, Reg(parts[2]).value, funct3, Reg(parts[1]).value);
    }
  }

  lemma RegRegOperands(labels: map<string, int>, pc: int, parts: seq<string>, funct7: nat, funct3: nat)
    ensures Operands(RegReg(funct7, funct3), labels, pc, parts).Ok? <==>
      |parts| >= 4 && Reg(parts[3]).Ok? && Reg(parts[2]).Ok? && Reg(parts[1]).Ok?
    ensures |parts| < 4 ==> Operands(RegReg(funct7, funct3), labels, pc, parts) == Err(MissingOperand(3))
    ensures Operands(RegReg(funct7, funct3), labels, pc, parts).Ok? ==>
      Operands(RegReg(funct7, funct3), labels, pc, parts).value == RCall(funct7, Reg(parts[3]).value, Reg(parts[2]).value, funct3, Reg(parts[1]).value, OP)
  {
  }

  /** Register-immediate instructions (`addi rd, rs1, imm`): the immediate
      is read first; its low 12 bits are kept, so one in the signed 12-bit
      range is read back by `ImmI`. */
  lemma RegImmEncoding(labels: map<string, int>, pc: int, parts: seq<string>, funct3: nat)
    requires |parts| > 0 && Lookup(Lower(parts[0])) == Some(RegImm(funct3))
    ensures Encode(labels, pc, parts).Ok? <==>
      |parts| >= 4 && Imm(parts[3]).Ok? && Reg(parts[2]).Ok? && Reg(parts[1]).Ok?
    ensures |parts| < 4 ==> Encode(labels, pc, parts) == Err(MissingOperand(3))
    ensures |parts| >= 4 && Imm(parts[3]).Err? ==> Encode(labels, pc, parts) == Err(Imm(parts[3]).error)
    ensures Encode(labels, pc, parts).Ok? ==>
      var w, imm := Encode(labels, pc, parts).value, Imm(parts[3]).value;
      && 0 <= w < 0x1_0000_0000
      && Field(w, 0, 7) == OP_IMM
      && Field(w, 7, 5) == Reg(parts[1]).value
      && Field(w, 12, 3) == funct3
      && Field(w, 15, 5) == Reg(parts[2]).value
      && Field(w, 20, 12) == Mask(imm, 12)
      && (-0x800 <= imm < 0x800 ==> ImmI(w) == imm)
  {
    Dispatched(labels, pc, parts, RegImm(funct3));
    RegImmOperands(labels, pc, parts, funct3);
    if Encode(labels, pc, parts).Ok? {
      IWord(Imm(parts[3]).value, Reg(parts[2]).value, funct3, Reg(parts[1]).value, OP_IMM);
    }
  }

  lemma RegImmOperands(labels: map<string, int>, pc: int, parts: seq<string>, funct3: nat)
    ensures Operands(RegImm(funct3), labels, pc, parts).Ok? <==>
      |parts| >= 4 && Imm(parts[3]).Ok? && Reg(parts[2]).Ok? && Reg(parts[1]).Ok?
    ensures |parts| < 4 ==> Operands(RegImm(funct3), labels, pc, parts) == Err(MissingOperand(3))
    ensures |parts| >= 4 && Imm(parts[3]).Err? ==> Operands(RegImm(funct3), labels, pc, parts) == Err(Imm(parts[3]).error)
    ensures |parts| >= 4 && Imm(parts[3]).Ok? && Reg(parts[2]).Err? ==> Operands(RegImm(funct3), labels, pc, parts) == Err(Reg(parts[2]).error)
    ensures |parts| >= 4 && Imm(parts[3]).Ok? && Reg(parts[2]).Ok? && Reg(parts[1]).Err? ==> Operands(RegImm(funct3), labels, pc, parts) == Err(Reg(parts[1]).error)
    ensures Operands(RegImm(funct3), labels, pc, parts).Ok? ==>
      Operands(RegImm(funct3), labels, pc, parts).value == ICall(Imm(parts[3]).value, Reg(parts[2]).value, funct3, Reg(parts[1]).value, OP_IMM)
  {
  }

  /** `srai rd, rs1, shamt`: the immediate field is `0x400 | shamt`, which
      for a shift amount below 0x400 is the amount with bit 10 (funct7
      0x20) set on top. */
  lemma ShiftRightArithEncoding(labels: map<string, int>, pc: int, parts: seq<string>)
    requires |parts| > 0 && Lookup(Lower(parts[0])) == Some(ShiftRightArith)
    ensures Encode(labels, pc, parts).Ok? <==>
      |parts| >= 4 && Imm(parts[3]).Ok? && Reg(parts[2]).Ok? && Reg(parts[1]).Ok?
    ensures |parts| < 4 ==> Encode(labels, pc, parts) == Err(MissingOperand(3))
    ensures Encode(labels, pc, parts).Ok? ==>
      var w, shamt := Encode(labels, pc, parts).value, Imm(parts[3]).value;
      && 0 <= w < 0x1_0000_0000
      && Field(w, 0, 7) == OP_IMM
      && Field(w, 7, 5) == Reg(parts[1]).value
      && Field(w, 12, 3) == 5
      && Field(w, 15, 5) == Reg(parts[2]).value
      && Field(w, 30, 1) == 1
      && (0 <= shamt < 0x400 ==> Field(w, 20, 12) == 0x400 + shamt)
  {
    Dispatched(labels, pc, parts, ShiftRightArith);
    ShiftRightArithOperands(labels, pc, parts);
    if Encode(labels, pc, parts).Ok? {
      SraiWord(Imm(parts[3]).value, Reg(parts[2]).value, Reg(parts[1]).value);
    }
  }

  lemma ShiftRightArithOperands(labels: map<string, int>, pc: int, parts: seq<string>)
    ensures Operands(ShiftRightArith, labels, pc, parts).Ok? <==>
      |parts| >= 4 && Imm(parts[3]).Ok? && Reg(parts[2]).Ok? && Reg(parts[1]).Ok?
    ensures |parts| < 4 ==> Operands(ShiftRightArith, labels, pc, parts) == Err(MissingOperand(3))
    ensures Operands(ShiftRightArith, labels, pc, parts).Ok? ==>
      Operands(ShiftRightArith, labels, pc, parts).value == ICall(Or(0x400, Imm(parts[3]).value), Reg(parts[2]).value, 5, Reg(parts[1]).value, OP_IMM)
  {
  }

  lemma OrBit10(v: int)
    requires 0 <= v < 0x400
    ensures Or(0x400, v) == 0x400 + v
  {
    Pow2Table();
    OrPow2(10, v);
    assert Shr(v, 10) == 0;
  }

  /** Loads (`lw rd, imm(rs1)`): the offset is the second token and the
      base register the third. */
  lemma LoadEncoding(labels: map<string, int>, pc: int, parts: seq<string>, funct3: nat)
    requires |parts| > 0 && Lookup(Lower(parts[0])) == Some(Load(funct3))
    ensures Encode(labels, pc, parts).Ok? <==>
      |parts| >= 4 && Imm(parts[2]).Ok? && Reg(parts[3]).Ok? && Reg(parts[1]).Ok?
    ensures |parts| < 3 ==> Encode(labels, pc, parts) == Err(MissingOperand(2))
    ensures Encode(labels, pc, parts).Ok? ==>
      var w, imm := Encode(labels, pc, parts).value, Imm(parts[2]).value;
      && 0 <= w < 0x1_0000_0000
      && Field(w, 0, 7) == LOAD
      && Field(w, 7, 5) == Reg(parts[1]).value
      && Field(w, 12, 3) == funct3
      && Field(w, 15, 5) == Reg(parts[3]).value
      && Field(w, 20, 12) == Mask(imm, 12)
      && (-0x800 <= imm < 0x800 ==> ImmI(w) == imm)
  {
    Dispatched(labels, pc, parts, Load(funct3));
    LoadOperands(labels, pc, parts, funct3);
    if Encode(labels, pc, parts).Ok? {
      IWord(Imm(parts[2]).value, Reg(parts[3]).value, funct3, Reg(parts[1]).value, LOAD);
    }
  }

  lemma LoadOperands(labels: map<string, int>, pc: int, parts: seq<string>, funct3: nat)
    ensures Operands(Load(funct3), labels, pc, parts).Ok? <==>
      |parts| >= 4 && Imm(parts[2]).Ok? && Reg(parts[3]).Ok? && Reg(parts[1]).Ok?
    ensures |parts| < 3 ==> Operands(Load(funct3), labels, pc, parts) == Err(MissingOperand(2))
    ensures Operands(Load(funct3), labels, pc, parts).Ok? ==>
      Operands(Load(funct3), labels, pc, parts).value == ICall(Imm(parts[2]).value, Reg(parts[3]).value, funct3, Reg(parts[1]).value, LOAD)
  {
  }

  /** Stores (`sw rs2, imm(rs1)`): the first operand is the register
      stored, the third the base; the offset is split around `rd`'s place. */
  lemma StoreEncoding(labels: map<string, int>, pc: int, parts: seq<string>, funct3: nat)
    requires |parts| > 0 && Lookup(Lower(parts[0])) == Some(Store(funct3))
    ensures Encode(labels, pc, parts).Ok? <==>
      |parts| >= 4 && Imm(parts[2]).Ok? && Reg(parts[1]).Ok? && Reg(parts[3]).Ok?
    ensures |parts| < 3 ==> Encode(labels, pc, parts) == Err(MissingOperand(2))
    ensures Encode(labels, pc, parts).Ok? ==>
      var w, imm := Encode(labels, pc, parts).value, Imm(parts[2]).value;
      && 0 <= w < 0x1_0000_0000
      && Field(w, 0, 7) == STORE
      && Field(w, 12, 3) == funct3
      && Field(w, 15, 5) == Reg(parts[3]).value
      && Field(w, 20, 5) == Reg(parts[1]).value
      && Field(w, 25, 7) * 0x20 + Field(w, 7, 5) == Mask(imm, 12)
      && (-0x800 <= imm < 0x800 ==> ImmS(w) == imm)
  {
    Dispatched(labels, pc, parts, Store(funct3));
    StoreOperands(labels, pc, parts, funct3);
    if Encode(labels, pc, parts).Ok? {
      SWord(Imm(parts[2]).value, Reg(parts[1]).value, Reg(parts[3]).value, funct3);
    }
  }

  lemma StoreOperands(labels: map<string, int>, pc: int, parts: seq<string>, funct3: nat)
    ensures Operands(Store(funct3), labels, pc, parts).Ok? <==>
      |parts| >= 4 && Imm(parts[2]).Ok? && Reg(parts[1]).Ok? && Reg(parts[3]).Ok?
    ensures |parts| < 3 ==> Operands(Store(funct3), labels, pc, parts) == Err(MissingOperand(2))
    ensures Operands(Store(funct3), labels, pc, parts).Ok? ==>
      Operands(Store(funct3), labels, pc, parts).value == SCall(Imm(parts[2]).value, Reg(parts[1]).value, Reg(parts[3]).value, funct3, STORE)
  {
  }

  /** Branches (`beq rs1, rs2, label`): the label is looked up first, and
      the word carries the distance from this instruction to it, which
      `ImmB` reads back when it is even and in range. */
  lemma BranchEncoding(labels: map<string, int>, pc: int, parts: seq<string>, funct3: nat)
    requires |parts| > 0 && Lookup(Lower(parts[0])) == Some(Branch(funct3))
    ensures Encode(labels, pc, parts).Ok? <==>
      |parts| >= 4 && parts[3] in labels && Reg(parts[2]).Ok? && Reg(parts[1]).Ok?
    ensures |parts| < 4 ==> Encode(labels, pc, parts) == Err(MissingOperand(3))
    ensures |parts| >= 4 && parts[3] !in labels ==> Encode(labels, pc, parts) == Err(UndefinedLabel(parts[3]))
    ensures Encode(labels, pc, parts).Ok? ==>
      var w, offset := Encode(labels, pc, parts).value, Distance(labels[parts[3]], pc);
      && 0 <= w < 0x1_0000_0000
      && Field(w, 0, 7) == BRANCH
      && Field(w, 12, 3) == funct3
      && Field(w, 15, 5) == Reg(parts[1]).value
      && Field(w, 20, 5) == Reg(parts[2]).value
      && (-0x1000 <= offset < 0x1000 && offset % 2 == 0 ==> ImmB(w) == offset)
  {
    Dispatched(labels, pc, parts, Branch(funct3));
    BranchOperands(labels, pc, parts, funct3);
    if Encode(labels, pc, parts).Ok? {
      BWord(Distance(labels[parts[3]], pc), Reg(parts[2]).value, Reg(parts[1]).value, funct3);
    }
  }

  lemma BranchOperands(labels: map<string, int>, pc: int, parts: seq<string>, funct3: nat)
    ensures Operands(Branch(funct3), labels, pc, parts).Ok? <==>
      |parts| >= 4 && parts[3] in labels && Reg(parts[2]).Ok? && Reg(parts[1]).Ok?
    ensures |parts| < 4 ==> Operands(Branch(funct3), labels, pc, parts) == Err(MissingOperand(3))
    ensures |parts| >= 4 && parts[3] !in labels ==> Operands(Branch(funct3), labels, pc, parts) == Err(UndefinedLabel(parts[3]))
    ensures Operands(Branch(funct3), labels, pc, parts).Ok? ==>
      Operands(Branch(funct3), labels, pc, parts).value == BCall(Distance(labels[parts[3]], pc), Reg(parts[2]).value, Reg(parts[1]).value, funct3, BRANCH)
  {
  }

  /** `jal rd, label`: the label is looked up first; the word carries the
      distance to it, which `ImmJ` reads back when it is even and in range. */
  lemma JumpAndLinkEncoding(labels: map<string, int>, pc: int, parts: seq<string>)
    requires |parts| > 0 && Lookup(Lower(parts[0])) == Some(JumpAndLink)
    ensures Encode(labels, pc, parts).Ok? <==> |parts| >= 3 && parts[2] in labels && Reg(parts[1]).Ok?
    ensures |parts| < 3 ==> Encode(labels, pc, parts) == Err(MissingOperand(2))
    ensures |parts| >= 3 && parts[2] !in labels ==> Encode(labels, pc, parts) == Err(UndefinedLabel(parts[2]))
    ensures Encode(labels, pc, parts).Ok? ==>
      var w, offset := Encode(labels, pc, parts).value, Distance(labels[parts[2]], pc);
      && 0 <= w < 0x1_0000_0000
      && Field(w, 0, 7) == JAL
      && Field(w, 7, 5) == Reg(parts[1]).value
      && (-0x10_0000 <= offset < 0x10_0000 && offset % 2 == 0 ==> ImmJ(w) == offset)
  {
    Dispatched(labels, pc, parts, JumpAndLink);
    JumpAndLinkOperands(labels, pc, parts);
    if Encode(labels, pc, parts).Ok? {
      JWord(Distance(labels[parts[2]], pc), Reg(parts[1]).value);
    }
  }

  lemma JumpAndLinkOperands(labels: map<string, int>, pc: int, parts: seq<string>)
    ensures Operands(JumpAndLink, labels, pc, parts).Ok? <==>
      |parts| >= 3 && parts[2] in labels && Reg(parts[1]).Ok?
    ensures |parts| < 3 ==> Operands(JumpAndLink, labels, pc, parts) == Err(MissingOperand(2))
    ensures Operands(JumpAndLink, labels, pc, parts).Ok? ==>
      Operands(JumpAndLink, labels, pc, parts).value == JCall(Distance(labels[parts[2]], pc), Reg(parts[1]).value, JAL)
  {
  }

  /** `jalr rd, imm(rs1)`: laid out like a load, with the JALR opcode and
      funct3 0; the offset is absolute, not relative to a label. */
  lemma JumpAndLinkRegisterEncoding(labels: map<string, int>, pc: int, parts: seq<string>)
    requires |parts| > 0 && Lookup(Lower(parts[0])) == Some(JumpAndLinkRegister)
    ensures Encode(labels, pc, parts).Ok? <==>
      |parts| >= 4 && Imm(parts[2]).Ok? && Reg(parts[3]).Ok? && Reg(parts[1]).Ok?
    ensures |parts| < 3 ==> Encode(labels, pc, parts) == Err(MissingOperand(2))
    ensures Encode(labels, pc, parts).Ok? ==>
      var w, imm := Encode(labels, pc, parts).value, Imm(parts[2]).value;
      && 0 <= w < 0x1_0000_0000
      && Field(w, 0, 7) == JALR
      && Field(w, 7, 5) == Reg(parts[1]).value
      && Field(w, 12, 3) == 0
      && Field(w, 15, 5) == Reg(parts[3]).value
      && Field(w, 20, 12) == Mask(imm, 12)
      && (-0x800 <= imm < 0x800 ==> ImmI(w) == imm)
  {
    Dispatched(labels, pc, parts, JumpAndLinkRegister);
    JumpAndLinkRegisterOperands(labels, pc, parts);
    if Encode(labels, pc, parts).Ok? {
      IWord(Imm(parts[2]).value, Reg(parts[3]).value, 0, Reg(parts[1]).value, JALR);
    }
  }

  lemma JumpAndLinkRegisterOperands(labels: map<string, int>, pc: int, parts: seq<string>)
    ensures Operands(JumpAndLinkRegister, labels, pc, parts).Ok? <==>
      |parts| >= 4 && Imm(parts[2]).Ok? && Reg(parts[3]).Ok? && Reg(parts[1]).Ok?
    ensures |parts| < 3 ==> Operands(JumpAndLinkRegister, labels, pc, parts) == Err(MissingOperand(2))
    ensures Operands(JumpAndLinkRegister, labels, pc, parts).Ok? ==>
      Operands(JumpAndLinkRegister, labels, pc, parts).value == ICall(Imm(parts[2]).value, Reg(parts[3]).value, 0, Reg(parts[1]).value, JALR)
  {
  }

  /** `lui`/`auipc rd, imm`: bits 31:12 of the word are bits 31:12 of the
      immediate, whose low 12 bits are dropped; nothing checks its range. */
  lemma UpperEncoding(labels: map<string, int>, pc: int, parts: seq<string>, opcode: nat)
    requires |parts| > 0 && Lookup(Lower(parts[0])) == Some(Upper(opcode))
    ensures Encode(labels, pc, parts).Ok? <==> |parts| >= 3 && Imm(parts[2]).Ok? && Reg(parts[1]).Ok?
    ensures |parts| < 3 ==> Encode(labels, pc, parts) == Err(MissingOperand(2))
    ensures Encode(labels, pc, parts).Ok? ==>
      var w := Encode(labels, pc, parts).value;
      && 0 <= w < 0x1_0000_0000
      && Field(w, 0, 7) == opcode
      && Field(w, 7, 5) == Reg(parts[1]).value
      && Field(w, 12, 20) == Field(Imm(parts[2]).value, 12, 20)
  {
    Dispatched(labels, pc, parts, Upper(opcode));
    UpperOperands(labels, pc, parts, opcode);
    if Encode(labels, pc, parts).Ok? {
      UWord(Imm(parts[2]).value, Reg(parts[1]).value, opcode);
    }
  }

  lemma UpperOperands(labels: map<string, int>, pc: int, parts: seq<string>, opcode: nat)
    ensures Operands(Upper(opcode), labels, pc, parts).Ok? <==>
      |parts| >= 3 && Imm(parts[2]).Ok? && Reg(parts[1]).Ok?
    ensures |parts| < 3 ==> Operands(Upper(opcode), labels, pc, parts) == Err(MissingOperand(2))
    ensures Operands(Upper(opcode), labels, pc, parts).Ok? ==>
      Operands(Upper(opcode), labels, pc, parts).value == UCall(Shr(Imm(parts[2]).value, 12), Reg(parts[1]).value, opcode)
  {
  }

  // ---- pseudo-instructions ----

  lemma LookupAddi(op: string)
    requires op == "addi"
    ensures Lookup(Lower(op)) == Some(RegImm(0))
  {
    assert Lower(op) == "addi";
  }

  lemma RegisterZero(r: string)
    requires r == "x0"
    ensures Reg(r) == Ok(0)
  {
    ZeroName(r);
    RegGeneric(0);
  }

  lemma ZeroName(r: string)
    requires r == "x0"
    ensures GenericName(0) == r
  {
    assert NatToDecimal(0) == "0";
  }

  lemma ImmediateZero(t: string)
    requires t == "0"
    ensures Imm(t) == Ok(0)
  {
    ImmDecimalRoundTrip(0);
    assert IntToDecimal(0) == "0";
  }

  /** `nop` is `addi x0, x0, 0`, whatever operands follow it. */
  lemma NopIsAddi(labels: map<string, int>, pc: int, parts: seq<string>, q: seq<string>)
    requires |parts| > 0 && Lower(parts[0]) == "nop"
    requires q == ["addi", "x0", "x0", "0"]
    ensures Encode(labels, pc, parts) == Encode(labels, pc, q) == Ok(0x13)
  {
    NopEncoding(labels, pc, parts);
    AddiZero(labels, pc, q);
  }

  lemma NopEncoding(labels: map<string, int>, pc: int, parts: seq<string>)
    requires |parts| > 0 && Lookup(Lower(parts[0])) == Some(Nop)
    ensures Encode(labels, pc, parts) == Ok(0x13)
  {
    Dispatched(labels, pc, parts, Nop);
    assert Operands(Nop, labels, pc, parts) == Ok(Literal(0x13));
  }

  lemma AddiZero(labels: map<string, int>, pc: int, q: seq<string>)
    requires q == ["addi", "x0", "x0", "0"]
    ensures Encode(labels, pc, q) == Ok(0x13)
  {
    LookupAddi(q[0]);
    Dispatched(labels, pc, q, RegImm(0));
    RegisterZero(q[1]);
    RegisterZero(q[2]);
    ImmediateZero(q[3]);
    RegImmOperands(labels, pc, q, 0);
    NopWord(Operands(RegImm(0), labels, pc, q).value);
  }

  /** `addi x0, x0, 0` is the word 0x13. */
  lemma NopWord(c: Call)
    requires c == ICall(0, 0, 0, 0, OP_IMM)
    ensures Emit(c) == 0x13
  {
    IPacked(c.imm, c.rs1, c.funct3, c.rd, c.opcode);
    Pow2Table();
  }

  // ---- worked examples ----

  /** `addi a0, zero, 5` assembles to 0x00500513. */
  lemma AddiExample(labels: map<string, int>, pc: int, q: seq<string>)
    requires q == ["addi", "a0", "zero", "5"]
    ensures Encode(labels, pc, q) == Ok(0x0050_0513)
  {
    LookupAddi(q[0]);
    Dispatched(labels, pc, q, RegImm(0));
    RegisterA0(q[1]);
    RegisterZeroAlias(q[2]);
    ImmediateFive(q[3]);
    RegImmOperands(labels, pc, q, 0);
    AddiWord(Operands(RegImm(0), labels, pc, q).value);
  }

  lemma RegisterA0(r: string)
    requires r == "a0"
    ensures Reg(r) == Ok(10)
  {
    RegAbi(r);
    A0Number();
  }

  lemma A0Number()
    ensures AbiNames["a0"] == 10
  {
  }

  lemma RegisterZeroAlias(r: string)
    requires r == "zero"
    ensures Reg(r) == Ok(0)
  {
    RegAbi(r);
  }

  lemma ImmediateFive(t: string)
    requires t == "5"
    ensures Imm(t) == Ok(5)
  {
    ImmDecimalRoundTrip(5);
    assert IntToDecimal(5) == t;
  }

  lemma AddiWord(c: Call)
    requires c == ICall(5, 0, 0, 10, OP_IMM)
    ensures Emit(c) == 0x0050_0513
  {
    IPacked(c.imm, c.rs1, c.funct3, c.rd, c.opcode);
    Pow2Table();
  }

  /** `jal x0, loop` four bytes after `loop` assembles to 0xFFDFF06F, the
      jump that closes a one-instruction loop. */
  lemma JumpBackExample(labels: map<string, int>, pc: int, q: seq<string>, name: string)
    requires q == ["jal", "x0", name] && name in labels && labels[name] == pc - 4
    ensures Encode(labels, pc, q) == Ok(0xFFDF_F06F)
  {
    LookupJal(q[0]);
    Dispatched(labels, pc, q, JumpAndLink);
    RegisterZero(q[1]);
    JumpAndLinkOperands(labels, pc, q);
    JumpBackWord(Operands(JumpAndLink, labels, pc, q).value);
  }

  lemma LookupJal(op: string)
    requires op == "jal"
    ensures Lookup(Lower(op)) == Some(JumpAndLink)
  {
    assert Lower(op) == "jal";
  }

  lemma JumpBackWord(c: Call)
    requires c == JCall(-4, 0, JAL)
    ensures Emit(c) == 0xFFDF_F06F
  {
    JumpBackFour();
  }

  /** `li rd, imm` is `addi rd, x0, imm`, down to which error a bad
      operand raises; the immediate is truncated to 12 bits like any other. */
  lemma LoadImmediateIsAddi(labels: map<string, int>, pc: int, parts: seq<string>, q: seq<string>)
    requires |parts| >= 3 && Lower(parts[0]) == "li"
    requires q == ["addi", parts[1], "x0", parts[2]]
    ensures Encode(labels, pc, parts) == Encode(labels, pc, q)
  {
    LookupAddi(q[0]);
    Dispatched(labels, pc, parts, LoadImmediate);
    Dispatched(labels, pc, q, RegImm(0));
    RegisterZero(q[2]);
    LoadImmediateOperands(labels, pc, parts);
    RegImmOperands(labels, pc, q, 0);
  }

  /** `mv rd, rs` is `addi rd, rs, 0`, down to which error a bad register
      raises. */
  lemma MoveIsAddi(labels: map<string, int>, pc: int, parts: seq<string>, q: seq<string>)
    requires |parts| >= 3 && Lower(parts[0]) == "mv"
    requires q == ["addi", parts[1], parts[2], "0"]
    ensures Encode(labels, pc, parts) == Encode(labels, pc, q)
  {
    LookupAddi(q[0]);
    Dispatched(labels, pc, parts, Move);
    Dispatched(labels, pc, q, RegImm(0));
    ImmediateZero(q[3]);
    MoveOperands(labels, pc, parts);
    RegImmOperands(labels, pc, q, 0);
  }

  lemma LoadImmediateOperands(labels: map<string, int>, pc: int, parts: seq<string>)
    ensures Operands(LoadImmediate, labels, pc, parts).Ok? <==> |parts| >= 3 && Imm(parts[2]).Ok? && Reg(parts[1]).Ok?
    ensures |parts| < 3 ==> Operands(LoadImmediate, labels, pc, parts) == Err(MissingOperand(2))
    ensures |parts| >= 3 && Imm(parts[2]).Err? ==> Operands(LoadImmediate, labels, pc, parts) == Err(Imm(parts[2]).error)
    ensures |parts| >= 3 && Imm(parts[2]).Ok? && Reg(parts[1]).Err? ==> Operands(LoadImmediate, labels, pc, parts) == Err(Reg(parts[1]).error)
    ensures Operands(LoadImmediate, labels, pc, parts).Ok? ==> Operands(LoadImmediate, labels, pc, parts).value == ICall(Imm(parts[2]).value, 0, 0, Reg(parts[1]).value, OP_IMM)
  {
  }

  lemma MoveOperands(labels: map<string, int>, pc: int, parts: seq<string>)
    ensures Operands(Move, labels, pc, parts).Ok? <==> |parts| >= 3 && Reg(parts[2]).Ok? && Reg(parts[1]).Ok?
    ensures |parts| < 3 ==> Operands(Move, labels, pc, parts) == Err(MissingOperand(2))
    ensures |parts| >= 3 && Reg(parts[2]).Err? ==> Operands(Move, labels, pc, parts) == Err(Reg(parts[2]).error)
    ensures |parts| >= 3 && Reg(parts[2]).Ok? && Reg(parts[1]).Err? ==> Operands(Move, labels, pc, parts) == Err(Reg(parts[1]).error)
    ensures Operands(Move, labels, pc, parts).Ok? ==> Operands(Move, labels, pc, parts).value == ICall(0, Reg(parts[2]).value, 0, Reg(parts[1]).value, OP_IMM)
  {
  }

  /** `li rd, imm`: an I-type word with `rs1 = x0`; only the low 12 bits
      of the immediate survive, with no check and no expansion. */
  lemma LoadImmediateEncoding(labels: map<string, int>, pc: int, parts: seq<string>)
    requires |parts| > 0 && Lookup(Lower(parts[0])) == Some(LoadImmediate)
    ensures Encode(labels, pc, parts).Ok? <==> |parts| >= 3 && Imm(parts[2]).Ok? && Reg(parts[1]).Ok?
    ensures |parts| < 3 ==> Encode(labels, pc, parts) == Err(MissingOperand(2))
    ensures Encode(labels, pc, parts).Ok? ==>
      var w, imm := Encode(labels, pc, parts).value, Imm(parts[2]).value;
      && 0 <= w < 0x1_0000_0000
      && Field(w, 0, 7) == OP_IMM
      && Field(w, 7, 5) == Reg(parts[1]).value
      && Field(w, 12, 3) == 0
      && Field(w, 15, 5) == 0
      && Field(w, 20, 12) == Mask(imm, 12)
      && (-0x800 <= imm < 0x800 ==> ImmI(w) == imm)
  {
    Dispatched(labels, pc, parts, LoadImmediate);
    LoadImmediateOperands(labels, pc, parts);
    if Encode(labels, pc, parts).Ok? {
      IWord(Imm(parts[2]).value, 0, 0, Reg(parts[1]).value, OP_IMM);
    }
  }

  /** `mv rd, rs`: an I-type word with a zero immediate. */
  lemma MoveEncoding(labels: map<string, int>, pc: int, parts: seq<string>)
    requires |parts| > 0 && Lookup(Lower(parts[0])) == Some(Move)
    ensures Encode(labels, pc, parts).Ok? <==> |parts| >= 3 && Reg(parts[2]).Ok? && Reg(parts[1]).Ok?
    ensures |parts| < 3 ==> Encode(labels, pc, parts) == Err(MissingOperand(2))
    ensures Encode(labels, pc, parts).Ok? ==>
      var w := Encode(labels, pc, parts).value;
      && 0 <= w < 0x1_0000_0000
      && Field(w, 0, 7) == OP_IMM
      && Field(w, 7, 5) == Reg(parts[1]).value
      && Field(w, 12, 3) == 0
      && Field(w, 15, 5) == Reg(parts[2]).value
      && Field(w, 20, 12) == 0
  {
    Dispatched(labels, pc, parts, Move);
    MoveOperands(labels, pc, parts);
    if Encode(labels, pc, parts).Ok? {
      IWord(0, Reg(parts[2]).value, 0, Reg(parts[1]).value, OP_IMM);
      assert Mask(0, 12) == 0;
    }
  }

  /** Whatever the instruction, a successful encoding is one 32-bit word,
      so it prints as exactly eight hexadecimal digits. */
  lemma EncodeWord(labels: map<string, int>, pc: int, parts: seq<string>)
    requires Encode(labels, pc, parts).Ok?
    ensures 0 <= Encode(labels, pc, parts).value < 0x1_0000_0000
  {
    var f := Lookup(Lower(parts[0])).value;
    if f.RegReg? || f.RegImm? || f.ShiftRightArith? {
      RegisterWord(labels, pc, parts, f);
    } else if f.Load? || f.Store? || f.JumpAndLinkRegister? {
      MemoryWord(labels, pc, parts, f);
    } else if f.Branch? || f.JumpAndLink? || f.Upper? {
      ControlWord(labels, pc, parts, f);
    } else {
      PseudoWord(labels, pc, parts, f);
    }
  }

  lemma RegisterWord(labels: map<string, int>, pc: int, parts: seq<string>, f: Form)
    requires Encode(labels, pc, parts).Ok? && Lookup(Lower(parts[0])) == Some(f)
    requires f.RegReg? || f.RegImm? || f.ShiftRightArith?
    ensures 0 <= Encode(labels, pc, parts).value < 0x1_0000_0000
  {
    match f
    case RegReg(funct7, funct3) => RegRegEncoding(labels, pc, parts, funct7, funct3);
    case RegImm(funct3) => RegImmEncoding(labels, pc, parts, funct3);
    case ShiftRightArith => ShiftRightArithEncoding(labels, pc, parts);
  }

  lemma MemoryWord(labels: map<string, int>, pc: int, parts: seq<string>, f: Form)
    requires Encode(labels, pc, parts).Ok? && Lookup(Lower(parts[0])) == Some(f)
    requires f.Load? || f.Store? || f.JumpAndLinkRegister?
    ensures 0 <= Encode(labels, pc, parts).value < 0x1_0000_0000
  {
    match f
    case Load(funct3) => LoadEncoding(labels, pc, parts, funct3);
    case Store(funct3) => StoreEncoding(labels, pc, parts, funct3);
    case JumpAndLinkRegister => JumpAndLinkRegisterEncoding(labels, pc, parts);
  }

  lemma ControlWord(labels: map<string, int>, pc: int, parts: seq<string>, f: Form)
    requires Encode(labels, pc, parts).Ok? && Lookup(Lower(parts[0])) == Some(f)
    requires f.Branch? || f.JumpAndLink? || f.Upper?
    ensures 0 <= Encode(labels, pc, parts).value < 0x1_0000_0000
  {
    match f
    case Branch(funct3) => BranchEncoding(labels, pc, parts, funct3);
    case JumpAndLink => JumpAndLinkEncoding(labels, pc, parts);
    case Upper(opcode) => UpperEncoding(labels, pc, parts, opcode);
  }

  lemma PseudoWord(labels: map<string, int>, pc: int, parts: seq<string>, f: Form)
    requires Encode(labels, pc, parts).Ok? && Lookup(Lower(parts[0])) == Some(f)
    requires f.Nop? || f.LoadImmediate? || f.Move?
    ensures 0 <= Encode(labels, pc, parts).value < 0x1_0000_0000
  {
    match f
    case Nop =>
      NopEncoding(labels, pc, parts);
    case LoadImmediate => LoadImmediateEncoding(labels, pc, parts);
    case Move => MoveEncoding(labels, pc, parts);
  }

  /** The mnemonic is matched after `lower()`, so its case does not matter. */
  lemma MnemonicCase(labels: map<string, int>, pc: int, parts: seq<string>)
    requires |parts| > 0
    ensures Encode(labels, pc, parts) == Encode(labels, pc, [Lower(parts[0])] + parts[1..])
  {
    var q := [Lower(parts[0])] + parts[1..];
    LowerIdempotent(parts[0]);
    assert Lower(q[0]) == Lower(parts[0]);
    if Lookup(Lower(parts[0])).Some? {
      var f := Lookup(Lower(parts[0])).value;
      Dispatched(labels, pc, parts, f);
      Dispatched(labels, pc, q, f);
      SameOperands(f, labels, pc, parts, q);
    }
  }

  /** Two token lists that agree past the mnemonic have the same operands. */
  lemma SameOperands(f: Form, labels: map<string, int>, pc: int, parts: seq<string>, q: seq<string>)
    requires |parts| == |q| > 0 && parts[1..] == q[1..]
    ensures Operands(f, labels, pc, parts) == Operands(f, labels, pc, q)
  {
    SameOperand(parts, q, 1);
    SameOperand(parts, q, 2);
    SameOperand(parts, q, 3);
  }

  lemma SameOperand(parts: seq<string>, q: seq<string>, i: nat)
    requires |parts| == |q| > 0 && parts[1..] == q[1..] && i > 0
    ensures Operand(parts, i) == Operand(q, i)
  {
    if i < |parts| {
      assert parts[i] == parts[1..][i - 1];
    }
  }
}
