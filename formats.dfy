/** The six base instruction formats of RV32I (sections 2.2 and 2.3 of the
    RISC-V Unprivileged ISA Specification, version 20191213): each encoder
    masks its fields to their widths and ORs them into place exactly as the
    Python does, so an out-of-range value is silently truncated. The decoders
    read the fields back; the lemmas say where every field lands and that a
    value in range survives the round trip. */
module Formats {
  import opened Bits

  /** R-type: funct7[31:25] rs2[24:20] rs1[19:15] funct3[14:12] rd[11:7] opcode[6:0]. */
  function R(funct7: int, rs2: int, rs1: int, funct3: int, rd: int, opcode: int): int
  {
    Or(Or(Or(Or(Or(Shl(Mask(funct7, 7), 25), Shl(Mask(rs2, 5), 20)), Shl(Mask(rs1, 5), 15)),
                Shl(Mask(funct3, 3), 12)), Shl(Mask(rd, 5), 7)), Mask(opcode, 7))
  }

  /** I-type: imm[11:0] at [31:20], then rs1, funct3, rd, opcode as in R. */
  function I(imm: int, rs1: int, funct3: int, rd: int, opcode: int): int
  {
    var m := Mask(imm, 12);
    Or(Or(Or(Or(Shl(m, 20), Shl(Mask(rs1, 5), 15)), Shl(Mask(funct3, 3), 12)),
          Shl(Mask(rd, 5), 7)), Mask(opcode, 7))
  }

  /** S-type: imm[11:5] rs2 rs1 funct3 imm[4:0] opcode; the opcode is ORed in unmasked. */
  function S(imm: int, rs2: int, rs1: int, funct3: int, opcode: int): int
  {
    var m := Mask(imm, 12);
    var hi, lo := Mask(Shr(m, 5), 7), Mask(m, 5);
    Or(Or(Or(Or(Or(Shl(hi, 25), Shl(Mask(rs2, 5), 20)), Shl(Mask(rs1, 5), 15)),
                Shl(Mask(funct3, 3), 12)), Shl(lo, 7)), opcode)
  }

  /** B-type: imm[12] imm[10:5] rs2 rs1 funct3 imm[4:1] imm[11] opcode; bit 0 of
      the offset is dropped and the opcode is ORed in unmasked. */
  function B(imm: int, rs2: int, rs1: int, funct3: int, opcode: int): int
  {
    var m := Mask(imm, 13);
    var b12, b10_5 := Mask(Shr(m, 12), 1), Mask(Shr(m, 5), 6);
    var b4_1, b11 := Mask(Shr(m, 1), 4), Mask(Shr(m, 11), 1);
    Or(Or(Or(Or(Or(Or(Or(Shl(b12, 31), Shl(b10_5, 25)), Shl(Mask(rs2, 5), 20)),
                      Shl(Mask(rs1, 5), 15)), Shl(Mask(funct3, 3), 12)),
             Shl(b4_1, 8)), Shl(b11, 7)), opcode)
  }

  /** U-type: `imm` (already shifted right by 12 by the caller) lands in
      [31:12] through `(imm << 12) & 0xFFFFF000`; the opcode is ORed in unmasked. */
  function U(imm: int, rd: int, opcode: int): int
  {
    Or(Or(MaskRange(Shl(imm, 12), 12, 32), Shl(Mask(rd, 5), 7)), opcode)
  }

  /** J-type: imm[20] imm[10:1] imm[11] imm[19:12] rd opcode; bit 0 of the
      offset is dropped and the opcode is ORed in unmasked. The pieces are
      ORed in the Python's order, which is not from the top down. */
  function J(imm: int, rd: int, opcode: int): int
  {
    var m := Mask(imm, 21);
    var b20, b19_12 := Mask(Shr(m, 20), 1), Mask(Shr(m, 12), 8);
    var b11, b10_1 := Mask(Shr(m, 11), 1), Mask(Shr(m, 1), 10);
    Or(Or(Or(Or(Or(Shl(b20, 31), Shl(b19_12, 12)), Shl(b11, 20)), Shl(b10_1, 21)),
          Shl(Mask(rd, 5), 7)), opcode)
  }

  /** The immediate an I-type word carries: bits 31:20, sign-extended. */
  function ImmI(w: int): int
  {
    SignExtend(Field(w, 20, 12), 12)
  }

  /** The immediate an S-type word carries: bits 31:25 then 11:7, sign-extended. */
  function ImmS(w: int): int
  {
    SignExtend(Field(w, 25, 7) * 0x20 + Field(w, 7, 5), 12)
  }

  /** The offset a B-type word carries: bit 31 is imm[12], bit 7 imm[11],
      bits 30:25 imm[10:5], bits 11:8 imm[4:1]; imm[0] is zero. */
  function ImmB(w: int): int
  {
    SignExtend(Field(w, 31, 1) * 0x1000 + Field(w, 7, 1) * 0x800
               + Field(w, 25, 6) * 0x20 + Field(w, 8, 4) * 2, 13)
  }

  /** The offset a J-type word carries: bit 31 is imm[20], bits 19:12
      imm[19:12], bit 20 imm[11], bits 30:21 imm[10:1]; imm[0] is zero. */
  function ImmJ(w: int): int
  {
    SignExtend(Field(w, 31, 1) * 0x10_0000 + Field(w, 12, 8) * 0x1000
               + Field(w, 20, 1) * 0x800 + Field(w, 21, 10) * 2, 21)
  }

  // ---- packing: with the fields masked, every OR adds bits into zeros ----

  lemma RPacked(funct7: int, rs2: int, rs1: int, funct3: int, rd: int, opcode: int)
    ensures var a, b, c, d, e, f := Mask(funct7, 7), Mask(rs2, 5), Mask(rs1, 5), Mask(funct3, 3), Mask(rd, 5), Mask(opcode, 7);
      R(funct7, rs2, rs1, funct3, rd, opcode) == a * 0x2000000 + b * 0x100000 + c * 0x8000 + d * 0x1000 + e * 0x80 + f
  {
    var a, b, c, d, e, f := Mask(funct7, 7), Mask(rs2, 5), Mask(rs1, 5), Mask(funct3, 3), Mask(rd, 5), Mask(opcode, 7);
    Pow2Table();
    var t1 := a * 0x20 + b;
    OrAppend(a, b, 25, 20, 0x20, t1);
    var t2 := t1 * 0x20 + c;
    OrAppend(t1, c, 20, 15, 0x20, t2);
    var t3 := t2 * 0x8 + d;
    OrAppend(t2, d, 15, 12, 0x8, t3);
    var t4 := t3 * 0x20 + e;
    OrAppend(t3, e, 12, 7, 0x20, t4);
    OrDisjoint(t4, f, 7);
  }

  lemma IPacked(imm: int, rs1: int, funct3: int, rd: int, opcode: int)
    ensures var m, b, c, d, f := Mask(imm, 12), Mask(rs1, 5), Mask(funct3, 3), Mask(rd, 5), Mask(opcode, 7);
      I(imm, rs1, funct3, rd, opcode) == m * 0x100000 + b * 0x8000 + c * 0x1000 + d * 0x80 + f
  {
    var m, b, c, d, f := Mask(imm, 12), Mask(rs1, 5), Mask(funct3, 3), Mask(rd, 5), Mask(opcode, 7);
    assert Pow2(12) == 0x1000 by { Pow2Table(); }
    Pow2Table();
    var t1 := m * 0x20 + b;
    OrAppend(m, b, 20, 15, 0x20, t1);
    var t2 := t1 * 0x8 + c;
    OrAppend(t1, c, 15, 12, 0x8, t2);
    var t3 := t2 * 0x20 + d;
    OrAppend(t2, d, 12, 7, 0x20, t3);
    OrDisjoint(t3, f, 7);
  }

  lemma SPacked(imm: int, rs2: int, rs1: int, funct3: int, opcode: int)
    requires 0 <= opcode < 0x80
    ensures var m := Mask(imm, 12);
      var hi, b, c, d, lo := Mask(Shr(m, 5), 7), Mask(rs2, 5), Mask(rs1, 5), Mask(funct3, 3), Mask(m, 5);
      S(imm, rs2, rs1, funct3, opcode) == hi * 0x2000000 + b * 0x100000 + c * 0x8000 + d * 0x1000 + lo * 0x80 + opcode
  {
    var m := Mask(imm, 12);
    SChain(Mask(Shr(m, 5), 7), Mask(rs2, 5), Mask(rs1, 5), Mask(funct3, 3), Mask(m, 5), opcode);
  }

  lemma SChain(hi: int, b: int, c: int, d: int, lo: int, opcode: int)
    requires 0 <= hi < 0x80 && 0 <= b < 0x20 && 0 <= c < 0x20 && 0 <= d < 0x8 && 0 <= lo < 0x20 && 0 <= opcode < 0x80
    ensures Or(Or(Or(Or(Or(Shl(hi, 25), Shl(b, 20)), Shl(c, 15)), Shl(d, 12)), Shl(lo, 7)), opcode)
      == hi * 0x2000000 + b * 0x100000 + c * 0x8000 + d * 0x1000 + lo * 0x80 + opcode
  {
    Pow2Table();
    var t1 := hi * 0x20 + b;
    OrAppend(hi, b, 25, 20, 0x20, t1);
    var t2 := t1 * 0x20 + c;
    OrAppend(t1, c, 20, 15, 0x20, t2);
    var t3 := t2 * 0x8 + d;
    OrAppend(t2, d, 15, 12, 0x8, t3);
    var t4 := t3 * 0x20 + lo;
    OrAppend(t3, lo, 12, 7, 0x20, t4);
    OrDisjoint(t4, opcode, 7);
  }

  lemma BPacked(imm: int, rs2: int, rs1: int, funct3: int, opcode: int)
    requires 0 <= opcode < 0x80
    ensures var m := Mask(imm, 13);
      var b12, b10_5, b4_1, b11 := Mask(Shr(m, 12), 1), Mask(Shr(m, 5), 6), Mask(Shr(m, 1), 4), Mask(Shr(m, 11), 1);
      var b, c, d := Mask(rs2, 5), Mask(rs1, 5), Mask(funct3, 3);
      B(imm, rs2, rs1, funct3, opcode) == b12 * 0x80000000 + b10_5 * 0x2000000 + b * 0x100000 + c * 0x8000 + d * 0x1000 + b4_1 * 0x100 + b11 * 0x80 + opcode
  {
    var m := Mask(imm, 13);
    BChain(Mask(Shr(m, 12), 1), Mask(Shr(m, 5), 6), Mask(rs2, 5), Mask(rs1, 5), Mask(funct3, 3),
           Mask(Shr(m, 1), 4), Mask(Shr(m, 11), 1), opcode);
  }

  lemma BChain(b12: int, b10_5: int, b: int, c: int, d: int, b4_1: int, b11: int, opcode: int)
    requires 0 <= b12 < 2 && 0 <= b10_5 < 0x40 && 0 <= b < 0x20 && 0 <= c < 0x20 && 0 <= d < 0x8
    requires 0 <= b4_1 < 0x10 && 0 <= b11 < 2 && 0 <= opcode < 0x80
    ensures Or(Or(Or(Or(Or(Or(Or(Shl(b12, 31), Shl(b10_5, 25)), Shl(b, 20)), Shl(c, 15)), Shl(d, 12)),
                  Shl(b4_1, 8)), Shl(b11, 7)), opcode)
      == b12 * 0x80000000 + b10_5 * 0x2000000 + b * 0x100000 + c * 0x8000 + d * 0x1000 + b4_1 * 0x100 + b11 * 0x80 + opcode
  {
    Pow2Table();
    var t1 := b12 * 0x40 + b10_5;
    OrAppend(b12, b10_5, 31, 25, 0x40, t1);
    var t2 := t1 * 0x20 + b;
    OrAppend(t1, b, 25, 20, 0x20, t2);
    var t3 := t2 * 0x20 + c;
    OrAppend(t2, c, 20, 15, 0x20, t3);
    var t4 := t3 * 0x8 + d;
    OrAppend(t3, d, 15, 12, 0x8, t4);
    var t5 := t4 * 0x10 + b4_1;
    OrAppend(t4, b4_1, 12, 8, 0x10, t5);
    var t6 := t5 * 0x2 + b11;
    OrAppend(t5, b11, 8, 7, 0x2, t6);
    OrDisjoint(t6, opcode, 7);
  }

  lemma UPacked(imm: int, rd: int, opcode: int)
    requires 0 <= opcode < 0x80
    ensures U(imm, rd, opcode) == Mask(imm, 20) * 0x1000 + Mask(rd, 5) * 0x80 + opcode
  {
    Pow2Table();
    var u, d := Mask(imm, 20), Mask(rd, 5);
    var x := Shl(imm, 12);
    DivUnique(x, 0x1_0000_0000, imm / 0x10_0000, u * 0x1000);
    DivUnique(x, 0x1000, imm, 0);
    assert MaskRange(x, 12, 32) == u * 0x1000;
    OrDisjoint(u, Shl(d, 7), 12);
    OrDisjoint(u * 0x20 + d, opcode, 7);
  }

  lemma JPacked(imm: int, rd: int, opcode: int)
    requires 0 <= opcode < 0x80
    ensures var m := Mask(imm, 21);
      var b20, b19_12, b11, b10_1 := Mask(Shr(m, 20), 1), Mask(Shr(m, 12), 8), Mask(Shr(m, 11), 1), Mask(Shr(m, 1), 10);
      J(imm, rd, opcode) == b20 * 0x80000000 + b10_1 * 0x200000 + b11 * 0x100000 + b19_12 * 0x1000 + Mask(rd, 5) * 0x80 + opcode
  {
    var m := Mask(imm, 21);
    JChain(Mask(Shr(m, 20), 1), Mask(Shr(m, 12), 8), Mask(Shr(m, 11), 1), Mask(Shr(m, 1), 10), Mask(rd, 5), opcode);
  }

  lemma JChain(b20: int, b19_12: int, b11: int, b10_1: int, d: int, opcode: int)
    requires 0 <= b20 < 2 && 0 <= b19_12 < 0x100 && 0 <= b11 < 2 && 0 <= b10_1 < 0x400
    requires 0 <= d < 0x20 && 0 <= opcode < 0x80
    ensures Or(Or(Or(Or(Or(Shl(b20, 31), Shl(b19_12, 12)), Shl(b11, 20)), Shl(b10_1, 21)), Shl(d, 7)), opcode)
      == b20 * 0x80000000 + b10_1 * 0x200000 + b11 * 0x100000 + b19_12 * 0x1000 + d * 0x80 + opcode
  {
    var x3 := Or(Or(Or(Shl(b20, 31), Shl(b19_12, 12)), Shl(b11, 20)), Shl(b10_1, 21));
    JImmediateChain(b20, b19_12, b11, b10_1);
    var h := b20 * 0x80000 + b10_1 * 0x200 + b11 * 0x100 + b19_12;
    JLowChain(x3, h, d, opcode);
  }

  /** The register and opcode fields OR-ed below a J-type immediate. */
  lemma JLowChain(x3: int, h: int, d: int, opcode: int)
    requires x3 == h * 0x1000 && 0 <= d < 0x20 && 0 <= opcode < 0x80
    ensures Or(Or(x3, Shl(d, 7)), opcode) == h * 0x1000 + d * 0x80 + opcode
  {
    assert Pow2(5) == 0x20 && Pow2(7) == 0x80 && Pow2(12) == 0x1000 by { Pow2Table(); }
    var u := h * 0x20 + d;
    OrAppend(h, d, 12, 7, 0x20, u);
    OrDisjoint(u, opcode, 7);
  }

  /** The four immediate pieces of a J-type word, OR-ed together. */
  lemma JImmediateChain(b20: int, b19_12: int, b11: int, b10_1: int)
    requires 0 <= b20 < 2 && 0 <= b19_12 < 0x100 && 0 <= b11 < 2 && 0 <= b10_1 < 0x400
    ensures Or(Or(Or(Shl(b20, 31), Shl(b19_12, 12)), Shl(b11, 20)), Shl(b10_1, 21))
      == b20 * 0x80000000 + b10_1 * 0x200000 + b11 * 0x100000 + b19_12 * 0x1000
  {
    Pow2Table();
    var x1 := Or(Shl(b20, 31), Shl(b19_12, 12));
    assert x1 == b20 * 0x80000000 + b19_12 * 0x1000 by {
      OrDisjoint(b20, Shl(b19_12, 12), 31);
    }
    var x2 := Or(x1, Shl(b11, 20));
    assert x2 == b20 * 0x80000000 + b11 * 0x100000 + b19_12 * 0x1000 by {
      assert x1 == Shl(b20 * 0x800, 20) + b19_12 * 0x1000;
      OrHigh(b20 * 0x800, b11, b19_12 * 0x1000, 20);
      assert b20 * 0x800 == Shl(b20 * 0x400, 1);
      OrDisjoint(b20 * 0x400, b11, 1);
    }
    assert x2 == Shl(b20 * 0x400, 21) + (b11 * 0x100000 + b19_12 * 0x1000);
    OrHigh(b20 * 0x400, b10_1, b11 * 0x100000 + b19_12 * 0x1000, 21);
    assert b20 * 0x400 == Shl(b20, 10);
    OrDisjoint(b20, b10_1, 10);
  }

  // ---- field placement: every field reads back from the bits the format gives it ----

  lemma RFields(funct7: int, rs2: int, rs1: int, funct3: int, rd: int, opcode: int)
    ensures var w := R(funct7, rs2, rs1, funct3, rd, opcode);
      && 0 <= w < 0x1_0000_0000
      && Field(w, 0, 7) == Mask(opcode, 7)
      && Field(w, 7, 5) == Mask(rd, 5)
      && Field(w, 12, 3) == Mask(funct3, 3)
      && Field(w, 15, 5) == Mask(rs1, 5)
      && Field(w, 20, 5) == Mask(rs2, 5)
      && Field(w, 25, 7) == Mask(funct7, 7)
  {
    Pow2Table();
    RPacked(funct7, rs2, rs1, funct3, rd, opcode);
    var w := R(funct7, rs2, rs1, funct3, rd, opcode);
    var a, b, c, d, e, f := Mask(funct7, 7), Mask(rs2, 5), Mask(rs1, 5), Mask(funct3, 3), Mask(rd, 5), Mask(opcode, 7);
    FieldOf(w, 0, a, b * 0x100000 + c * 0x8000 + d * 0x1000 + e * 0x80 + f, 25, 7, 0x80, 0x2000000);
    FieldOf(w, a, b, c * 0x8000 + d * 0x1000 + e * 0x80 + f, 20, 5, 0x20, 0x100000);
    FieldOf(w, a * 0x20 + b, c, d * 0x1000 + e * 0x80 + f, 15, 5, 0x20, 0x8000);
    FieldOf(w, a * 0x400 + b * 0x20 + c, d, e * 0x80 + f, 12, 3, 0x8, 0x1000);
    FieldOf(w, a * 0x2000 + b * 0x100 + c * 0x8 + d, e, f, 7, 5, 0x20, 0x80);
    FieldOf(w, a * 0x40000 + b * 0x2000 + c * 0x100 + d * 0x20 + e, f, 0, 0, 7, 0x80, 0x1);
  }

  lemma IFields(imm: int, rs1: int, funct3: int, rd: int, opcode: int)
    ensures var w := I(imm, rs1, funct3, rd, opcode);
      && 0 <= w < 0x1_0000_0000
      && Field(w, 0, 7) == Mask(opcode, 7)
      && Field(w, 7, 5) == Mask(rd, 5)
      && Field(w, 12, 3) == Mask(funct3, 3)
      && Field(w, 15, 5) == Mask(rs1, 5)
      && Field(w, 20, 12) == Mask(imm, 12)
  {
    Pow2Table();
    IPacked(imm, rs1, funct3, rd, opcode);
    var w := I(imm, rs1, funct3, rd, opcode);
    var m, b, c, d, f := Mask(imm, 12), Mask(rs1, 5), Mask(funct3, 3), Mask(rd, 5), Mask(opcode, 7);
    FieldOf(w, 0, m, b * 0x8000 + c * 0x1000 + d * 0x80 + f, 20, 12, 0x1000, 0x100000);
    FieldOf(w, m, b, c * 0x1000 + d * 0x80 + f, 15, 5, 0x20, 0x8000);
    FieldOf(w, m * 0x20 + b, c, d * 0x80 + f, 12, 3, 0x8, 0x1000);
    FieldOf(w, m * 0x100 + b * 0x8 + c, d, f, 7, 5, 0x20, 0x80);
    FieldOf(w, m * 0x2000 + b * 0x100 + c * 0x20 + d, f, 0, 0, 7, 0x80, 0x1);
  }

  lemma SFields(imm: int, rs2: int, rs1: int, funct3: int, opcode: int)
    requires 0 <= opcode < 0x80
    ensures var w := S(imm, rs2, rs1, funct3, opcode);
      && 0 <= w < 0x1_0000_0000
      && Field(w, 0, 7) == opcode
      && Field(w, 12, 3) == Mask(funct3, 3)
      && Field(w, 15, 5) == Mask(rs1, 5)
      && Field(w, 20, 5) == Mask(rs2, 5)
      && Field(w, 25, 7) * 0x20 + Field(w, 7, 5) == Mask(imm, 12)
  {
    Pow2Table();
    SPacked(imm, rs2, rs1, funct3, opcode);
    var w := S(imm, rs2, rs1, funct3, opcode);
    var m := Mask(imm, 12);
    var hi, b, c, d, lo := Mask(Shr(m, 5), 7), Mask(rs2, 5), Mask(rs1, 5), Mask(funct3, 3), Mask(m, 5);
    FieldOf(w, 0, hi, b * 0x100000 + c * 0x8000 + d * 0x1000 + lo * 0x80 + opcode, 25, 7, 0x80, 0x2000000);
    FieldOf(w, hi, b, c * 0x8000 + d * 0x1000 + lo * 0x80 + opcode, 20, 5, 0x20, 0x100000);
    FieldOf(w, hi * 0x20 + b, c, d * 0x1000 + lo * 0x80 + opcode, 15, 5, 0x20, 0x8000);
    FieldOf(w, hi * 0x400 + b * 0x20 + c, d, lo * 0x80 + opcode, 12, 3, 0x8, 0x1000);
    FieldOf(w, hi * 0x2000 + b * 0x100 + c * 0x8 + d, lo, opcode, 7, 5, 0x20, 0x80);
    FieldOf(w, hi * 0x40000 + b * 0x2000 + c * 0x100 + d * 0x20 + lo, opcode, 0, 0, 7, 0x80, 0x1);
    SOffsetBits(m);
  }

  /** The S offset's two pieces put back together give the offset. */
  lemma SOffsetBits(m: int)
    requires 0 <= m < 0x1000
    ensures Mask(Shr(m, 5), 7) * 0x20 + Mask(m, 5) == m
  {
    Pow2Table();
    ShrSplit(m, 0, 5);
    ShrSplit(m, 5, 7);
    assert Shr(m, 12) == 0 by {
      assert Pow2(12) == 0x1000 by { Pow2Table(); }
      DivUnique(m, Pow2(12), 0, m);
    }
  }

  lemma BFields(imm: int, rs2: int, rs1: int, funct3: int, opcode: int)
    requires 0 <= opcode < 0x80
    ensures var w := B(imm, rs2, rs1, funct3, opcode);
      && 0 <= w < 0x1_0000_0000
      && Field(w, 0, 7) == opcode
      && Field(w, 12, 3) == Mask(funct3, 3)
      && Field(w, 15, 5) == Mask(rs1, 5)
      && Field(w, 20, 5) == Mask(rs2, 5)
      && Field(w, 31, 1) * 0x1000 + Field(w, 7, 1) * 0x800 + Field(w, 25, 6) * 0x20 + Field(w, 8, 4) * 2
         == Mask(imm, 13) - Mask(imm, 13) % 2
  {
    Pow2Table();
    BPacked(imm, rs2, rs1, funct3, opcode);
    var w := B(imm, rs2, rs1, funct3, opcode);
    var m := Mask(imm, 13);
    var b12, b10_5, b4_1, b11 := Mask(Shr(m, 12), 1), Mask(Shr(m, 5), 6), Mask(Shr(m, 1), 4), Mask(Shr(m, 11), 1);
    var b, c, d := Mask(rs2, 5), Mask(rs1, 5), Mask(funct3, 3);
    FieldOf(w, 0, b12, b10_5 * 0x2000000 + b * 0x100000 + c * 0x8000 + d * 0x1000 + b4_1 * 0x100 + b11 * 0x80 + opcode, 31, 1, 0x2, 0x80000000);
    FieldOf(w, b12, b10_5, b * 0x100000 + c * 0x8000 + d * 0x1000 + b4_1 * 0x100 + b11 * 0x80 + opcode, 25, 6, 0x40, 0x2000000);
    FieldOf(w, b12 * 0x40 + b10_5, b, c * 0x8000 + d * 0x1000 + b4_1 * 0x100 + b11 * 0x80 + opcode, 20, 5, 0x20, 0x100000);
    FieldOf(w, b12 * 0x800 + b10_5 * 0x20 + b, c, d * 0x1000 + b4_1 * 0x100 + b11 * 0x80 + opcode, 15, 5, 0x20, 0x8000);
    FieldOf(w, b12 * 0x10000 + b10_5 * 0x400 + b * 0x20 + c, d, b4_1 * 0x100 + b11 * 0x80 + opcode, 12, 3, 0x8, 0x1000);
    FieldOf(w, b12 * 0x80000 + b10_5 * 0x2000 + b * 0x100 + c * 0x8 + d, b4_1, b11 * 0x80 + opcode, 8, 4, 0x10, 0x100);
    FieldOf(w, b12 * 0x800000 + b10_5 * 0x20000 + b * 0x1000 + c * 0x80 + d * 0x10 + b4_1, b11, opcode, 7, 1, 0x2, 0x80);
    FieldOf(w, b12 * 0x1000000 + b10_5 * 0x40000 + b * 0x2000 + c * 0x100 + d * 0x20 + b4_1 * 0x2 + b11, opcode, 0, 0, 7, 0x80, 0x1);
    BOffsetBits(m);
  }

  lemma UFields(imm: int, rd: int, opcode: int)
    requires 0 <= opcode < 0x80
    ensures var w := U(imm, rd, opcode);
      && 0 <= w < 0x1_0000_0000
      && Field(w, 0, 7) == opcode
      && Field(w, 7, 5) == Mask(rd, 5)
      && Field(w, 12, 20) == Mask(imm, 20)
      && Mask(w, 12) == Mask(rd, 5) * 0x80 + opcode
  {
    Pow2Table();
    UPacked(imm, rd, opcode);
    var w := U(imm, rd, opcode);
    var u, d := Mask(imm, 20), Mask(rd, 5);
    FieldOf(w, 0, u, d * 0x80 + opcode, 12, 20, 0x100000, 0x1000);
    FieldOf(w, u, d, opcode, 7, 5, 0x20, 0x80);
    FieldOf(w, u * 0x20 + d, opcode, 0, 0, 7, 0x80, 0x1);
    DivUnique(w, 0x1000, u, d * 0x80 + opcode);
  }

  lemma JFields(imm: int, rd: int, opcode: int)
    requires 0 <= opcode < 0x80
    ensures var w := J(imm, rd, opcode);
      && 0 <= w < 0x1_0000_0000
      && Field(w, 0, 7) == opcode
      && Field(w, 7, 5) == Mask(rd, 5)
      && Field(w, 31, 1) * 0x10_0000 + Field(w, 12, 8) * 0x1000 + Field(w, 20, 1) * 0x800 + Field(w, 21, 10) * 2
         == Mask(imm, 21) - Mask(imm, 21) % 2
  {
    Pow2Table();
    JPacked(imm, rd, opcode);
    var w := J(imm, rd, opcode);
    var m := Mask(imm, 21);
    var b20, b19_12, b11, b10_1 := Mask(Shr(m, 20), 1), Mask(Shr(m, 12), 8), Mask(Shr(m, 11), 1), Mask(Shr(m, 1), 10);
    var d := Mask(rd, 5);
    FieldOf(w, 0, b20, b10_1 * 0x200000 + b11 * 0x100000 + b19_12 * 0x1000 + d * 0x80 + opcode, 31, 1, 0x2, 0x80000000);
    FieldOf(w, b20, b10_1, b11 * 0x100000 + b19_12 * 0x1000 + d * 0x80 + opcode, 21, 10, 0x400, 0x200000);
    FieldOf(w, b20 * 0x400 + b10_1, b11, b19_12 * 0x1000 + d * 0x80 + opcode, 20, 1, 0x2, 0x100000);
    FieldOf(w, b20 * 0x800 + b10_1 * 0x2 + b11, b19_12, d * 0x80 + opcode, 12, 8, 0x100, 0x1000);
    FieldOf(w, b20 * 0x80000 + b10_1 * 0x200 + b11 * 0x100 + b19_12, d, opcode, 7, 5, 0x20, 0x80);
    FieldOf(w, b20 * 0x1000000 + b10_1 * 0x4000 + b11 * 0x2000 + b19_12 * 0x20 + d, opcode, 0, 0, 7, 0x80, 0x1);
    JOffsetBits(m);
  }

  /** The B offset's pieces put back together give the offset without its bit 0. */
  lemma BOffsetBits(m: int)
    requires 0 <= m < 0x2000
    ensures Mask(Shr(m, 12), 1) * 0x1000 + Mask(Shr(m, 11), 1) * 0x800 + Mask(Shr(m, 5), 6) * 0x20
            + Mask(Shr(m, 1), 4) * 2 == m - m % 2
  {
    Pow2Table();
    ShrSplit(m, 0, 1);
    ShrSplit(m, 1, 4);
    ShrSplit(m, 5, 6);
    ShrSplit(m, 11, 1);
    ShrSplit(m, 12, 1);
    assert Shr(m, 13) == 0 by {
      assert Pow2(13) == 0x2000 by { Pow2Table(); }
      DivUnique(m, Pow2(13), 0, m);
    }
  }

  /** The J offset's pieces put back together give the offset without its bit 0. */
  lemma JOffsetBits(m: int)
    requires 0 <= m < 0x20_0000
    ensures Mask(Shr(m, 20), 1) * 0x10_0000 + Mask(Shr(m, 12), 8) * 0x1000 + Mask(Shr(m, 11), 1) * 0x800
            + Mask(Shr(m, 1), 10) * 2 == m - m % 2
  {
    Pow2Table();
    assert Pow2(10) == 0x400 by { Pow2Table(); }
    ShrSplit(m, 0, 1);
    ShrSplit(m, 1, 10);
    ShrSplit(m, 11, 1);
    ShrSplit(m, 12, 8);
    ShrSplit(m, 20, 1);
    assert Shr(m, 21) == 0 by {
      assert Pow2(21) == 0x20_0000 by { Pow2Table(); }
      DivUnique(m, Pow2(21), 0, m);
    }
  }

  /** Sign-extending the low `width` bits of an in-range value gives it back. */
  lemma SignExtendMask(v: int, width: nat)
    requires width > 0
    requires -(Pow2(width - 1) as int) <= v < Pow2(width - 1)
    ensures SignExtend(Mask(v, width), width) == v
  {
    assert Pow2(width) == 2 * Pow2(width - 1);
    if v >= 0 {
      DivUnique(v, Pow2(width), 0, v);
    } else {
      DivUnique(v, Pow2(width), -1, v + Pow2(width));
    }
  }

  // ---- round trips: an immediate in range is recovered by sign extension ----

  lemma IImmediateRoundTrip(imm: int, rs1: int, funct3: int, rd: int, opcode: int)
    requires -0x800 <= imm < 0x800
    ensures ImmI(I(imm, rs1, funct3, rd, opcode)) == imm
  {
    IFields(imm, rs1, funct3, rd, opcode);
    var f := Field(I(imm, rs1, funct3, rd, opcode), 20, 12);
    assert f == Mask(imm, 12);
    SignExtendMask(imm, 12);
  }

  lemma SImmediateRoundTrip(imm: int, rs2: int, rs1: int, funct3: int, opcode: int)
    requires -0x800 <= imm < 0x800 && 0 <= opcode < 0x80
    ensures ImmS(S(imm, rs2, rs1, funct3, opcode)) == imm
  {
    SFields(imm, rs2, rs1, funct3, opcode);
    SignExtendMask(imm, 12);
  }

  lemma BOffsetRoundTrip(imm: int, rs2: int, rs1: int, funct3: int, opcode: int)
    requires -0x1000 <= imm < 0x1000 && imm % 2 == 0 && 0 <= opcode < 0x80
    ensures ImmB(B(imm, rs2, rs1, funct3, opcode)) == imm
  {
    BFields(imm, rs2, rs1, funct3, opcode);
    MaskParity(imm, 13);
    SignExtendMask(imm, 13);
  }

  lemma JOffsetRoundTrip(imm: int, rd: int, opcode: int)
    requires -0x10_0000 <= imm < 0x10_0000 && imm % 2 == 0 && 0 <= opcode < 0x80
    ensures ImmJ(J(imm, rd, opcode)) == imm
  {
    JFields(imm, rd, opcode);
    MaskParity(imm, 21);
    assert Pow2(20) == 0x10_0000 by { Pow2Table(); }
    SignExtendMask(imm, 21);
  }

  /** Bit 0 of a branch offset never reaches the word. */
  lemma BIgnoresBit0(imm: int, rs2: int, rs1: int, funct3: int, opcode: int)
    ensures B(imm, rs2, rs1, funct3, opcode) == B(imm - imm % 2, rs2, rs1, funct3, opcode)
  {
    var m := Mask(imm, 13);
    MaskClearBit0(imm, 13);
    ShrClearBit0(m, 1);
    ShrClearBit0(m, 5);
    ShrClearBit0(m, 11);
    ShrClearBit0(m, 12);
  }

  /** Bit 0 of a jump offset never reaches the word. */
  lemma JIgnoresBit0(imm: int, rd: int, opcode: int)
    ensures J(imm, rd, opcode) == J(imm - imm % 2, rd, opcode)
  {
    var m := Mask(imm, 21);
    MaskClearBit0(imm, 21);
    ShrClearBit0(m, 1);
    ShrClearBit0(m, 11);
    ShrClearBit0(m, 12);
    ShrClearBit0(m, 20);
  }

  /** `jal x0, -4`, the jump of a two-instruction loop. */
  lemma JumpBackFour()
    ensures J(-4, 0, 0x6F) == 0xFFDF_F06F
  {
    JPacked(-4, 0, 0x6F);
    var m := Mask(-4, 21);
    assert m == 0x1F_FFFC by {
      assert Pow2(21) == 0x20_0000 by { Pow2Table(); }
      DivUnique(-4, Pow2(21), -1, 0x1F_FFFC);
    }
    assert Shr(m, 20) == 1 by {
      assert Pow2(20) == 0x10_0000 by { Pow2Table(); }
      DivUnique(m, Pow2(20), 1, 0xF_FFFC);
    }
    assert Mask(Shr(m, 12), 8) == 0xFF by {
      assert Pow2(12) == 0x1000 && Pow2(8) == 0x100 by { Pow2Table(); }
      DivUnique(m, Pow2(12), 0x1FF, 0xFFC);
      DivUnique(0x1FF, Pow2(8), 1, 0xFF);
    }
    assert Shr(m, 11) == 0x3FF by {
      assert Pow2(11) == 0x800 by { Pow2Table(); }
      DivUnique(m, Pow2(11), 0x3FF, 0x7FC);
    }
    assert Mask(Shr(m, 1), 10) == 0x3FE by {
      assert Pow2(10) == 0x400 by { Pow2Table(); }
      DivUnique(m, Pow2(1), 0xF_FFFE, 0);
      DivUnique(0xF_FFFE, Pow2(10), 0x3FF, 0x3FE);
    }
    assert Mask(Shr(m, 11), 1) == 1 by {
      DivUnique(0x3FF, Pow2(1), 0x1FF, 1);
    }
    assert Mask(Shr(m, 20), 1) == 1 by {
      DivUnique(1, Pow2(1), 0, 1);
    }
    assert Mask(0, 5) == 0 by {
      DivUnique(0, Pow2(5), 0, 0);
    }
    assert 0x8000_0000 + 0x3FE * 0x20_0000 + 0x10_0000 + 0xFF * 0x1000 + 0 * 0x80 + 0x6F == 0xFFDF_F06F;
  }
}
