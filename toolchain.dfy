/**
 * The assembler and the emulator agree on the instruction word: the fields
 * the encoder packs are the fields `extract_bits` and `decode` read back,
 * the register aliases name the emulator's special registers, and the
 * loader joins the byte pairs the assembler splits.
 */
module Toolchain {
  import opened Wrappers
  import opened Bits
  import opened Text
  import opened RegisterFile
  import opened Instructions
  import opened Execute
  import opened CpuCycle
  import opened EmulatorMain
  import Encoder
  import Parser

  /**
   * A field is recovered from any word that holds it at its place: `hi`
   * above it and `low` below it.
   */
  lemma FieldOf(num: U16, size: nat, roff: nat, hi: nat, f: nat, low: nat)
    requires roff + size <= 16
    requires f < Pow2(size) && low < Pow2(16 - roff - size)
    requires num == (hi * Pow2(size) + f) * Pow2(16 - roff - size) + low
    ensures Field(num, size, roff) == f
  {
    var lo := 16 - roff - size;
    ShrIsDiv(num, lo);
    DivModOf(num, Pow2(lo), hi * Pow2(size) + f, low);
    DivModOf(hi * Pow2(size) + f, Pow2(size), hi, f);
  }

  /** A T1 word decodes to its opcode, its register and its 8-bit constant. */
  lemma DecodeT1(op: U8, r: U8, c: U8)
    requires op < 32 && r < 8
    ensures Decode(Encoder.WordOf(Encoder.Encode(Encoder.T1(op, r, c)))) == op
    ensures Reg0(Encoder.WordOf(Encoder.Encode(Encoder.T1(op, r, c)))) == r
    ensures MovConstant(Encoder.WordOf(Encoder.Encode(Encoder.T1(op, r, c)))) == c
  {
    Encoder.EncodeT1Word(op, r, c);
    var w := Encoder.WordOf(Encoder.Encode(Encoder.T1(op, r, c)));
    Pow2Values();
    assert Pow2(0) == 1;
    FieldOf(w, OPCODE_SIZE, 0, 0, op, r * 0x100 + c);
    FieldOf(w, REG_ADDR_SIZE, REG_POS0_ROFFSET, op, r, c);
    FieldOf(w, MOV_CONSTANT_SIZE, MOV_CONSTANT_ROFFSET, op * 8 + r, c, 0);
  }

  /** A T2 word decodes to its opcode, both registers and the 5-bit field. */
  lemma DecodeT2(op: U8, rp0: U8, rp1: U8, f1: U8)
    requires op < 32 && rp0 < 8 && rp1 < 8 && f1 < 32
    ensures Decode(Encoder.WordOf(Encoder.Encode(Encoder.T2(op, rp0, rp1, f1)))) == op
    ensures Reg0(Encoder.WordOf(Encoder.Encode(Encoder.T2(op, rp0, rp1, f1)))) == rp0
    ensures Reg1(Encoder.WordOf(Encoder.Encode(Encoder.T2(op, rp0, rp1, f1)))) == rp1
    ensures MemOffset(Encoder.WordOf(Encoder.Encode(Encoder.T2(op, rp0, rp1, f1)))) == f1
    ensures MathConstant(Encoder.WordOf(Encoder.Encode(Encoder.T2(op, rp0, rp1, f1)))) == f1
  {
    Encoder.EncodeT2Word(op, rp0, rp1, f1);
    var w := Encoder.WordOf(Encoder.Encode(Encoder.T2(op, rp0, rp1, f1)));
    Pow2Values();
    assert Pow2(0) == 1;
    FieldOf(w, OPCODE_SIZE, 0, 0, op, rp0 * 0x100 + rp1 * 0x20 + f1);
    FieldOf(w, REG_ADDR_SIZE, REG_POS0_ROFFSET, op, rp0, rp1 * 0x20 + f1);
    FieldOf(w, REG_ADDR_SIZE, REG_POS1_ROFFSET, op * 8 + rp0, rp1, f1);
    FieldOf(w, MEM_OFFSET_SIZE, MEM_OFFSET_ROFFSET, (op * 8 + rp0) * 8 + rp1, f1, 0);
  }

  /** A T3 word decodes to its opcode and its 11-bit label. */
  lemma DecodeT3(op: U8, f2: U16)
    requires op < 32 && f2 < 0x800
    ensures Decode(Encoder.WordOf(Encoder.Encode(Encoder.T3(op, f2)))) == op
    ensures Label(Encoder.WordOf(Encoder.Encode(Encoder.T3(op, f2)))) == f2
  {
    Encoder.EncodeT3Word(op, f2);
    var w := Encoder.WordOf(Encoder.Encode(Encoder.T3(op, f2)));
    Pow2Values();
    assert Pow2(0) == 1;
    FieldOf(w, OPCODE_SIZE, 0, 0, op, f2);
    FieldOf(w, MEM_LABEL_SIZE, MEM_LABEL_ROFFSET, op, f2, 0);
  }

  /** The assembler's `sp` and `mbr` are the emulator's stack pointer and memory buffer register. */
  lemma RegisterAliases()
    ensures Encoder.REGISTERS["sp"] as int == SP_PTR && Encoder.REGISTERS["mbr"] as int == MBR_PTR
    ensures SP_PTR < REG_TOTAL_NUM && MBR_PTR < REG_TOTAL_NUM
  {
    Encoder.RegisterTable();
  }

  /** The loader joins the byte pairs the assembler splits words into. */
  lemma {:induction false} LoadSplitWords(ws: seq<U16>)
    ensures |Parser.WordsToBytes(ws)| % 2 == 0
    ensures Words(Parser.WordsToBytes(ws)) == ws
    decreases |ws|
  {
    if ws != [] {
      var front := ws[..|ws| - 1];
      var last := ws[|ws| - 1];
      LoadSplitWords(front);
      var bs := Parser.WordsToBytes(ws);
      assert bs == Parser.WordsToBytes(front) + [last / 0x100, last % 0x100];
      assert bs[..|bs| - 2] == Parser.WordsToBytes(front);
      DivModSplit(last, 0x100);
      assert FromBeBytes(last / 0x100, last % 0x100) == last;
      assert ws == front + [last];
    }
  }

  /**
   * Fetching from the loaded image of an assembled program gives back the
   * word the assembler wrote at that position.
   */
  lemma FetchAssembled(ws: seq<U16>, pc: U16)
    requires pc < |ws|
    ensures |Parser.WordsToBytes(ws)| % 2 == 0
    ensures pc < |Words(Parser.WordsToBytes(ws))|
    ensures Fetch(pc, Words(Parser.WordsToBytes(ws))) == ws[pc]
  {
    LoadSplitWords(ws);
  }

  /** An encoded instruction is loaded as the one word it stands for. */
  lemma LoadEncoded(instr: Encoder.InstructionType)
    ensures Words(Encoder.Encode(instr)) == [Encoder.WordOf(Encoder.Encode(instr))]
  {
    var b := Encoder.Encode(instr);
    assert b[..0] == [];
  }

  /**
   * `mov dst, #v` runs as MOV immediate: the word's opcode is 0 and the
   * emulator puts the immediate's byte into dst, zero-extended, so a
   * negative v arrives as v + 256.
   */
  lemma MovImmediateRuns(dst: string, v: int, line: nat, s: RegState)
    requires dst in Encoder.REGISTERS && -0x80 <= v < 0x80
    ensures Encoder.REGISTERS[dst] < 8
    ensures Encoder.Mov([dst, "#" + IntToString(v)], line).Success?
    ensures var ir := Encoder.WordOf(Encoder.Mov([dst, "#" + IntToString(v)], line).value);
            Decode(ir) == OpcodeNumber(MovIm) &&
            MovImOf(s.(ir := ir)).gp[Encoder.REGISTERS[dst]] == (if v < 0 then v + 0x100 else v)
  {
    Encoder.RegisterTable();
    Encoder.GetValidImmPrinted(v, line);
    assert "#" <= "#" + IntToString(v);
    var c := ByteOf(v);
    DecodeT1(0, Encoder.REGISTERS[dst], c);
  }

  /** `mov dst, src` runs as MOV with registers: opcode 1, and dst gets src. */
  lemma MovRegisterRuns(dst: string, src: string, line: nat, s: RegState)
    requires dst in Encoder.REGISTERS && src in Encoder.REGISTERS && !("#" <= src)
    ensures Encoder.REGISTERS[dst] < 8 && Encoder.REGISTERS[src] < 8
    ensures Encoder.Mov([dst, src], line).Success?
    ensures var ir := Encoder.WordOf(Encoder.Mov([dst, src], line).value);
            Decode(ir) == OpcodeNumber(MovRg) &&
            MovRgOf(s.(ir := ir)).gp[Encoder.REGISTERS[dst]] == s.gp[Encoder.REGISTERS[src]]
  {
    Encoder.RegisterTable();
    DecodeT2(1, Encoder.REGISTERS[dst], Encoder.REGISTERS[src], Encoder.UNUSED);
  }
}
