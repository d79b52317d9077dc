/**
 * The assembler's instruction-word packer: the five instruction layouts,
 * the register name table, the immediate parser and the `mov` mnemonic.
 *
 * Word layout shared with the emulator: opcode in bits 15..11, the first
 * register in bits 10..8, then either an 8-bit constant in bits 7..0 (T1),
 * a second register in bits 7..5 with a 5-bit field below it (T2), or an
 * 11-bit field in bits 10..0 (T3).
 */
module Encoder {
  import opened Wrappers
  import opened Bits
  import opened Text
  import opened ErrHandler

  /** `InstructionType`: the fields of each layout. */
  datatype InstructionType =
    | T1(op: U8, rp0: U8, c: U8)
    | T2(op: U8, rp0: U8, rp1: U8, f1: U8)
    | T3(op: U8, f2: U16)
    | T4(op: U8, rp0: U8, rp1: U8, rp2: U8)
    | T5(op: U8, rp0: U8, rp1: U8, c: U8)

  /** The value of a field the layout does not use. */
  const UNUSED: U8 := 0

  /**
   * The high byte of the 16-bit word `op << 11 | rp0 << 8`. The source writes
   * both shifts on `u8` operands; the 16-bit word is what the layout means.
   */
  function HighByte(op: U8, rp0: U8): (msb: U8)
  {
    var a, b := (op as int * 0x800) % 0x1_0000, (rp0 as int * 0x100) % 0x1_0000;
    Pow2Values();
    OrBound(a, b, 16);
    Or(a, b) / 0x100
  }

  /** Or of two bytes is a byte. */
  function OrByte(a: U8, b: U8): (r: U8)
  {
    Pow2Values();
    OrBound(a, b, 8);
    Or(a, b)
  }

  /** `encode`: the instruction as `[msb, lsb]`. */
  function Encode(instr: InstructionType): (bytes: seq<U8>)
    ensures |bytes| == 2
  {
    match instr
    case T1(op, r, c) =>
      [HighByte(op, r), c]
    case T2(op, rp0, rp1, f1) =>
      [HighByte(op, rp0), OrByte((rp1 as int * 0x20) % 0x100, f1)]
    case T3(op, f2) =>
      var high := (op as int * 0x800) % 0x1_0000;
      Pow2Values();
      OrBound(high, f2, 16);
      var word := Or(high, f2);
      [word / 0x100, word % 0x100]
    case T4(op, rp0, rp1, rp2) =>
      [HighByte(op, rp0), OrByte((rp1 as int * 0x20) % 0x100, (rp2 as int * 0x8) % 0x100)]
    case T5(op, rp0, rp1, c) =>
      [HighByte(op, rp0), OrByte((rp1 as int * 0x20) % 0x100, (c as int * 0x2) % 0x100)]
  }

  /** The big-endian word a byte pair stands for. */
  function WordOf(bytes: seq<U8>): (w: U16)
    requires |bytes| == 2
  {
    bytes[0] as int * 0x100 + bytes[1]
  }

  /** With a 5-bit opcode and a 3-bit register, the high byte is opcode and register side by side. */
  lemma HighByteFields(op: U8, r: U8)
    requires op < 32 && r < 8
    ensures HighByte(op, r) == op * 8 + r
  {
    var a, b := op as int * 0x800, r as int * 0x100;
    ModBelow(a, 0x1_0000);
    ModBelow(b, 0x1_0000);
    assert HighByte(op, r) == Or(a, b) / 0x100;
    Pow2Values();
    MulModZero(op, 0x800);
    OrDisjoint(a, b, 11);
    DivModOf(a + b, 0x100, op * 8 + r, 0);
  }

  /** T1 packs opcode, register and constant into disjoint fields. */
  lemma EncodeT1Word(op: U8, r: U8, c: U8)
    requires op < 32 && r < 8
    ensures WordOf(Encode(T1(op, r, c))) == op * 0x800 + r * 0x100 + c
  {
    HighByteFields(op, r);
  }

  /** T2 packs opcode, two registers and a 5-bit field into disjoint fields. */
  lemma EncodeT2Word(op: U8, rp0: U8, rp1: U8, f1: U8)
    requires op < 32 && rp0 < 8 && rp1 < 8 && f1 < 32
    ensures WordOf(Encode(T2(op, rp0, rp1, f1))) == op * 0x800 + rp0 * 0x100 + rp1 * 0x20 + f1
  {
    var low := rp1 as int * 0x20;
    ModBelow(low, 0x100);
    assert Encode(T2(op, rp0, rp1, f1)) == [HighByte(op, rp0), OrByte(low, f1)];
    HighByteFields(op, rp0);
    LowByteFields(rp1, f1);
  }

  /** With a 3-bit register and a 5-bit field, the low byte of T2 is register and field side by side. */
  lemma LowByteFields(rp1: U8, f1: U8)
    requires rp1 < 8 && f1 < 32
    ensures OrByte(rp1 as int * 0x20, f1) == rp1 * 0x20 + f1
  {
    var low := rp1 as int * 0x20;
    Pow2Values();
    MulModZero(rp1, 0x20);
    OrDisjoint(low, f1, 5);
  }

  /** T3 packs opcode and an 11-bit field into disjoint fields. */
  lemma EncodeT3Word(op: U8, f2: U16)
    requires op < 32 && f2 < 0x800
    ensures WordOf(Encode(T3(op, f2))) == op * 0x800 + f2
  {
    var high := op as int * 0x800;
    assert high % 0x1_0000 == high;
    assert Pow2(11) == 0x800;
    OrDisjoint(high, f2, 11);
    var word := Or(high, f2);
    assert Encode(T3(op, f2)) == [word / 0x100, word % 0x100];
  }

  /**
   * T4 puts its third register at `<< 3`, on top of bit 0 of the second
   * register, while the emulator reads a third register from bits 4..2: the
   * emulator sees twice the register number (mod 8), so only r0 comes through.
   */
  lemma EncodeT4ThirdRegisterShifted(op: U8, rp0: U8, rp2: U8)
    requires op < 32 && rp0 < 8 && rp2 < 8
    ensures WordOf(Encode(T4(op, rp0, 0, rp2))) == op * 0x800 + rp0 * 0x100 + rp2 * 8
    ensures (WordOf(Encode(T4(op, rp0, 0, rp2))) / 4) % 8 == (2 * rp2) % 8
    ensures (WordOf(Encode(T4(op, rp0, 0, rp2))) / 4) % 8 == rp2 <==> rp2 == 0
  {
    var b := Encode(T4(op, rp0, 0, rp2));
    assert b == [op * 8 + rp0, rp2 * 8] by {
      HighByteFields(op, rp0);
      assert b == [HighByte(op, rp0), OrByte(0, rp2 * 8)];
    }
    var w := WordOf(b);
    assert w == (op * 8 + rp0) * 0x100 + rp2 * 8;
    DivModOf(w, 4, (op * 8 + rp0) * 0x40 + 2 * rp2, 0);
    DivModOf(w / 4, 8, (op * 8 + rp0) * 8 + (2 * rp2) / 8, (2 * rp2) % 8);
  }

  /**
   * T5 puts its constant at `<< 1`, while the emulator reads a constant from
   * bits 4..0: the emulator sees twice the constant (mod 32), so only 0 comes
   * through.
   */
  lemma EncodeT5ConstantShifted(op: U8, rp0: U8, c: U8)
    requires op < 32 && rp0 < 8 && c < 32
    ensures WordOf(Encode(T5(op, rp0, 0, c))) == op * 0x800 + rp0 * 0x100 + c * 2
    ensures WordOf(Encode(T5(op, rp0, 0, c))) % 32 == (2 * c) % 32
    ensures WordOf(Encode(T5(op, rp0, 0, c))) % 32 == c <==> c == 0
  {
    var b := Encode(T5(op, rp0, 0, c));
    assert b == [op * 8 + rp0, c * 2] by {
      HighByteFields(op, rp0);
      assert b == [HighByte(op, rp0), OrByte(0, c * 2)];
    }
    var w := WordOf(b);
    assert w == (op * 8 + rp0) * 0x100 + c * 2;
    DivModOf(w, 32, (op * 8 + rp0) * 8 + (2 * c) / 32, (2 * c) % 32);
  }

  // ------------------------------------------------------------------
  // Registers and immediates
  // ------------------------------------------------------------------

  /** `REGISTERS`: register names and their 3-bit addresses. */
  const REGISTERS: map<string, U8> := map[
    "r0" := 0, "r1" := 1, "r2" := 2, "r3" := 3,
    "r4" := 4, "r5" := 5, "r6" := 6, "r7" := 7,
    "fp" := 4, "sp" := 5, "lr" := 6, "mbr" := 7]

  /** Every register name has an address that fits the 3-bit field, and every address has an `rN` name. */
  lemma RegisterTable()
    ensures forall name :: name in REGISTERS ==> REGISTERS[name] < 8
    ensures forall k: nat :: k < 8 ==> ("r" + NatToString(k)) in REGISTERS && REGISTERS["r" + NatToString(k)] == k
    ensures REGISTERS["fp"] == 4 && REGISTERS["sp"] == 5 && REGISTERS["lr"] == 6 && REGISTERS["mbr"] == 7
  {
    forall k: nat | k < 8
      ensures ("r" + NatToString(k)) in REGISTERS && REGISTERS["r" + NatToString(k)] == k
    {
      assert NatToString(k) == [('0' as int + k) as char];
      if k == 0 { assert "r" + NatToString(k) == "r0"; }
      else if k == 1 { assert "r" + NatToString(k) == "r1"; }
      else if k == 2 { assert "r" + NatToString(k) == "r2"; }
      else if k == 3 { assert "r" + NatToString(k) == "r3"; }
      else if k == 4 { assert "r" + NatToString(k) == "r4"; }
      else if k == 5 { assert "r" + NatToString(k) == "r5"; }
      else if k == 6 { assert "r" + NatToString(k) == "r6"; }
      else { assert "r" + NatToString(k) == "r7"; }
    }
  }

  /** `get_valid_reg`: the address of a known register name, else Unrecognized. */
  function GetValidReg(r: string, line: nat): (res: Result<U8, LineError>)
    ensures res.Success? <==> r in REGISTERS
    ensures res.Success? ==> res.value < 8
    ensures res.Failure? ==> res.error == Unrecognized(r, line)
  {
    if r in REGISTERS then Success(REGISTERS[r]) else Failure(Unrecognized(r, line))
  }

  /**
   * `get_valid_imm`: the text after the leading character parsed as an `i8`,
   * stored as its two's-complement byte; anything else is Unrecognized.
   */
  function GetValidImm(c: string, line: nat): (res: Result<U8, LineError>)
    requires c != [] && IsAsciiChar(c[0])
    ensures res.Failure? <==> ParseInt(c[1..], -0x80, 0x7F).None?
    ensures res.Failure? ==> res.error == Unrecognized(c, line)
    ensures res.Success? ==> res.value == ByteOf(ParseInt(c[1..], -0x80, 0x7F).value)
  {
    match ParseInt(c[1..], -0x80, 0x7F)
    case Some(v) => Success(ByteOf(v))
    case None => Failure(Unrecognized(c, line))
  }

  /** `#v` for any `i8` value v gives the byte of v. */
  lemma GetValidImmPrinted(v: int, line: nat)
    requires -0x80 <= v < 0x80
    ensures GetValidImm("#" + IntToString(v), line) == Success(ByteOf(v))
  {
    var c := "#" + IntToString(v);
    assert c[1..] == IntToString(v);
    ParsePrinted(v, -0x80, 0x7F);
  }

  /** `#-1` is the byte 0xFF and `#-128` the byte 0x80. */
  lemma GetValidImmNegative(line: nat)
    ensures GetValidImm("#-1", line) == Success(0xFF)
    ensures GetValidImm("#-128", line) == Success(0x80)
    ensures GetValidImm("#128", line) == Failure(Unrecognized("#128", line))
  {
    GetValidImmPrinted(-1, line);
    assert IntToString(-1) == "-1";
    GetValidImmPrinted(-128, line);
    assert NatToString(128) == NatToString(12) + "8";
    assert IntToString(-128) == "-128";
    var digits := "128";
    assert "#128"[1..] == digits;
    assert digits[..2] == "12" && "12"[..1] == "1";
    assert DigitsValue(digits) == 128;
  }

  // ------------------------------------------------------------------
  // Mnemonics
  // ------------------------------------------------------------------

  const MOV_WRONG_ARGS: string := "mov operation can only have 2 parameters"

  /**
   * `mov`: `mov dst #imm` is MOV immediate (opcode 0, T1), `mov dst src` is
   * MOV with registers (opcode 1, T2, unused field 0). The first problem found
   * is reported: a wrong argument count, an unknown destination, a bad
   * immediate or an unknown source.
   */
  function Mov(args: seq<string>, line: nat): (res: Result<seq<U8>, LineError>)
    ensures |args| != 2 ==> res == Failure(WrongArgs(MOV_WRONG_ARGS, line))
    ensures res.Success? ==> |args| == 2 && args[0] in REGISTERS
    ensures res.Success? && "#" <= args[1] ==>
              GetValidImm(args[1], line).Success?
              && res.value == Encode(T1(0, REGISTERS[args[0]], GetValidImm(args[1], line).value))
    ensures res.Success? && !("#" <= args[1]) ==>
              args[1] in REGISTERS && res.value == Encode(T2(1, REGISTERS[args[0]], REGISTERS[args[1]], UNUSED))
    ensures |args| == 2 && args[0] !in REGISTERS ==> res == Failure(Unrecognized(args[0], line))
    ensures |args| == 2 && args[0] in REGISTERS && !("#" <= args[1]) && args[1] !in REGISTERS ==>
              res == Failure(Unrecognized(args[1], line))
    ensures |args| == 2 && args[0] in REGISTERS && "#" <= args[1] ==>
              res == if GetValidImm(args[1], line).Success?
                     then Success(Encode(T1(0, REGISTERS[args[0]], GetValidImm(args[1], line).value)))
                     else Failure(Unrecognized(args[1], line))
    ensures |args| == 2 && args[0] in REGISTERS && !("#" <= args[1]) && args[1] in REGISTERS ==>
              res == Success(Encode(T2(1, REGISTERS[args[0]], REGISTERS[args[1]], UNUSED)))
  {
    if |args| != 2 then Failure(WrongArgs(MOV_WRONG_ARGS, line))
    else
      var regDst :- GetValidReg(args[0], line);
      if "#" <= args[1] then
        var constant :- GetValidImm(args[1], line);
        Success(Encode(T1(0, regDst, constant)))
      else if args[1] in REGISTERS then
        Success(Encode(T2(1, regDst, REGISTERS[args[1]], UNUSED)))
      else
        Failure(Unrecognized(args[1], line))
  }

  /** The encoder callbacks of the mnemonic table. */
  datatype Callback = MovCallback

  /** `MNEMONICS`: both `mov` and `load` are encoded by `mov`. */
  const MNEMONICS: map<string, Callback> := map["mov" := MovCallback, "load" := MovCallback]

  /** Calls a callback of the mnemonic table. */
  function Call(cb: Callback, args: seq<string>, line: nat): (res: Result<seq<U8>, LineError>)
    ensures res.Success? ==> |res.value| == 2
  {
    match cb
    case MovCallback => Mov(args, line)
  }

  /** Exactly `mov` and `load` are known mnemonics, and they encode alike. */
  lemma MnemonicTable(m: string, args: seq<string>, line: nat)
    ensures m in MNEMONICS <==> m == "mov" || m == "load"
    ensures m in MNEMONICS ==> Call(MNEMONICS[m], args, line) == Mov(args, line)
  {
  }
}
