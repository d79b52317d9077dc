/**
 * The emulator's instruction set: the opcode numbering, the instruction
 * field layout, the bit-field extractor and the effect of each instruction
 * on the register file and the word memory.
 *
 * Field offsets are counted from the most significant bit: a field of
 * `size` bits at offset `roff` is bits 15-roff .. 16-roff-size.
 */
module Instructions {
  import opened Wrappers
  import opened Bits
  import opened RegisterFile

  /** `Opcode`, numbered from 0 in declaration order as `FromPrimitive` does. */
  datatype Opcode =
    | MovIm | MovRg | Load | LoadRg | Store | StrRg | Push | Pop
    | AddIm | AddRg | SubIm | SubRg | ShftL | ShftR | And | Or | Not
    | Bal | BZR | BNG | BLN | RET | Halt

  /** The number of an opcode. */
  function OpcodeNumber(op: Opcode): (n: nat)
    ensures n < 23
  {
    match op
    case MovIm => 0 case MovRg => 1 case Load => 2 case LoadRg => 3
    case Store => 4 case StrRg => 5 case Push => 6 case Pop => 7
    case AddIm => 8 case AddRg => 9 case SubIm => 10 case SubRg => 11
    case ShftL => 12 case ShftR => 13 case And => 14 case Or => 15 case Not => 16
    case Bal => 17 case BZR => 18 case BNG => 19 case BLN => 20 case RET => 21
    case Halt => 22
  }

  /** `FromPrimitive::from_u8`: the opcode of a number, if there is one. */
  function OpcodeOf(n: nat): (r: Option<Opcode>)
    ensures r.Some? <==> n < 23
  {
    if n == 0 then Some(MovIm) else if n == 1 then Some(MovRg) else if n == 2 then Some(Load)
    else if n == 3 then Some(LoadRg) else if n == 4 then Some(Store) else if n == 5 then Some(StrRg)
    else if n == 6 then Some(Push) else if n == 7 then Some(Pop) else if n == 8 then Some(AddIm)
    else if n == 9 then Some(AddRg) else if n == 10 then Some(SubIm) else if n == 11 then Some(SubRg)
    else if n == 12 then Some(ShftL) else if n == 13 then Some(ShftR) else if n == 14 then Some(Opcode.And)
    else if n == 15 then Some(Opcode.Or) else if n == 16 then Some(Not) else if n == 17 then Some(Bal)
    else if n == 18 then Some(BZR) else if n == 19 then Some(BNG) else if n == 20 then Some(BLN)
    else if n == 21 then Some(RET) else if n == 22 then Some(Halt)
    else None
  }

  /** The numbering is a bijection between the opcodes and 0..22. */
  lemma OpcodeNumbering(op: Opcode, n: nat)
    ensures OpcodeOf(OpcodeNumber(op)) == Some(op)
    ensures n < 23 ==> OpcodeNumber(OpcodeOf(n).value) == n
  {
  }

  // ------------------------------------------------------------------
  // Instruction frame constants
  // ------------------------------------------------------------------

  const OPCODE_SIZE: nat := 5
  const REG_ADDR_SIZE: nat := 3
  const REG_POS0_ROFFSET: nat := OPCODE_SIZE
  const REG_POS1_ROFFSET: nat := REG_POS0_ROFFSET + REG_ADDR_SIZE
  const REG_POS2_ROFFSET: nat := REG_POS1_ROFFSET + REG_ADDR_SIZE
  const MEM_OFFSET_SIZE: nat := 5
  const MEM_OFFSET_ROFFSET: nat := REG_POS2_ROFFSET
  const MEM_LABEL_SIZE: nat := 11
  const MEM_LABEL_ROFFSET: nat := OPCODE_SIZE
  const PUSHPOP_NUM_SIZE: nat := 2
  const PUSHPOP_NUM_ROFFSET: nat := REG_POS2_ROFFSET + REG_ADDR_SIZE
  const MOV_CONSTANT_SIZE: nat := 8
  const MOV_CONSTANT_ROFFSET: nat := REG_POS0_ROFFSET + REG_ADDR_SIZE
  const MATH_CONSTANT_SIZE: nat := 5
  const MATH_CONSTANT_ROFFSET: nat := REG_POS1_ROFFSET + REG_ADDR_SIZE
  const SHFT_CONSTANT_SIZE: nat := 4
  const SHFT_CONSTANT_ROFFSET: nat := REG_POS1_ROFFSET + REG_ADDR_SIZE

  // ------------------------------------------------------------------
  // extract_bits
  // ------------------------------------------------------------------

  /** The field of `size` bits at offset `roff` from the most significant bit. */
  function Field(num: U16, size: nat, roff: nat): (r: nat)
    requires roff + size <= 16
    ensures r < Pow2(size)
  {
    Shr(num, 16 - roff - size) % Pow2(size)
  }

  /** The mask `size` one-bits wide, built one bit at a time. */
  lemma MaskStep(mask: nat, k: nat)
    requires mask == Pow2(k) - 1
    ensures Bits.Or(mask * 2, 1) == Pow2(k + 1) - 1
  {
    assert Pow2(1) == 2;
    OrDisjoint(mask * 2, 1, 1);
  }

  /** The shifted mask does not leave 16 bits, so the `u16` shift loses nothing. */
  lemma MaskFits(k: nat, lo: nat)
    requires k + lo <= 16
    ensures Shl(Pow2(k) - 1, lo) < 0x1_0000
  {
    ShlIsMul(Pow2(k) - 1, lo);
    MulGap(Pow2(k), Pow2(k) - 1, Pow2(lo));
    Pow2Add(k, lo);
    Pow2Monotone(k + lo, 16);
    assert Pow2(16) == 0x1_0000 by { Pow2Values(); }
  }

  /**
   * `extract_bits`: a mask of `size` one-bits (one bit when size is 0) is
   * shifted up to the field, ANDed with the word and shifted back down. The
   * shift `16 - right_offset - size` must neither underflow nor reach 16.
   */
  method ExtractBits(num: U16, size: nat, rightOffset: nat) returns (r: nat)
    requires rightOffset + size <= 16 && (size == 0 ==> rightOffset >= 1)
    ensures size >= 1 ==> r == Field(num, size, rightOffset)
    ensures size == 0 ==> r == Field(num, 1, rightOffset - 1)
  {
    var leftOffset := 16 - rightOffset - size;
    var mask: nat := 1;
    var k := 1;
    while k < size
      invariant 1 <= k <= if size == 0 then 1 else size
      invariant mask == Pow2(k) - 1
    {
      MaskStep(mask, k);
      mask := mask * 2;
      mask := Bits.Or(mask, 1);
      k := k + 1;
    }
    assert k == if size == 0 then 1 else size;
    ExtractTail(num, k, leftOffset);
    mask := Shl(mask, leftOffset) % 0x1_0000;
    r := Shr(Bits.And(num, mask), leftOffset);
  }

  /** The last two steps of `extract_bits`: the shifted mask selects the field. */
  lemma ExtractTail(num: U16, k: nat, lo: nat)
    requires k + lo <= 16
    ensures Shr(Bits.And(num, Shl(Pow2(k) - 1, lo) % 0x1_0000), lo) == Shr(num, lo) % Pow2(k)
  {
    var mask := Shl(Pow2(k) - 1, lo);
    MaskFits(k, lo);
    ModBelow(mask, 0x1_0000);
    SelectField(num, k, lo);
  }

  /** A register field: three bits, so a register index. */
  function RegAt(ir: U16, roff: nat): (r: nat)
    requires roff + REG_ADDR_SIZE <= 16
    ensures r < REG_TOTAL_NUM
  {
    Pow2Values();
    Field(ir, REG_ADDR_SIZE, roff)
  }

  /** The destination (or first) register, bits 10..8. */
  function Reg0(ir: U16): (r: nat)
    ensures r < REG_TOTAL_NUM
  {
    RegAt(ir, REG_POS0_ROFFSET)
  }
  /** The second register, bits 7..5. */
  function Reg1(ir: U16): (r: nat)
    ensures r < REG_TOTAL_NUM
  {
    RegAt(ir, REG_POS1_ROFFSET)
  }
  /** The third register, bits 4..2. */
  function Reg2(ir: U16): (r: nat)
    ensures r < REG_TOTAL_NUM
  {
    RegAt(ir, REG_POS2_ROFFSET)
  }
  /** The 11-bit label, bits 10..0. */
  function Label(ir: U16): nat { Field(ir, MEM_LABEL_SIZE, MEM_LABEL_ROFFSET) }
  /** The 5-bit memory offset, bits 4..0. */
  function MemOffset(ir: U16): nat { Field(ir, MEM_OFFSET_SIZE, MEM_OFFSET_ROFFSET) }
  /** The 2-bit register count of push and pop, bits 1..0. */
  function PushPopNum(ir: U16): nat { Field(ir, PUSHPOP_NUM_SIZE, PUSHPOP_NUM_ROFFSET) }
  /** The 8-bit constant of mov, bits 7..0. */
  function MovConstant(ir: U16): nat { Field(ir, MOV_CONSTANT_SIZE, MOV_CONSTANT_ROFFSET) }
  /** The 5-bit constant of add and sub, bits 4..0. */
  function MathConstant(ir: U16): nat { Field(ir, MATH_CONSTANT_SIZE, MATH_CONSTANT_ROFFSET) }
  /** The 4-bit shift amount, bits 4..1. */
  function ShiftConstant(ir: U16): nat { Field(ir, SHFT_CONSTANT_SIZE, SHFT_CONSTANT_ROFFSET) }

  /** The ranges of the fields. */
  lemma FieldRanges(ir: U16)
    ensures Label(ir) < 0x800 && MemOffset(ir) < 32 && PushPopNum(ir) < 4
    ensures MovConstant(ir) < 0x100 && MathConstant(ir) < 32 && ShiftConstant(ir) < 16
  {
    Pow2Values();
  }

  // ------------------------------------------------------------------
  // 16-bit signed arithmetic of the source
  // ------------------------------------------------------------------

  /** A value fits `i16`. */
  predicate FitsI16(v: int) {
    -0x8000 <= v < 0x8000
  }

  /** `x << k` on `i16` for k < 16: the bits shifted out of 16 are lost. */
  function ShlI16(x: I16, k: nat): I16 {
    ToSigned(Shl(ToUnsigned(x), k) % 0x1_0000)
  }

  /** Division of a natural number by a positive one stays between 0 and the number. */
  lemma DivNonNeg(y: nat, d: int)
    requires d >= 1
    ensures 0 <= y / d <= y
  {
    DivModSplit(y, d);
    var q := y / d;
    if q < 0 {
      MulGap(0, q, d);
    }
    if q > y {
      MulAtLeast(d, q);
    }
  }

  /**
   * `x >> k` on `i16`: an arithmetic shift, the floor of x / 2^k; a negative
   * x is written through its complement -1 - x, which is not negative.
   */
  function ShrI16(x: I16, k: nat): (r: I16)
  {
    if x >= 0 then
      DivNonNeg(x, Pow2(k));
      x / Pow2(k)
    else
      DivNonNeg(-1 - x, Pow2(k));
      -1 - (-1 - x) / Pow2(k)
  }

  /** `a & b` on `i16`, on the two's-complement bits. */
  function AndI16(a: I16, b: I16): I16 {
    var w := Bits.And(ToUnsigned(a), ToUnsigned(b));
    assert w <= ToUnsigned(a);
    ToSigned(w)
  }

  /** `a | b` on `i16`, on the two's-complement bits. */
  function OrI16(a: I16, b: I16): I16 {
    Pow2Values();
    OrBound(ToUnsigned(a), ToUnsigned(b), 16);
    ToSigned(Bits.Or(ToUnsigned(a), ToUnsigned(b)))
  }

  /** `!a` on `i16`: every bit inverted. */
  function NotI16(a: I16): I16 {
    -(a as int) - 1
  }

  // ------------------------------------------------------------------
  // The flag updates of the arithmetic and logic instructions
  // ------------------------------------------------------------------

  /**
   * `add_im`/`add_rg` flags: on a result v, OV and CA are written false and
   * then, on zero, ZR true and NG false, or on a negative v ZR false and NG
   * true. On overflow (None) OV and CA are written true.
   */
  function AddFlags(b: bv8, v: Option<int>): bv8 {
    match v
    case None => ApplyFlags(b, [OV(true), CA(true)])
    case Some(v) =>
      var b1 := ApplyFlags(b, [OV(false), CA(false)]);
      if v == 0 then ApplyFlags(b1, [ZR(true), NG(false)])
      else if v < 0 then ApplyFlags(b1, [ZR(false), NG(true)])
      else b1
  }

  /**
   * `sub_im`/`sub_rg` flags: on a result v, OV is written false and then
   * CA true, ZR true, NG false on zero; CA true, ZR false, NG false above
   * zero; CA false, ZR false, NG true below. On overflow OV is written true.
   */
  function SubFlags(b: bv8, v: Option<int>): bv8 {
    match v
    case None => ApplyFlags(b, [OV(true)])
    case Some(v) =>
      var b1 := ApplyFlags(b, [OV(false)]);
      if v == 0 then ApplyFlags(b1, [CA(true), ZR(true), NG(false)])
      else if v > 0 then ApplyFlags(b1, [CA(true), ZR(false), NG(false)])
      else ApplyFlags(b1, [CA(false), ZR(false), NG(true)])
  }

  /**
   * Shift and bitwise flags: ZR true and NG false on a zero result, ZR false
   * and NG true on a negative one, and then OV and CA written false.
   */
  function LogicFlags(b: bv8, v: int): bv8 {
    var b1 :=
      if v == 0 then ApplyFlags(b, [ZR(true), NG(false)])
      else if v < 0 then ApplyFlags(b, [ZR(false), NG(true)])
      else b;
    ApplyFlags(b1, [OV(false), CA(false)])
  }

  /** The value the source writes for the flag at position p: its bit is clear. */
  predicate FlagValue(b: bv8, p: nat)
    requires p < 8
  {
    !IsSet(b, p)
  }

  /** Bit positions of the flags. */
  const OV_BIT: nat := 0
  const CA_BIT: nat := 1
  const ZR_BIT: nat := 2
  const NG_BIT: nat := 3

  /** The bits a two-entry list writes. */
  lemma TwoEntries(b: bv8, f: Flags, g: Flags, p: nat)
    requires p < 8
    ensures IsSet(ApplyFlags(b, [f, g]), p) ==
            if Position(g) == p then !g.on else if Position(f) == p then !f.on else IsSet(b, p)
  {
    ApplyFlagsBit(b, [f, g], p);
    assert [f, g][..1] == [f];
    assert [f][..0] == [];
    assert ExpectedBit(b, [f], p) == if Position(f) == p then !f.on else IsSet(b, p);
  }

  /** The bits a three-entry list writes. */
  lemma ThreeEntries(b: bv8, f: Flags, g: Flags, h: Flags, p: nat)
    requires p < 8
    ensures IsSet(ApplyFlags(b, [f, g, h]), p) ==
            if Position(h) == p then !h.on else if Position(g) == p then !g.on
            else if Position(f) == p then !f.on else IsSet(b, p)
  {
    ApplyFlagsBit(b, [f, g, h], p);
    assert [f, g, h][..2] == [f, g];
    assert [f, g][..1] == [f];
    assert [f][..0] == [];
    assert ExpectedBit(b, [f], p) == if Position(f) == p then !f.on else IsSet(b, p);
    assert ExpectedBit(b, [f, g], p) == if Position(g) == p then !g.on else ExpectedBit(b, [f], p);
  }

  lemma OneEntry(b: bv8, f: Flags, p: nat)
    requires p < 8
    ensures IsSet(ApplyFlags(b, [f]), p) == if Position(f) == p then !f.on else IsSet(b, p)
  {
    ApplyFlagsBit(b, [f], p);
    assert [f][..0] == [];
  }

  /**
   * What add reports: without overflow OV and CA are false, a zero result
   * makes ZR true and NG false, a negative one ZR false and NG true, and a
   * positive one keeps ZR and NG; on overflow OV and CA are true and ZR and
   * NG are kept. The unused bits 7..4 are kept.
   */
  lemma AddFlagsMeaning(b: bv8, v: Option<int>)
    ensures FlagValue(AddFlags(b, v), OV_BIT) == v.None? && FlagValue(AddFlags(b, v), CA_BIT) == v.None?
    ensures v.None? || v.value > 0 ==>
              FlagValue(AddFlags(b, v), ZR_BIT) == FlagValue(b, ZR_BIT) && FlagValue(AddFlags(b, v), NG_BIT) == FlagValue(b, NG_BIT)
    ensures v == Some(0) ==> FlagValue(AddFlags(b, v), ZR_BIT) && !FlagValue(AddFlags(b, v), NG_BIT)
    ensures v.Some? && v.value < 0 ==> !FlagValue(AddFlags(b, v), ZR_BIT) && FlagValue(AddFlags(b, v), NG_BIT)
    ensures forall p: nat :: 4 <= p < 8 ==> IsSet(AddFlags(b, v), p) == IsSet(b, p)
  {
    forall p: nat | p < 8
      ensures AddFlagsBit(b, v, p) && (4 <= p ==> IsSet(AddFlags(b, v), p) == IsSet(b, p))
    {
      AddFlagsAt(b, v, p);
    }
    assert AddFlagsBit(b, v, OV_BIT) && AddFlagsBit(b, v, CA_BIT) && AddFlagsBit(b, v, ZR_BIT) && AddFlagsBit(b, v, NG_BIT);
  }

  /** Bit p after add, as the entries written for it say. */
  predicate AddFlagsBit(b: bv8, v: Option<int>, p: nat)
    requires p < 8
  {
    IsSet(AddFlags(b, v), p) ==
      if p == OV_BIT || p == CA_BIT then v.Some?
      else if p == ZR_BIT && v.Some? && v.value <= 0 then v.value != 0
      else if p == NG_BIT && v.Some? && v.value <= 0 then v.value == 0
      else IsSet(b, p)
  }

  lemma AddFlagsAt(b: bv8, v: Option<int>, p: nat)
    requires p < 8
    ensures AddFlagsBit(b, v, p)
  {
    if v.None? {
      TwoEntries(b, OV(true), CA(true), p);
    } else {
      TwoEntries(b, OV(false), CA(false), p);
      var b1 := ApplyFlags(b, [OV(false), CA(false)]);
      TwoEntries(b1, ZR(true), NG(false), p);
      TwoEntries(b1, ZR(false), NG(true), p);
    }
  }


  /**
   * What sub reports: without overflow OV is false, CA is true exactly when
   * the result is not negative, ZR exactly when it is zero and NG exactly
   * when it is negative; on overflow OV is true and the others are kept.
   */
  lemma SubFlagsMeaning(b: bv8, v: Option<int>)
    ensures FlagValue(SubFlags(b, v), OV_BIT) == v.None?
    ensures v.Some? ==> FlagValue(SubFlags(b, v), CA_BIT) == (v.value >= 0)
    ensures v.Some? ==> FlagValue(SubFlags(b, v), ZR_BIT) == (v.value == 0)
    ensures v.Some? ==> FlagValue(SubFlags(b, v), NG_BIT) == (v.value < 0)
    ensures v.None? ==> forall p: nat :: 1 <= p < 8 ==> IsSet(SubFlags(b, v), p) == IsSet(b, p)
    ensures forall p: nat :: 4 <= p < 8 ==> IsSet(SubFlags(b, v), p) == IsSet(b, p)
  {
    forall p: nat | p < 8
      ensures SubFlagsBit(b, v, p) && (4 <= p ==> IsSet(SubFlags(b, v), p) == IsSet(b, p))
    {
      SubFlagsAt(b, v, p);
    }
    assert SubFlagsBit(b, v, OV_BIT) && SubFlagsBit(b, v, CA_BIT) && SubFlagsBit(b, v, ZR_BIT) && SubFlagsBit(b, v, NG_BIT);
  }

  /** Bit p after sub, as the entries written for it say. */
  predicate SubFlagsBit(b: bv8, v: Option<int>, p: nat)
    requires p < 8
  {
    IsSet(SubFlags(b, v), p) ==
      if p == OV_BIT then v.Some?
      else if v.None? || p >= 4 then IsSet(b, p)
      else if p == CA_BIT then v.value < 0
      else if p == ZR_BIT then v.value != 0
      else v.value >= 0
  }

  lemma SubFlagsAt(b: bv8, v: Option<int>, p: nat)
    requires p < 8
    ensures SubFlagsBit(b, v, p)
  {
    if v.None? {
      OneEntry(b, OV(true), p);
    } else {
      OneEntry(b, OV(false), p);
      var b1 := ApplyFlags(b, [OV(false)]);
      ThreeEntries(b1, CA(true), ZR(true), NG(false), p);
      ThreeEntries(b1, CA(true), ZR(false), NG(false), p);
      ThreeEntries(b1, CA(false), ZR(false), NG(true), p);
    }
  }


  /**
   * What shifts and bitwise operations report: OV and CA false, ZR true and
   * NG false on zero, ZR false and NG true on a negative result, ZR and NG
   * kept on a positive one.
   */
  lemma LogicFlagsMeaning(b: bv8, v: int)
    ensures !FlagValue(LogicFlags(b, v), OV_BIT) && !FlagValue(LogicFlags(b, v), CA_BIT)
    ensures v == 0 ==> FlagValue(LogicFlags(b, v), ZR_BIT) && !FlagValue(LogicFlags(b, v), NG_BIT)
    ensures v < 0 ==> !FlagValue(LogicFlags(b, v), ZR_BIT) && FlagValue(LogicFlags(b, v), NG_BIT)
    ensures v > 0 ==>
              FlagValue(LogicFlags(b, v), ZR_BIT) == FlagValue(b, ZR_BIT) && FlagValue(LogicFlags(b, v), NG_BIT) == FlagValue(b, NG_BIT)
    ensures forall p: nat :: 4 <= p < 8 ==> IsSet(LogicFlags(b, v), p) == IsSet(b, p)
  {
    forall p: nat | p < 8
      ensures LogicFlagsBit(b, v, p) && (4 <= p ==> IsSet(LogicFlags(b, v), p) == IsSet(b, p))
    {
      LogicFlagsAt(b, v, p);
    }
    assert LogicFlagsBit(b, v, OV_BIT) && LogicFlagsBit(b, v, CA_BIT) && LogicFlagsBit(b, v, ZR_BIT) && LogicFlagsBit(b, v, NG_BIT);
  }

  /** Bit p after a shift or bitwise operation, as the entries written for it say. */
  predicate LogicFlagsBit(b: bv8, v: int, p: nat)
    requires p < 8
  {
    IsSet(LogicFlags(b, v), p) ==
      if p == OV_BIT || p == CA_BIT then true
      else if p == ZR_BIT && v <= 0 then v != 0
      else if p == NG_BIT && v <= 0 then v == 0
      else IsSet(b, p)
  }

  lemma LogicFlagsAt(b: bv8, v: int, p: nat)
    requires p < 8
    ensures LogicFlagsBit(b, v, p)
  {
    TwoEntries(b, ZR(true), NG(false), p);
    TwoEntries(b, ZR(false), NG(true), p);
    var b1 :=
      if v == 0 then ApplyFlags(b, [ZR(true), NG(false)])
      else if v < 0 then ApplyFlags(b, [ZR(false), NG(true)])
      else b;
    TwoEntries(b1, OV(false), CA(false), p);
  }

}
