/**
 * The `execute` instructions of the emulator: each reads its fields from
 * the instruction register with `extract_bits` and updates the register
 * file, the flag byte or the word memory.
 *
 * Each instruction is specified by a function on values (the register file
 * as a `RegState`, memory as a sequence of words) and implemented by a
 * method on a `Registers` object and a memory array proved against it.
 * Where the source panics (an index outside memory, an `i16` overflow of
 * the stack pointer) the method requires that this does not happen.
 */
module Execute {
  import opened Wrappers
  import opened Bits
  import opened RegisterFile
  import opened Instructions

  // ------------------------------------------------------------------
  // Specifications on values
  // ------------------------------------------------------------------

  /** `mov_im`: the 8-bit constant, zero-extended, goes into the destination register. */
  function MovImOf(s: RegState): RegState {
    FieldRanges(s.ir);
    s.(gp := s.gp[Reg0(s.ir) := MovConstant(s.ir)])
  }

  /** `mov_rg`: the source register is copied into the destination register. */
  function MovRgOf(s: RegState): RegState {
    s.(gp := s.gp[Reg0(s.ir) := s.gp[Reg1(s.ir)]])
  }

  /** `load`: the word at the label, read as `i16`, goes into the memory buffer register. */
  function LoadOf(s: RegState, mem: seq<U16>): RegState
    requires Label(s.ir) < |mem|
  {
    s.(gp := s.gp[MBR_PTR := ToSigned(mem[Label(s.ir)])])
  }

  /**
   * The address of `load_rg` and `store_rg`: the register field itself (the
   * register's index, not its contents) plus the 5-bit offset.
   */
  function RgAddress(ir: U16): nat {
    Reg1(ir) + MemOffset(ir)
  }

  /** `load_rg`: the word at the register-field address goes into the destination register. */
  function LoadRgOf(s: RegState, mem: seq<U16>): RegState
    requires RgAddress(s.ir) < |mem|
  {
    s.(gp := s.gp[Reg0(s.ir) := ToSigned(mem[RgAddress(s.ir)])])
  }

  /** `store`: the memory buffer register, as `u16`, is written at the label. */
  function StoreOf(s: RegState, mem: seq<U16>): seq<U16>
    requires Label(s.ir) < |mem|
  {
    mem[Label(s.ir) := ToUnsigned(s.gp[MBR_PTR])]
  }

  /** `store_rg`: the source register (field 0) is written at the register-field address. */
  function StoreRgOf(s: RegState, mem: seq<U16>): seq<U16>
    requires RgAddress(s.ir) < |mem|
  {
    mem[RgAddress(s.ir) := ToUnsigned(s.gp[Reg0(s.ir)])]
  }

  /** `checked_add` of two `i16` values into the destination register, with add's flags. */
  function AddInto(s: RegState, a: I16, b: I16): RegState {
    if FitsI16(a + b) then s.(gp := s.gp[Reg0(s.ir) := a + b], flags := AddFlags(s.flags, Some(a + b)))
    else s.(flags := AddFlags(s.flags, None))
  }

  /** `checked_sub` of two `i16` values into the destination register, with sub's flags. */
  function SubInto(s: RegState, a: I16, b: I16): RegState {
    if FitsI16(a - b) then s.(gp := s.gp[Reg0(s.ir) := a - b], flags := SubFlags(s.flags, Some(a - b)))
    else s.(flags := SubFlags(s.flags, None))
  }

  /** The immediate of `add_im` and `sub_im`, a 5-bit constant. */
  function MathImmediate(ir: U16): I16 {
    FieldRanges(ir);
    MathConstant(ir)
  }

  /** `add_im`: register A plus the 5-bit constant. */
  function AddImOf(s: RegState): RegState {
    AddInto(s, s.gp[Reg1(s.ir)], MathImmediate(s.ir))
  }

  /** `add_rg`: register A plus register B. */
  function AddRgOf(s: RegState): RegState {
    AddInto(s, s.gp[Reg1(s.ir)], s.gp[Reg2(s.ir)])
  }

  /** `sub_im`: register A minus the 5-bit constant. */
  function SubImOf(s: RegState): RegState {
    SubInto(s, s.gp[Reg1(s.ir)], MathImmediate(s.ir))
  }

  /** `sub_rg`: register A minus register B. */
  function SubRgOf(s: RegState): RegState {
    SubInto(s, s.gp[Reg1(s.ir)], s.gp[Reg2(s.ir)])
  }

  /** A shift or bitwise result into the destination register, with the logic flags. */
  function LogicInto(s: RegState, v: I16): RegState {
    s.(gp := s.gp[Reg0(s.ir) := v], flags := LogicFlags(s.flags, v))
  }

  /** `shift_l`: the source register shifted left by the 4-bit constant. */
  function ShiftLOf(s: RegState): RegState {
    LogicInto(s, ShlI16(s.gp[Reg1(s.ir)], ShiftConstant(s.ir)))
  }

  /** `shift_r`: the source register shifted right (arithmetically) by the 4-bit constant. */
  function ShiftROf(s: RegState): RegState {
    LogicInto(s, ShrI16(s.gp[Reg1(s.ir)], ShiftConstant(s.ir)))
  }

  /** `and`: register A AND register B. */
  function AndOf(s: RegState): RegState {
    LogicInto(s, AndI16(s.gp[Reg1(s.ir)], s.gp[Reg2(s.ir)]))
  }

  /** `or`: register A OR register B. */
  function OrOf(s: RegState): RegState {
    LogicInto(s, OrI16(s.gp[Reg1(s.ir)], s.gp[Reg2(s.ir)]))
  }

  /** `not`: the source register inverted. */
  function NotOf(s: RegState): RegState {
    LogicInto(s, NotI16(s.gp[Reg1(s.ir)]))
  }

  /** `bal`: the program counter becomes the 11-bit label. */
  function BalOf(s: RegState): RegState {
    FieldRanges(s.ir);
    s.(pc := Label(s.ir))
  }

  // ------------------------------------------------------------------
  // Push and pop
  // ------------------------------------------------------------------

  /** The register listed i-th by push and pop: the 3-bit field at offset 5 + 3i. */
  function ListedReg(ir: U16, i: nat): (r: nat)
    requires i < 3
    ensures r < REG_TOTAL_NUM
  {
    RegAt(ir, REG_POS0_ROFFSET + REG_ADDR_SIZE * i)
  }

  /** The registers and memory that push and pop work on. */
  datatype Stack = Stack(gp: Gp, mem: seq<U16>)

  /**
   * One round of `push`: SP is decremented, then the listed register, as
   * `u16`, is written at the new top. None where the source panics: the new
   * top is negative (or the decrement overflows) or outside memory.
   */
  function PushOne(ir: U16, st: Stack, i: nat): Option<Stack>
    requires i < 3
  {
    var sp := st.gp[SP_PTR] as int - 1;
    if 0 <= sp < |st.mem| then
      var g := st.gp[SP_PTR := sp];
      Some(Stack(g, st.mem[sp := ToUnsigned(g[ListedReg(ir, i)])]))
    else None
  }

  /** The first n rounds of `push`. */
  function PushSteps(ir: U16, st: Stack, n: nat): Option<Stack>
    requires n <= 3
    decreases n
  {
    if n == 0 then Some(st)
    else match PushSteps(ir, st, n - 1)
      case None => None
      case Some(st1) => PushOne(ir, st1, n - 1)
  }

  /**
   * One round of `pop`: the word at SP, as `i16`, goes into the listed
   * register, then SP is incremented. None where the source panics: SP is
   * negative or outside memory, or the increment overflows `i16`.
   */
  function PopOne(ir: U16, st: Stack, i: nat): Option<Stack>
    requires i < 3
  {
    var sp := st.gp[SP_PTR];
    if 0 <= sp < |st.mem| then
      var g := st.gp[ListedReg(ir, i) := ToSigned(st.mem[sp])];
      if FitsI16(g[SP_PTR] as int + 1) then Some(Stack(g[SP_PTR := g[SP_PTR] + 1], st.mem)) else None
    else None
  }

  /** The first n rounds of `pop`. */
  function PopSteps(ir: U16, st: Stack, n: nat): Option<Stack>
    requires n <= 3
    decreases n
  {
    if n == 0 then Some(st)
    else match PopSteps(ir, st, n - 1)
      case None => None
      case Some(st1) => PopOne(ir, st1, n - 1)
  }

  /** A round that can be taken was preceded by rounds that could. */
  lemma {:induction false} PushPrefix(ir: U16, st: Stack, k: nat, n: nat)
    requires k <= n <= 3 && PushSteps(ir, st, n).Some?
    ensures PushSteps(ir, st, k).Some?
    decreases n
  {
    if k < n {
      PushPrefix(ir, st, k, n - 1);
    }
  }

  /** A round that can be taken was preceded by rounds that could. */
  lemma {:induction false} PopPrefix(ir: U16, st: Stack, k: nat, n: nat)
    requires k <= n <= 3 && PopSteps(ir, st, n).Some?
    ensures PopSteps(ir, st, k).Some?
    decreases n
  {
    if k < n {
      PopPrefix(ir, st, k, n - 1);
    }
  }

  /** The round after the first i rounds of a `push` that can be taken. */
  lemma PushAdvance(ir: U16, st: Stack, cur: Stack, i: nat, n: nat)
    requires i < n <= 3 && PushSteps(ir, st, n).Some? && PushSteps(ir, st, i) == Some(cur)
    ensures PushOne(ir, cur, i).Some? && PushSteps(ir, st, i + 1) == PushOne(ir, cur, i)
  {
    PushPrefix(ir, st, i + 1, n);
  }

  /** The round after the first i rounds of a `pop` that can be taken. */
  lemma PopAdvance(ir: U16, st: Stack, cur: Stack, i: nat, n: nat)
    requires i < n <= 3 && PopSteps(ir, st, n).Some? && PopSteps(ir, st, i) == Some(cur)
    ensures PopOne(ir, cur, i).Some? && PopSteps(ir, st, i + 1) == PopOne(ir, cur, i)
  {
    PopPrefix(ir, st, i + 1, n);
  }

  /** Register r is none of the first n listed registers. */
  predicate Unlisted(ir: U16, n: nat, r: nat)
    requires n <= 3
  {
    forall i :: 0 <= i < n ==> ListedReg(ir, i) != r
  }

  /** None of the first n listed registers is SP. */
  predicate SpNotListed(ir: U16, n: nat)
    requires n <= 3
  {
    Unlisted(ir, n, SP_PTR)
  }

  /** The first n listed registers are distinct. */
  predicate ListedDistinct(ir: U16, n: nat)
    requires n <= 3
  {
    forall i, j :: 0 <= i < j < n ==> ListedReg(ir, i) != ListedReg(ir, j)
  }

  /**
   * What push does when the n cells below SP exist: SP goes down by n, the
   * i-th listed register is at SP - 1 - i, every other cell and every other
   * register is unchanged. A listed SP is pushed as it is after its round's
   * decrement, SP - 1 - i.
   */
  lemma {:induction false} PushEffect(ir: U16, st: Stack, n: nat)
    requires n <= 3
    requires n <= st.gp[SP_PTR] <= |st.mem|
    ensures PushSteps(ir, st, n).Some?
    ensures PushSteps(ir, st, n).value.gp == st.gp[SP_PTR := st.gp[SP_PTR] - n]
    ensures |PushSteps(ir, st, n).value.mem| == |st.mem|
    ensures forall i :: 0 <= i < n ==>
              PushSteps(ir, st, n).value.mem[st.gp[SP_PTR] - 1 - i] ==
              ToUnsigned(if ListedReg(ir, i) == SP_PTR then st.gp[SP_PTR] - 1 - i else st.gp[ListedReg(ir, i)])
    ensures forall j :: 0 <= j < |st.mem| && !(st.gp[SP_PTR] - n <= j < st.gp[SP_PTR]) ==>
              PushSteps(ir, st, n).value.mem[j] == st.mem[j]
    decreases n
  {
    if n > 0 {
      PushEffect(ir, st, n - 1);
      var st1 := PushSteps(ir, st, n - 1).value;
      PushRoundEffect(ir, st, st1, n);
      assert PushSteps(ir, st, n) == PushOne(ir, st1, n - 1);
    }
  }

  /** The n-th round of `push`, from what the first n - 1 rounds did. */
  lemma PushRoundEffect(ir: U16, st: Stack, st1: Stack, n: nat)
    requires 0 < n <= 3
    requires n <= st.gp[SP_PTR] <= |st.mem|
    requires st1.gp == st.gp[SP_PTR := st.gp[SP_PTR] - (n - 1)] && |st1.mem| == |st.mem|
    requires forall i :: 0 <= i < n - 1 ==>
               st1.mem[st.gp[SP_PTR] - 1 - i] ==
               ToUnsigned(if ListedReg(ir, i) == SP_PTR then st.gp[SP_PTR] - 1 - i else st.gp[ListedReg(ir, i)])
    requires forall j :: 0 <= j < |st.mem| && !(st.gp[SP_PTR] - (n - 1) <= j < st.gp[SP_PTR]) ==> st1.mem[j] == st.mem[j]
    ensures PushOne(ir, st1, n - 1).Some?
    ensures PushOne(ir, st1, n - 1).value.gp == st.gp[SP_PTR := st.gp[SP_PTR] - n]
    ensures |PushOne(ir, st1, n - 1).value.mem| == |st.mem|
    ensures forall i :: 0 <= i < n ==>
              PushOne(ir, st1, n - 1).value.mem[st.gp[SP_PTR] - 1 - i] ==
              ToUnsigned(if ListedReg(ir, i) == SP_PTR then st.gp[SP_PTR] - 1 - i else st.gp[ListedReg(ir, i)])
    ensures forall j :: 0 <= j < |st.mem| && !(st.gp[SP_PTR] - n <= j < st.gp[SP_PTR]) ==>
              PushOne(ir, st1, n - 1).value.mem[j] == st.mem[j]
  {
    var sp, top, last := st.gp[SP_PTR], st.gp[SP_PTR] - n, ListedReg(ir, n - 1);
    var g := st.gp[SP_PTR := top];
    assert st1.gp[SP_PTR := top] == g;
    var v: I16 := if last == SP_PTR then top else st.gp[last];
    assert g[last] == v;
    var m := st1.mem[top := ToUnsigned(v)];
    assert PushOne(ir, st1, n - 1) == Some(Stack(g, m));
  }

  /**
   * What pop does when the listed registers are distinct, none is SP, and
   * the n cells from SP exist: the i-th listed register gets the word at
   * SP + i, SP goes up by n, every other register and memory are unchanged.
   */
  lemma {:induction false} PopEffect(ir: U16, st: Stack, n: nat)
    requires n <= 3 && SpNotListed(ir, n) && ListedDistinct(ir, n)
    requires 0 <= st.gp[SP_PTR] && st.gp[SP_PTR] + n <= |st.mem| && FitsI16(st.gp[SP_PTR] + n)
    ensures PopSteps(ir, st, n).Some?
    ensures PopSteps(ir, st, n).value.mem == st.mem
    ensures PopSteps(ir, st, n).value.gp[SP_PTR] == st.gp[SP_PTR] + n
    ensures forall i :: 0 <= i < n ==>
              PopSteps(ir, st, n).value.gp[ListedReg(ir, i)] == ToSigned(st.mem[st.gp[SP_PTR] + i])
    ensures forall r :: 0 <= r < REG_TOTAL_NUM && r != SP_PTR && Unlisted(ir, n, r) ==>
              PopSteps(ir, st, n).value.gp[r] == st.gp[r]
    decreases n
  {
    if n > 0 {
      PopEffect(ir, st, n - 1);
      var st1 := PopSteps(ir, st, n - 1).value;
      PopRoundEffect(ir, st, st1, n);
      assert PopSteps(ir, st, n) == PopOne(ir, st1, n - 1);
    }
  }

  /** The n-th round of `pop`, from what the first n - 1 rounds did. */
  lemma PopRoundEffect(ir: U16, st: Stack, st1: Stack, n: nat)
    requires 0 < n <= 3 && SpNotListed(ir, n) && ListedDistinct(ir, n)
    requires 0 <= st.gp[SP_PTR] && st.gp[SP_PTR] + n <= |st.mem| && FitsI16(st.gp[SP_PTR] + n)
    requires st1.mem == st.mem && st1.gp[SP_PTR] == st.gp[SP_PTR] + n - 1
    requires forall i :: 0 <= i < n - 1 ==> st1.gp[ListedReg(ir, i)] == ToSigned(st.mem[st.gp[SP_PTR] + i])
    requires forall r :: 0 <= r < REG_TOTAL_NUM && r != SP_PTR && Unlisted(ir, n - 1, r) ==> st1.gp[r] == st.gp[r]
    ensures PopOne(ir, st1, n - 1).Some?
    ensures PopOne(ir, st1, n - 1).value.mem == st.mem
    ensures PopOne(ir, st1, n - 1).value.gp[SP_PTR] == st.gp[SP_PTR] + n
    ensures forall i :: 0 <= i < n ==>
              PopOne(ir, st1, n - 1).value.gp[ListedReg(ir, i)] == ToSigned(st.mem[st.gp[SP_PTR] + i])
    ensures forall r :: 0 <= r < REG_TOTAL_NUM && r != SP_PTR && Unlisted(ir, n, r) ==>
              PopOne(ir, st1, n - 1).value.gp[r] == st.gp[r]
  {
    var sp, last := st.gp[SP_PTR], ListedReg(ir, n - 1);
    assert last != SP_PTR;
    var g := st1.gp[last := ToSigned(st.mem[sp + n - 1])];
    assert PopOne(ir, st1, n - 1) == Some(Stack(g[SP_PTR := sp + n], st.mem));
    forall i | 0 <= i < n
      ensures g[SP_PTR := sp + n][ListedReg(ir, i)] == ToSigned(st.mem[sp + i])
    {
      if i < n - 1 {
        assert ListedReg(ir, i) != last && ListedReg(ir, i) != SP_PTR;
      }
    }
    forall r | 0 <= r < REG_TOTAL_NUM && r != SP_PTR && Unlisted(ir, n, r)
      ensures g[SP_PTR := sp + n][r] == st.gp[r]
    {
      assert Unlisted(ir, n - 1, r) && last != r;
    }
  }

  /**
   * A pop listing the pushed registers in reverse order undoes the push:
   * the registers, SP included, are back as they were.
   */
  lemma PushThenPop(pushIr: U16, popIr: U16, st: Stack, n: nat)
    requires n <= 3 && SpNotListed(pushIr, n) && ListedDistinct(pushIr, n)
    requires forall i :: 0 <= i < n ==> ListedReg(popIr, i) == ListedReg(pushIr, n - 1 - i)
    requires n <= st.gp[SP_PTR] <= |st.mem|
    ensures PushSteps(pushIr, st, n).Some?
    ensures PopSteps(popIr, PushSteps(pushIr, st, n).value, n) == Some(Stack(st.gp, PushSteps(pushIr, st, n).value.mem))
  {
    PushEffect(pushIr, st, n);
    var st1 := PushSteps(pushIr, st, n).value;
    ReversedListing(pushIr, popIr, n);
    PopEffect(popIr, st1, n);
    var st2 := PopSteps(popIr, st1, n).value;
    forall r | 0 <= r < REG_TOTAL_NUM
      ensures st2.gp[r] == st.gp[r]
    {
      if r != SP_PTR {
        if i :| 0 <= i < n && ListedReg(popIr, i) == r {
          PoppedBack(pushIr, popIr, st, st1, st2, n, i);
        }
      }
    }
    assert st2.gp == st.gp;
  }

  /** The reverse of a listing without SP and without repeats has neither. */
  lemma ReversedListing(pushIr: U16, popIr: U16, n: nat)
    requires n <= 3 && SpNotListed(pushIr, n) && ListedDistinct(pushIr, n)
    requires forall i :: 0 <= i < n ==> ListedReg(popIr, i) == ListedReg(pushIr, n - 1 - i)
    ensures SpNotListed(popIr, n) && ListedDistinct(popIr, n)
  {
    forall i | 0 <= i < n ensures ListedReg(popIr, i) != SP_PTR {
      assert ListedReg(popIr, i) == ListedReg(pushIr, n - 1 - i);
    }
    forall i, j | 0 <= i < j < n ensures ListedReg(popIr, i) != ListedReg(popIr, j) {
      assert ListedReg(popIr, i) == ListedReg(pushIr, n - 1 - i);
      assert ListedReg(popIr, j) == ListedReg(pushIr, n - 1 - j);
    }
  }

  /** The i-th popped register reads the cell the (n-1-i)-th pushed register was written to. */
  lemma PoppedBack(pushIr: U16, popIr: U16, st: Stack, st1: Stack, st2: Stack, n: nat, i: nat)
    requires n <= 3 && i < n && n <= st.gp[SP_PTR] <= |st.mem|
    requires ListedReg(popIr, i) == ListedReg(pushIr, n - 1 - i)
    requires st1.gp[SP_PTR] == st.gp[SP_PTR] - n && |st1.mem| == |st.mem|
    requires forall k :: 0 <= k < n ==> st1.mem[st.gp[SP_PTR] - 1 - k] == ToUnsigned(st.gp[ListedReg(pushIr, k)])
    requires forall k :: 0 <= k < n ==> st2.gp[ListedReg(popIr, k)] == ToSigned(st1.mem[st1.gp[SP_PTR] + k])
    ensures st2.gp[ListedReg(popIr, i)] == st.gp[ListedReg(popIr, i)]
  {
    var sp := st.gp[SP_PTR];
    assert st1.gp[SP_PTR] + i == sp - 1 - (n - 1 - i);
    assert st1.mem[sp - 1 - (n - 1 - i)] == ToUnsigned(st.gp[ListedReg(pushIr, n - 1 - i)]);
  }

  // ------------------------------------------------------------------
  // Properties of the arithmetic instructions
  // ------------------------------------------------------------------

  /**
   * Add without overflow writes a + b into the destination register; with
   * overflow no register changes. Only the destination and the flag byte
   * can change, and the flags say what `AddFlagsMeaning` describes.
   */
  lemma AddIntoEffect(s: RegState, a: I16, b: I16)
    ensures FitsI16(a + b) ==> AddInto(s, a, b).gp[Reg0(s.ir)] == a + b
    ensures forall r :: 0 <= r < REG_TOTAL_NUM && (r != Reg0(s.ir) || !FitsI16(a + b)) ==> AddInto(s, a, b).gp[r] == s.gp[r]
    ensures AddInto(s, a, b).(gp := s.gp, flags := s.flags) == s
    ensures FlagValue(AddInto(s, a, b).flags, OV_BIT) == !FitsI16(a + b)
    ensures FlagValue(AddInto(s, a, b).flags, CA_BIT) == !FitsI16(a + b)
  {
    AddFlagsMeaning(s.flags, if FitsI16(a + b) then Some(a + b) else None);
  }

  /**
   * Sub without overflow writes a - b into the destination register and
   * leaves the comparison of a and b in the flags: CA when a >= b, ZR when
   * a == b, NG when a < b. With overflow no register changes and OV is
   * true.
   */
  lemma SubIntoCompares(s: RegState, a: I16, b: I16)
    ensures FitsI16(a - b) ==> SubInto(s, a, b).gp[Reg0(s.ir)] == a - b
    ensures forall r :: 0 <= r < REG_TOTAL_NUM && (r != Reg0(s.ir) || !FitsI16(a - b)) ==> SubInto(s, a, b).gp[r] == s.gp[r]
    ensures SubInto(s, a, b).(gp := s.gp, flags := s.flags) == s
    ensures FlagValue(SubInto(s, a, b).flags, OV_BIT) == !FitsI16(a - b)
    ensures FitsI16(a - b) ==>
              FlagValue(SubInto(s, a, b).flags, CA_BIT) == (a >= b) &&
              FlagValue(SubInto(s, a, b).flags, ZR_BIT) == (a == b) &&
              FlagValue(SubInto(s, a, b).flags, NG_BIT) == (a < b)
  {
    SubFlagsMeaning(s.flags, if FitsI16(a - b) then Some(a - b) else None);
  }

  /**
   * A shift or bitwise result v is written into the destination register;
   * OV and CA become false, a zero v makes ZR true and NG false, a negative
   * v ZR false and NG true.
   */
  lemma LogicIntoEffect(s: RegState, v: I16)
    ensures LogicInto(s, v).gp[Reg0(s.ir)] == v
    ensures forall r :: 0 <= r < REG_TOTAL_NUM && r != Reg0(s.ir) ==> LogicInto(s, v).gp[r] == s.gp[r]
    ensures LogicInto(s, v).(gp := s.gp, flags := s.flags) == s
    ensures !FlagValue(LogicInto(s, v).flags, OV_BIT) && !FlagValue(LogicInto(s, v).flags, CA_BIT)
    ensures v == 0 ==> FlagValue(LogicInto(s, v).flags, ZR_BIT) && !FlagValue(LogicInto(s, v).flags, NG_BIT)
    ensures v < 0 ==> !FlagValue(LogicInto(s, v).flags, ZR_BIT) && FlagValue(LogicInto(s, v).flags, NG_BIT)
  {
    LogicFlagsMeaning(s.flags, v);
  }

  /** `mov_im`, `mov_rg` and `bal` change only what they name. */
  lemma MoveEffects(s: RegState)
    ensures MovImOf(s).gp[Reg0(s.ir)] == MovConstant(s.ir) < 0x100
    ensures MovRgOf(s).gp[Reg0(s.ir)] == s.gp[Reg1(s.ir)]
    ensures forall r :: 0 <= r < REG_TOTAL_NUM && r != Reg0(s.ir) ==> MovImOf(s).gp[r] == s.gp[r] && MovRgOf(s).gp[r] == s.gp[r]
    ensures MovImOf(s).(gp := s.gp) == s && MovRgOf(s).(gp := s.gp) == s
    ensures BalOf(s).pc == Label(s.ir) < 0x800 && BalOf(s).(pc := s.pc) == s
  {
    FieldRanges(s.ir);
  }

  /** `store` and `store_rg` change one cell and no other. */
  lemma StoreEffects(s: RegState, mem: seq<U16>)
    ensures Label(s.ir) < |mem| ==>
              |StoreOf(s, mem)| == |mem| && ToSigned(StoreOf(s, mem)[Label(s.ir)]) == s.gp[MBR_PTR] &&
              forall j :: 0 <= j < |mem| && j != Label(s.ir) ==> StoreOf(s, mem)[j] == mem[j]
    ensures RgAddress(s.ir) < |mem| ==>
              |StoreRgOf(s, mem)| == |mem| && ToSigned(StoreRgOf(s, mem)[RgAddress(s.ir)]) == s.gp[Reg0(s.ir)] &&
              forall j :: 0 <= j < |mem| && j != RgAddress(s.ir) ==> StoreRgOf(s, mem)[j] == mem[j]
  {
  }

  /** A load after a store at the same address gives back the stored register. */
  lemma LoadAfterStore(s: RegState, mem: seq<U16>)
    requires Label(s.ir) < |mem|
    ensures LoadOf(s, StoreOf(s, mem)) == s
    ensures RgAddress(s.ir) < |mem| ==>
              LoadRgOf(s, StoreRgOf(s, mem)) == s
  {
    assert s.gp[MBR_PTR := s.gp[MBR_PTR]] == s.gp;
    assert s.gp[Reg0(s.ir) := s.gp[Reg0(s.ir)]] == s.gp;
  }

  // ------------------------------------------------------------------
  // The instructions on the register file
  // ------------------------------------------------------------------

  /** `mov_im`. */
  method MovIm(regs: Registers)
    requires regs.gp.Length == REG_TOTAL_NUM
    modifies regs.gp
    ensures regs.State() == MovImOf(old(regs.State()))
  {
    var dst := ExtractBits(regs.ir, REG_ADDR_SIZE, REG_POS0_ROFFSET);
    var val := ExtractBits(regs.ir, MOV_CONSTANT_SIZE, MOV_CONSTANT_ROFFSET);
    FieldRanges(regs.ir);
    assert dst == Reg0(regs.ir) && val == MovConstant(regs.ir);
    regs.gp[dst] := val;
  }

  /** `mov_rg`. */
  method MovRg(regs: Registers)
    requires regs.gp.Length == REG_TOTAL_NUM
    modifies regs.gp
    ensures regs.State() == MovRgOf(old(regs.State()))
  {
    var dst := ExtractBits(regs.ir, REG_ADDR_SIZE, REG_POS0_ROFFSET);
    var src := ExtractBits(regs.ir, REG_ADDR_SIZE, REG_POS1_ROFFSET);
    assert dst == Reg0(regs.ir) && src == Reg1(regs.ir);
    regs.gp[dst] := regs.gp[src];
  }

  /** `load`; the label must address a word of memory. */
  method Load(regs: Registers, mem: array<U16>)
    requires regs.gp.Length == REG_TOTAL_NUM && Label(regs.ir) < mem.Length
    modifies regs.gp
    ensures regs.State() == LoadOf(old(regs.State()), mem[..])
  {
    var address := ExtractBits(regs.ir, MEM_LABEL_SIZE, MEM_LABEL_ROFFSET);
    assert address == Label(regs.ir);
    regs.gp[MBR_PTR] := ToSigned(mem[address]);
  }

  /** `load_rg`; the register-field address must address a word of memory. */
  method LoadRg(regs: Registers, mem: array<U16>)
    requires regs.gp.Length == REG_TOTAL_NUM && RgAddress(regs.ir) < mem.Length
    modifies regs.gp
    ensures regs.State() == LoadRgOf(old(regs.State()), mem[..])
  {
    var dst := ExtractBits(regs.ir, REG_ADDR_SIZE, REG_POS0_ROFFSET);
    var adr := ExtractBits(regs.ir, REG_ADDR_SIZE, REG_POS1_ROFFSET);
    var ofst := ExtractBits(regs.ir, MEM_OFFSET_SIZE, MEM_OFFSET_ROFFSET);
    assert dst == Reg0(regs.ir) && adr + ofst == RgAddress(regs.ir);
    regs.gp[dst] := ToSigned(mem[adr + ofst]);
  }

  /** `store`; the label must address a word of memory. */
  method Store(regs: Registers, mem: array<U16>)
    requires regs.gp.Length == REG_TOTAL_NUM && Label(regs.ir) < mem.Length
    modifies mem
    ensures mem[..] == StoreOf(regs.State(), old(mem[..]))
  {
    var address := ExtractBits(regs.ir, MEM_LABEL_SIZE, MEM_LABEL_ROFFSET);
    assert address == Label(regs.ir);
    mem[address] := ToUnsigned(regs.gp[MBR_PTR]);
  }

  /** `store_rg`; the register-field address must address a word of memory. */
  method StoreRg(regs: Registers, mem: array<U16>)
    requires regs.gp.Length == REG_TOTAL_NUM && RgAddress(regs.ir) < mem.Length
    modifies mem
    ensures mem[..] == StoreRgOf(regs.State(), old(mem[..]))
  {
    var src := ExtractBits(regs.ir, REG_ADDR_SIZE, REG_POS0_ROFFSET);
    var adr := ExtractBits(regs.ir, REG_ADDR_SIZE, REG_POS1_ROFFSET);
    var ofst := ExtractBits(regs.ir, MEM_OFFSET_SIZE, MEM_OFFSET_ROFFSET);
    assert src == Reg0(regs.ir) && adr + ofst == RgAddress(regs.ir);
    mem[adr + ofst] := ToUnsigned(regs.gp[src]);
  }

  /** One round of `push` on the register array and memory. */
  method PushRound(regs: Registers, mem: array<U16>, i: nat)
    requires regs.gp.Length == REG_TOTAL_NUM && i < 3
    requires PushOne(regs.ir, Stack(regs.gp[..], mem[..]), i).Some?
    modifies regs.gp, mem
    ensures Some(Stack(regs.gp[..], mem[..])) == PushOne(regs.ir, Stack(old(regs.gp[..]), old(mem[..])), i)
  {
    var addr := ExtractBits(regs.ir, REG_ADDR_SIZE, REG_POS0_ROFFSET + REG_ADDR_SIZE * i);
    assert addr == ListedReg(regs.ir, i);
    regs.gp[SP_PTR] := regs.gp[SP_PTR] - 1;
    mem[regs.gp[SP_PTR]] := ToUnsigned(regs.gp[addr]);
  }

  /** `push`: the listed registers, as many as the 2-bit count says, in order. */
  method Push(regs: Registers, mem: array<U16>)
    requires regs.gp.Length == REG_TOTAL_NUM
    requires PushPopNum(regs.ir) <= 3 && PushSteps(regs.ir, Stack(regs.gp[..], mem[..]), PushPopNum(regs.ir)).Some?
    modifies regs.gp, mem
    ensures Some(Stack(regs.gp[..], mem[..])) == PushSteps(regs.ir, Stack(old(regs.gp[..]), old(mem[..])), PushPopNum(regs.ir))
  {
    var num := ExtractBits(regs.ir, PUSHPOP_NUM_SIZE, PUSHPOP_NUM_ROFFSET);
    assert num == PushPopNum(regs.ir);
    ghost var st0 := Stack(regs.gp[..], mem[..]);
    for i := 0 to num
      invariant PushSteps(regs.ir, st0, i) == Some(Stack(regs.gp[..], mem[..]))
    {
      ghost var cur := Stack(regs.gp[..], mem[..]);
      PushAdvance(regs.ir, st0, cur, i, num);
      PushRound(regs, mem, i);
    }
  }

  /** One round of `pop` on the register array. */
  method PopRound(regs: Registers, mem: array<U16>, i: nat)
    requires regs.gp.Length == REG_TOTAL_NUM && i < 3
    requires PopOne(regs.ir, Stack(regs.gp[..], mem[..]), i).Some?
    modifies regs.gp
    ensures Some(Stack(regs.gp[..], mem[..])) == PopOne(regs.ir, Stack(old(regs.gp[..]), mem[..]), i)
  {
    var addr := ExtractBits(regs.ir, REG_ADDR_SIZE, REG_POS0_ROFFSET + REG_ADDR_SIZE * i);
    assert addr == ListedReg(regs.ir, i);
    regs.gp[addr] := ToSigned(mem[regs.gp[SP_PTR]]);
    regs.gp[SP_PTR] := regs.gp[SP_PTR] + 1;
  }

  /** `pop`: the listed registers, as many as the 2-bit count says, in order. */
  method Pop(regs: Registers, mem: array<U16>)
    requires regs.gp.Length == REG_TOTAL_NUM
    requires PushPopNum(regs.ir) <= 3 && PopSteps(regs.ir, Stack(regs.gp[..], mem[..]), PushPopNum(regs.ir)).Some?
    modifies regs.gp
    ensures Some(Stack(regs.gp[..], mem[..])) == PopSteps(regs.ir, Stack(old(regs.gp[..]), mem[..]), PushPopNum(regs.ir))
  {
    var num := ExtractBits(regs.ir, PUSHPOP_NUM_SIZE, PUSHPOP_NUM_ROFFSET);
    assert num == PushPopNum(regs.ir);
    ghost var st0 := Stack(regs.gp[..], mem[..]);
    for i := 0 to num
      invariant PopSteps(regs.ir, st0, i) == Some(Stack(regs.gp[..], mem[..]))
    {
      ghost var cur := Stack(regs.gp[..], mem[..]);
      PopAdvance(regs.ir, st0, cur, i, num);
      PopRound(regs, mem, i);
    }
  }

  /** The sum written by `add_im`/`add_rg`, or the overflow flags. */
  method AddResult(regs: Registers, dst: nat, sum: int)
    requires regs.gp.Length == REG_TOTAL_NUM && dst < REG_TOTAL_NUM
    modifies regs, regs.gp
    ensures regs.State() == if FitsI16(sum) then old(regs.State()).(gp := old(regs.gp[..])[dst := sum], flags := AddFlags(old(regs.flags), Some(sum)))
                            else old(regs.State()).(flags := AddFlags(old(regs.flags), None))
  {
    if FitsI16(sum) {
      regs.gp[dst] := sum;
      regs.ChangeFlags([OV(false), CA(false)]);
      if sum == 0 {
        regs.ChangeFlags([ZR(true), NG(false)]);
      } else if sum < 0 {
        regs.ChangeFlags([ZR(false), NG(true)]);
      }
    } else {
      regs.ChangeFlags([OV(true), CA(true)]);
    }
  }

  /** The difference written by `sub_im`/`sub_rg`, or the overflow flag. */
  method SubResult(regs: Registers, dst: nat, diff: int)
    requires regs.gp.Length == REG_TOTAL_NUM && dst < REG_TOTAL_NUM
    modifies regs, regs.gp
    ensures regs.State() == if FitsI16(diff) then old(regs.State()).(gp := old(regs.gp[..])[dst := diff], flags := SubFlags(old(regs.flags), Some(diff)))
                            else old(regs.State()).(flags := SubFlags(old(regs.flags), None))
  {
    if FitsI16(diff) {
      regs.gp[dst] := diff;
      regs.ChangeFlags([OV(false)]);
      if diff == 0 {
        regs.ChangeFlags([CA(true), ZR(true), NG(false)]);
      } else if diff > 0 {
        regs.ChangeFlags([CA(true), ZR(false), NG(false)]);
      } else {
        regs.ChangeFlags([CA(false), ZR(false), NG(true)]);
      }
    } else {
      regs.ChangeFlags([OV(true)]);
    }
  }

  /** The result written by a shift or bitwise instruction, and its flags. */
  method LogicResult(regs: Registers, dst: nat, v: I16)
    requires regs.gp.Length == REG_TOTAL_NUM && dst < REG_TOTAL_NUM
    modifies regs, regs.gp
    ensures regs.State() == old(regs.State()).(gp := old(regs.gp[..])[dst := v], flags := LogicFlags(old(regs.flags), v))
  {
    regs.gp[dst] := v;
    if regs.gp[dst] == 0 {
      regs.ChangeFlags([ZR(true), NG(false)]);
    } else if regs.gp[dst] < 0 {
      regs.ChangeFlags([ZR(false), NG(true)]);
    }
    regs.ChangeFlags([OV(false), CA(false)]);
  }

  /** `add_im`. */
  method AddIm(regs: Registers)
    requires regs.gp.Length == REG_TOTAL_NUM
    modifies regs, regs.gp
    ensures regs.State() == AddImOf(old(regs.State()))
  {
    var dst := ExtractBits(regs.ir, REG_ADDR_SIZE, REG_POS0_ROFFSET);
    var a := ExtractBits(regs.ir, REG_ADDR_SIZE, REG_POS1_ROFFSET);
    var val := ExtractBits(regs.ir, MATH_CONSTANT_SIZE, MATH_CONSTANT_ROFFSET);
    assert dst == Reg0(regs.ir) && a == Reg1(regs.ir) && val == MathImmediate(regs.ir);
    AddResult(regs, dst, regs.gp[a] as int + val);
  }

  /** `add_rg`. */
  method AddRg(regs: Registers)
    requires regs.gp.Length == REG_TOTAL_NUM
    modifies regs, regs.gp
    ensures regs.State() == AddRgOf(old(regs.State()))
  {
    var dst := ExtractBits(regs.ir, REG_ADDR_SIZE, REG_POS0_ROFFSET);
    var a := ExtractBits(regs.ir, REG_ADDR_SIZE, REG_POS1_ROFFSET);
    var b := ExtractBits(regs.ir, REG_ADDR_SIZE, REG_POS2_ROFFSET);
    assert dst == Reg0(regs.ir) && a == Reg1(regs.ir) && b == Reg2(regs.ir);
    AddResult(regs, dst, regs.gp[a] as int + regs.gp[b] as int);
  }

  /** `sub_im`. */
  method SubIm(regs: Registers)
    requires regs.gp.Length == REG_TOTAL_NUM
    modifies regs, regs.gp
    ensures regs.State() == SubImOf(old(regs.State()))
  {
    var dst := ExtractBits(regs.ir, REG_ADDR_SIZE, REG_POS0_ROFFSET);
    var a := ExtractBits(regs.ir, REG_ADDR_SIZE, REG_POS1_ROFFSET);
    var val := ExtractBits(regs.ir, MATH_CONSTANT_SIZE, MATH_CONSTANT_ROFFSET);
    assert dst == Reg0(regs.ir) && a == Reg1(regs.ir) && val == MathImmediate(regs.ir);
    SubResult(regs, dst, regs.gp[a] as int - val);
  }

  /** `sub_rg`. */
  method SubRg(regs: Registers)
    requires regs.gp.Length == REG_TOTAL_NUM
    modifies regs, regs.gp
    ensures regs.State() == SubRgOf(old(regs.State()))
  {
    var dst := ExtractBits(regs.ir, REG_ADDR_SIZE, REG_POS0_ROFFSET);
    var a := ExtractBits(regs.ir, REG_ADDR_SIZE, REG_POS1_ROFFSET);
    var b := ExtractBits(regs.ir, REG_ADDR_SIZE, REG_POS2_ROFFSET);
    assert dst == Reg0(regs.ir) && a == Reg1(regs.ir) && b == Reg2(regs.ir);
    SubResult(regs, dst, regs.gp[a] as int - regs.gp[b] as int);
  }

  /** `shift_l`. */
  method ShiftL(regs: Registers)
    requires regs.gp.Length == REG_TOTAL_NUM
    modifies regs, regs.gp
    ensures regs.State() == ShiftLOf(old(regs.State()))
  {
    var dst := ExtractBits(regs.ir, REG_ADDR_SIZE, REG_POS0_ROFFSET);
    var src := ExtractBits(regs.ir, REG_ADDR_SIZE, REG_POS1_ROFFSET);
    var val := ExtractBits(regs.ir, SHFT_CONSTANT_SIZE, SHFT_CONSTANT_ROFFSET);
    assert dst == Reg0(regs.ir) && src == Reg1(regs.ir) && val == ShiftConstant(regs.ir);
    LogicResult(regs, dst, ShlI16(regs.gp[src], val));
  }

  /** `shift_r`. */
  method ShiftR(regs: Registers)
    requires regs.gp.Length == REG_TOTAL_NUM
    modifies regs, regs.gp
    ensures regs.State() == ShiftROf(old(regs.State()))
  {
    var dst := ExtractBits(regs.ir, REG_ADDR_SIZE, REG_POS0_ROFFSET);
    var src := ExtractBits(regs.ir, REG_ADDR_SIZE, REG_POS1_ROFFSET);
    var val := ExtractBits(regs.ir, SHFT_CONSTANT_SIZE, SHFT_CONSTANT_ROFFSET);
    assert dst == Reg0(regs.ir) && src == Reg1(regs.ir) && val == ShiftConstant(regs.ir);
    LogicResult(regs, dst, ShrI16(regs.gp[src], val));
  }

  /** `and`. */
  method And(regs: Registers)
    requires regs.gp.Length == REG_TOTAL_NUM
    modifies regs, regs.gp
    ensures regs.State() == AndOf(old(regs.State()))
  {
    var dst := ExtractBits(regs.ir, REG_ADDR_SIZE, REG_POS0_ROFFSET);
    var a := ExtractBits(regs.ir, REG_ADDR_SIZE, REG_POS1_ROFFSET);
    var b := ExtractBits(regs.ir, REG_ADDR_SIZE, REG_POS2_ROFFSET);
    assert dst == Reg0(regs.ir) && a == Reg1(regs.ir) && b == Reg2(regs.ir);
    LogicResult(regs, dst, AndI16(regs.gp[a], regs.gp[b]));
  }

  /** `or`. */
  method Or(regs: Registers)
    requires regs.gp.Length == REG_TOTAL_NUM
    modifies regs, regs.gp
    ensures regs.State() == OrOf(old(regs.State()))
  {
    var dst := ExtractBits(regs.ir, REG_ADDR_SIZE, REG_POS0_ROFFSET);
    var a := ExtractBits(regs.ir, REG_ADDR_SIZE, REG_POS1_ROFFSET);
    var b := ExtractBits(regs.ir, REG_ADDR_SIZE, REG_POS2_ROFFSET);
    assert dst == Reg0(regs.ir) && a == Reg1(regs.ir) && b == Reg2(regs.ir);
    LogicResult(regs, dst, OrI16(regs.gp[a], regs.gp[b]));
  }

  /** `not`. */
  method Not(regs: Registers)
    requires regs.gp.Length == REG_TOTAL_NUM
    modifies regs, regs.gp
    ensures regs.State() == NotOf(old(regs.State()))
  {
    var dst := ExtractBits(regs.ir, REG_ADDR_SIZE, REG_POS0_ROFFSET);
    var src := ExtractBits(regs.ir, REG_ADDR_SIZE, REG_POS1_ROFFSET);
    assert dst == Reg0(regs.ir) && src == Reg1(regs.ir);
    LogicResult(regs, dst, NotI16(regs.gp[src]));
  }

  /** `bal`. */
  method Bal(regs: Registers)
    requires regs.gp.Length == REG_TOTAL_NUM
    modifies regs
    ensures regs.State() == BalOf(old(regs.State()))
  {
    var address := ExtractBits(regs.ir, MEM_LABEL_SIZE, MEM_LABEL_ROFFSET);
    FieldRanges(regs.ir);
    assert address == Label(regs.ir);
    regs.pc := address;
  }
}
