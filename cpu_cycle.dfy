/**
 * The three stages of a CPU cycle: fetch an instruction word, decode its
 * opcode and execute it, reporting whether the program counter is to be
 * incremented (no control flow), left as the instruction set it
 * (`Continue`) or the program has halted (`Break`).
 *
 * The dispatch names variants and functions that are not part of the
 * instruction set (`Jmp`, `Bln`, `Ret`, `CmpIm`, `Beq`, ...). The model
 * classifies by the opcode numbering instead: 0..16 increment the program
 * counter, the five branch opcodes 17..21 skip the increment, 22 (`Halt`)
 * breaks; any other number is unrecognised. Of the branches only `bal` has
 * a body; the other four change nothing in the model.
 */
module CpuCycle {
  import opened Wrappers
  import opened Bits
  import opened RegisterFile
  import opened Instructions
  import opened Execute

  /** `fetch`: the word at the program counter; an index past the RAM panics. */
  function Fetch(pc: U16, ram: seq<U16>): (w: U16)
    requires pc < |ram|
    ensures w in ram
  {
    ram[pc]
  }

  /** `decode`: the instruction register shifted right by 11, the 5-bit opcode field. */
  function Decode(ir: U16): (op: U8)
    ensures op < 32 && op == Field(ir, OPCODE_SIZE, 0)
  {
    ShrIsDiv(ir, 11);
    Pow2Values();
    Pow2Add(5, 11);
    DivBelow(ir, Pow2(11), 32);
    Shr(ir, 11)
  }

  /** A quotient below a bound: x < d * n gives x / d < n. */
  lemma DivBelow(x: nat, d: nat, n: nat)
    requires d >= 1 && x < n * d
    ensures x / d < n
  {
    DivModSplit(x, d);
    if x / d >= n {
      MulGap(x / d, n - 1, d);
    }
  }

  /** Rust's `ControlFlow`. */
  datatype ControlFlow = Continue | Break

  /** The panic of the dispatch on a number that is no opcode. */
  datatype CycleError = UnrecognizedOpcode(opcode: U8)

  /**
   * The result of `execute` for an opcode number: None (increment the
   * program counter), `Continue` (skip the increment), `Break` (halt), or
   * the panic on an unrecognised opcode.
   */
  function ControlOf(opcode: U8): Result<Option<ControlFlow>, CycleError> {
    if opcode <= 16 then Success(None)
    else if opcode <= 21 then Success(Some(Continue))
    else if opcode == 22 then Success(Some(Break))
    else Failure(UnrecognizedOpcode(opcode))
  }

  /**
   * By opcode: only `Halt` breaks, exactly the five branches skip the pc
   * increment, every other opcode asks for it, and numbers past the last
   * opcode fail.
   */
  lemma ControlOfOpcodes(op: Opcode, n: U8)
    ensures ControlOf(OpcodeNumber(op)) == Success(Some(Break)) <==> op == Halt
    ensures ControlOf(OpcodeNumber(op)) == Success(Some(Continue)) <==>
              op == Bal || op == BZR || op == BNG || op == BLN || op == RET
    ensures ControlOf(OpcodeNumber(op)) == Success(None) <==>
              !(op == Halt || op == Bal || op == BZR || op == BNG || op == BLN || op == RET)
    ensures ControlOf(n).Failure? <==> OpcodeOf(n).None?
  {
  }

  /** The memory accesses of the instruction do not panic. */
  predicate Runnable(opcode: U8, s: RegState, mem: seq<U16>) {
    FieldRanges(s.ir);
    if opcode == 2 || opcode == 4 then Label(s.ir) < |mem|
    else if opcode == 3 || opcode == 5 then RgAddress(s.ir) < |mem|
    else if opcode == 6 then PushSteps(s.ir, Stack(s.gp, mem), PushPopNum(s.ir)).Some?
    else if opcode == 7 then PopSteps(s.ir, Stack(s.gp, mem), PushPopNum(s.ir)).Some?
    else true
  }

  /** The new register file and memory after an instruction with a body, opcodes 0..17. */
  function Effect(opcode: U8, s: RegState, mem: seq<U16>): (RegState, seq<U16>)
    requires opcode <= 17 && Runnable(opcode, s, mem)
  {
    FieldRanges(s.ir);
    if opcode == 0 then (MovImOf(s), mem)
    else if opcode == 1 then (MovRgOf(s), mem)
    else if opcode == 2 then (LoadOf(s, mem), mem)
    else if opcode == 3 then (LoadRgOf(s, mem), mem)
    else if opcode == 4 then (s, StoreOf(s, mem))
    else if opcode == 5 then (s, StoreRgOf(s, mem))
    else if opcode == 6 then
      var st := PushSteps(s.ir, Stack(s.gp, mem), PushPopNum(s.ir)).value;
      (s.(gp := st.gp), st.mem)
    else if opcode == 7 then
      var st := PopSteps(s.ir, Stack(s.gp, mem), PushPopNum(s.ir)).value;
      (s.(gp := st.gp), st.mem)
    else if opcode == 8 then (AddImOf(s), mem)
    else if opcode == 9 then (AddRgOf(s), mem)
    else if opcode == 10 then (SubImOf(s), mem)
    else if opcode == 11 then (SubRgOf(s), mem)
    else if opcode == 12 then (ShiftLOf(s), mem)
    else if opcode == 13 then (ShiftROf(s), mem)
    else if opcode == 14 then (AndOf(s), mem)
    else if opcode == 15 then (OrOf(s), mem)
    else if opcode == 16 then (NotOf(s), mem)
    else (BalOf(s), mem)
  }

  /**
   * `execute`: the instruction's method runs on the register file and the
   * memory and the control result is the opcode's class; `Halt`, the four
   * branches without a body and an unrecognised opcode change nothing.
   */
  method Exec(opcode: U8, regs: Registers, mem: array<U16>) returns (r: Result<Option<ControlFlow>, CycleError>)
    requires regs.gp.Length == REG_TOTAL_NUM && Runnable(opcode, regs.State(), mem[..])
    modifies regs, regs.gp, mem
    ensures r == ControlOf(opcode)
    ensures opcode <= 17 ==> (regs.State(), mem[..]) == Effect(opcode, old(regs.State()), old(mem[..]))
    ensures opcode > 17 ==> regs.State() == old(regs.State()) && mem[..] == old(mem[..])
  {
    FieldRanges(regs.ir);
    var op := OpcodeOf(opcode);
    if op.None? {
      return Failure(UnrecognizedOpcode(opcode));
    }
    OpcodeNumbering(op.value, opcode);
    assert opcode == OpcodeNumber(op.value);
    r := Success(None);
    match op.value
    case MovIm => Execute.MovIm(regs);
    case MovRg => Execute.MovRg(regs);
    case Load => Execute.Load(regs, mem);
    case LoadRg => Execute.LoadRg(regs, mem);
    case Store => Execute.Store(regs, mem);
    case StrRg => Execute.StoreRg(regs, mem);
    case Push => Execute.Push(regs, mem);
    case Pop => Execute.Pop(regs, mem);
    case AddIm => Execute.AddIm(regs);
    case AddRg => Execute.AddRg(regs);
    case SubIm => Execute.SubIm(regs);
    case SubRg => Execute.SubRg(regs);
    case ShftL => Execute.ShiftL(regs);
    case ShftR => Execute.ShiftR(regs);
    case And => Execute.And(regs);
    case Or => Execute.Or(regs);
    case Not => Execute.Not(regs);
    case Bal => Execute.Bal(regs); r := Success(Some(Continue));
    case BZR => r := Success(Some(Continue));
    case BNG => r := Success(Some(Continue));
    case BLN => r := Success(Some(Continue));
    case RET => r := Success(Some(Continue));
    case Halt => r := Success(Some(Break));
  }
}
