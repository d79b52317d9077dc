# A toy 16-bit CPU: assembler and emulator, modelled in Dafny

This project models the two halves of a toolchain for a small 16-bit CPU
written in Rust, and proves properties of the model.

- **The assembler.**
  - It reads a source file line by line and classifies each line (`parse_line`) as one of:
    - a comment;
    - a `.section` directive;
    - data (a quoted string or a comma-separated list of `i16`);
    - a label;
    - an instruction.
  - Pass 1 (`parse_symbols`):
    - records each label at the number of words before it;
    - records the code and data sections as source-line ranges, in the `Symbols` table.
  - Pass 2 (`assemble_program`):
    - encodes each instruction of the code range into two bytes;
    - copies the data of the data range.
  - The encoder:
    - packs the five instruction layouts T1..T5;
    - looks up register names (`r0`..`r7`, `fp`, `sp`, `lr`, `mbr`);
    - parses `#imm` immediates as `i8`;
    - implements the one mnemonic family, `mov` (also reached as `load`).
- **The emulator.**
  - `load_program` joins byte pairs into big-endian words.
  - The cycle fetches the word at `pc` and decodes the 5-bit opcode in bits 15..11.
  - `execute` dispatches to one of 23 opcodes:
    - it runs the instruction's effect on the register file (eight `i16` registers, `pc`, `acc`, `ir`, `mar`, and an active-low flag byte with OV, CA, ZR, NG at bits 0..3);
    - it runs the instruction's effect on a word memory;
    - it reports whether the program counter is incremented, left alone (branches) or the program halted.
  - Instruction fields are read by `extract_bits`.

Both halves share one word layout:
- the opcode is in bits 15..11;
- the first register is in bits 10..8;
- what follows is one of:
  - an 8-bit constant (T1);
  - a second register in bits 7..5 and a 5-bit field (T2);
  - an 11-bit label (T3).

The module `Toolchain` proves the round trips across that boundary: the
encoder's fields are the fields `extract_bits` reads back, and the loader
joins the byte pairs the data parser splits.

The model follows the code: 5-bit opcodes, four flags, and sections as
ranges of source lines.

Modules, one per source file (plus shared helpers):

| Dafny file | models |
|---|---|
| `wrappers.dfy`, `bits.dfy`, `text.dfy` | `Option`/`Result`; integer widths, shifts and bitwise and/or on naturals; Rust's `trim`, `split`, `parse` and `to_string` on strings |
| `err_handler.dfy` | `LineError` |
| `symbols.dfy` | `Symbols`, `update_sections`, `check_sections_valid`, `code_range`, `data_range` |
| `encoder.dfy` | `encode`, `REGISTERS`, `MNEMONICS`, `get_valid_reg`, `get_valid_imm`, `mov` |
| `parser.dfy` | `parse_line` and its sub-parsers, `replace_control_ascii`, `trim_comments`, both passes |
| `registers.dfy` | `Registers`, `new`, `change_flags` |
| `instructions.dfy` | `Opcode`, the field constants, `extract_bits`, the flag updates |
| `execute.dfy` | every `execute::*` instruction, as a value-level function with a method proved against it |
| `cpu_cycle.dfy` | `fetch`, `decode`, `execute` |
| `emulator_main.dfy` | `load_program`, and this file's own `decode` |
| `toolchain.dfy` | assembler/emulator round trips |

How the model is built:
- Words, bytes and registers are integers restricted to their width (`U8`, `U16`, `I16`).
- `as` casts between `i16` and `u16` are written out as two's complement (`ToSigned`, `ToUnsigned`).
- Each panic of the source is a precondition of the method that would panic. These are:
  - an index outside memory;
  - an `i16` overflow of the stack pointer;
  - `0usize - 1` on an empty vector, which a string data line with nothing between its quotes (`""`) reaches: `Parser.ParseLineOk` and so `Parser.LinesOk` exclude such a line, and `Parser.StringDataLine` asks for a non-empty string;
  - a byte slice that splits a character;
  - in `extract_bits`, `16 - right_offset - size` below 0 and a one-bit mask shifted by 16 (size 0 at offset 0). `Instructions.ExtractBits` requires neither to happen, and no call site comes near either.
- Each error the source returns is a `Result` failure.

## Model

| member | source | states |
|---|---|---|
| Encoder.Encode | Assembler/src/encoder.rs:56-93 | every layout encodes to exactly two bytes, `[msb, lsb]` |
| Encoder.HighByteFields | Assembler/src/encoder.rs:59-62 | for a 5-bit opcode and a 3-bit register, the high byte of `op << 11 \| r << 8` is `op * 8 + r` |
| Encoder.EncodeT1Word | Assembler/src/encoder.rs:59-62 | the T1 word is `op * 2^11 + r * 2^8 + c`: disjoint fields |
| Encoder.EncodeT2Word | Assembler/src/encoder.rs:63-69 | the T2 word is `op * 2^11 + rp0 * 2^8 + rp1 * 2^5 + f1`: rp1 in bits 7..5, f1 in bits 4..0 |
| Encoder.EncodeT3Word | Assembler/src/encoder.rs:70-75 | the T3 word is `op * 2^11 + f2` for an 11-bit f2 |
| Encoder.EncodeT4ThirdRegisterShifted | Assembler/src/encoder.rs:76-83 | T4 puts rp2 at `<< 3`; the emulator's bits 4..2 then hold `2 * rp2 mod 8`, which equals rp2 only for r0 |
| Encoder.EncodeT5ConstantShifted | Assembler/src/encoder.rs:84-91 | T5 puts c at `<< 1`; the emulator's bits 4..0 then hold `2 * c mod 32`, which equals c only for 0 |
| Encoder.RegisterTable | Assembler/src/encoder.rs:35-50 | every register address is below 8; `rN` maps to N for N in 0..7; fp, sp, lr and mbr map to 4, 5, 6 and 7 |
| Encoder.GetValidReg | Assembler/src/encoder.rs:95-100 | succeeds exactly for a known register name, with an address below 8; otherwise Unrecognized(name) |
| Encoder.GetValidImm | Assembler/src/encoder.rs:102-108 | fails, with Unrecognized, exactly when the text after the first character is not an `i8`; otherwise gives that value's two's-complement byte |
| Encoder.GetValidImmPrinted | Assembler/src/encoder.rs:102-108 | `#v` for every v in -128..127 gives v's two's-complement byte |
| Encoder.GetValidImmNegative | Assembler/src/encoder.rs:102-108 | `#-1` is 0xFF, `#-128` is 0x80, `#128` is Unrecognized |
| Encoder.Mov | Assembler/src/encoder.rs:114-139 | covers every case of `mov`: <br>• not exactly two arguments is WrongArgs; <br>• an unknown destination is Unrecognized; <br>• with a known destination, `#imm` gives T1 with opcode 0 and the immediate's byte when the immediate parses as an `i8`, and Unrecognized of the immediate when it does not; <br>• with a known destination, a known source register gives T2 with opcode 1 and unused field 0; <br>• an unknown source is Unrecognized |
| Encoder.Call | Assembler/src/encoder.rs:22-24 | a successful callback yields two bytes |
| Encoder.MnemonicTable | Assembler/src/encoder.rs:27-32 | exactly `mov` and `load` are mnemonics, and both encode as `mov` |
| SymbolTable.RangeOf | Assembler/src/symbols.rs:28-40 | a range exists exactly when both bounds are set, and it is `start..end` |
| SymbolTable.UpdateLayout | Assembler/src/symbols.rs:42-67 | the first directive sets only its own start; a later one sets its own start and closes the other section at the same line |
| SymbolTable.CheckLayout | Assembler/src/symbols.rs:69-94 | no directive is NoSectionDecl and data alone is OnlyDataSection, both if and only if; success never moves a start |
| SymbolTable.DirectivesLinked | Assembler/src/symbols.rs:42-67 | after any directives, a set code end is the data start and a set data end is the code start |
| SymbolTable.SectionsAdjacent | Assembler/src/symbols.rs:69-94 | for any directives, a successful check that yields both ranges yields adjacent ones |
| SymbolTable.CodeThenData | Assembler/src/symbols.rs:72-75 | code on line c then data on line d gives code `c..d` and data `d..n` |
| SymbolTable.DataThenCode | Assembler/src/symbols.rs:76-79 | data on line d then code on line c gives data `d..c` and code `c..n` |
| SymbolTable.CodeOnly | Assembler/src/symbols.rs:80-83 | a code section alone runs to the line count; there is no data range |
| SymbolTable.DataOnly | Assembler/src/symbols.rs:84-87 | a data section alone fails with OnlyDataSection |
| SymbolTable.RepeatedCodeDirective | Assembler/src/symbols.rs:46-54 | two code directives and no data directive pass the check, but leave no code range |
| SymbolTable.Symbols.constructor | Assembler/src/symbols.rs:20-26 | no labels, both sections `(None, None)` |
| SymbolTable.Symbols.CodeRange | Assembler/src/symbols.rs:28-33 | `Some(start..end)` exactly when both code bounds are set |
| SymbolTable.Symbols.DataRange | Assembler/src/symbols.rs:35-40 | `Some(start..end)` exactly when both data bounds are set |
| SymbolTable.Symbols.UpdateSections | Assembler/src/symbols.rs:42-67 | the new bounds are UpdateLayout of the old ones; labels are unchanged |
| SymbolTable.Symbols.CheckSectionsValid | Assembler/src/symbols.rs:69-94 | succeeds exactly when CheckLayout does, with its bounds; a failure carries CheckLayout's error and leaves the bounds; labels are unchanged |
| Parser.ParsedSection | Assembler/src/parser.rs:168-178 | Code if and only if the line contains `Code`/`code`; else Data if and only if it contains `Data`/`data`; else WrongSection(trimmed line) |
| Parser.ParsedLabel | Assembler/src/parser.rs:233-246 | LabelMoreColon if and only if more than one colon; otherwise, the label is the line minus its last character, and it succeeds if and only if that label has no space or tab (else LabelWhitespace) |
| Parser.ParsedInstruction | Assembler/src/parser.rs:248-258 | succeeds if and only if the first space-separated word is ASCII; the mnemonic is that word lower-cased, and the words rejoined give the line back |
| Parser.Unescape | Assembler/src/parser.rs:185-200 | collapsing escapes never lengthens the bytes |
| Parser.UnescapePlain | Assembler/src/parser.rs:185-200 | bytes without a backslash come back unchanged |
| Parser.UnescapeEscape | Assembler/src/parser.rs:185-200 | unescaping the escaped form of backslash-free bytes gives them back (round trip) |
| Parser.UnescapeLength | Assembler/src/parser.rs:185-200 | the result is shorter by exactly the number of collapsed escapes |
| Parser.ReplaceControlAscii | Assembler/src/parser.rs:185-200 | the in-place loop over a non-empty vector leaves exactly Unescape of its input |
| Parser.WordsToBytes | Assembler/src/parser.rs:223-228 | twice as many bytes as words |
| Parser.WordsToBytesAt | Assembler/src/parser.rs:225-228 | word k is at bytes 2k (msb) and 2k+1 (lsb) |
| Parser.ItemValue | Assembler/src/parser.rs:212-216 | an item is its `i16` value when its trimmed text parses, and 0 otherwise |
| Parser.NumericWords | Assembler/src/parser.rs:212-216 | one word per comma item, the item's value as `u16` |
| Parser.StringWords | Assembler/src/parser.rs:204-209 | a string's words end with the terminating 0 |
| Parser.DataLine | Assembler/src/parser.rs:202-231 | covers every case of `parsed_data`: <br>• a string line gives the bytes of its unescaped characters and a 0; <br>• a digit line gives the bytes of its items; <br>• anything else is Unrecognized, if and only if |
| Parser.ParsedData | Assembler/src/parser.rs:202-231 | `parsed_data` as written, through ReplaceControlAscii and the byte loop, equals DataLine wherever it does not panic |
| Parser.PushWords | Assembler/src/parser.rs:223-228 | the loop pushes exactly WordsToBytes of the words |
| Parser.EmptyStringData | Assembler/src/parser.rs:204-207 | the line `""` hands ReplaceControlAscii an empty vector, so `parse_line` panics on it (it is not ParseLineOk); the intended reading gives the single word 0 |
| Parser.NumericDataLine | Assembler/src/parser.rs:202-231 | a printed list of `i16` values (the first non-negative) parses back to exactly those values, msb first |
| Parser.StringDataLine | Assembler/src/parser.rs:202-231 | a non-empty quoted ASCII string without backslashes is one word per character plus 0 |
| Parser.ParseLineKinds | Assembler/src/parser.rs:129-152 | NonRelevant if and only if the trimmed line is empty or a comment; then, in this order, section, data, label, instruction |
| Parser.ParseLineDispatch | Assembler/src/parser.rs:129-152 | which sub-parser each kind of trimmed line is handed to |
| Parser.LabelLine | Assembler/src/parser.rs:129-152 | a well-formed `name:` line parses to Label(name) |
| Parser.InstructionLine | Assembler/src/parser.rs:129-152 | a line of space-separated tokens parses to its lower-cased mnemonic and those arguments |
| Parser.BeforeComment | Assembler/src/parser.rs:158-163 | the longest prefix without a `//` argument; the next argument, if any, starts with `//` |
| Text.BlankIsTrimEmpty | Assembler/src/parser.rs:164 | an argument is blank, all whitespace, exactly when its trim is empty |
| Parser.NonBlankKeeps | Assembler/src/parser.rs:164 | every kept argument is a non-blank argument, and every non-blank argument is kept |
| Parser.NonBlankAppend | Assembler/src/parser.rs:164 | the filter distributes over concatenation, so the kept arguments stay in order, once per occurrence |
| Parser.TrimComments | Assembler/src/parser.rs:156-166 | the truncating loop and the filter give NonBlank(BeforeComment(args)) |
| Parser.Pass1Prefix | Assembler/src/parser.rs:32-54 | the address counter after k lines is the number of instruction lines plus half the data bytes before line k |
| Parser.Pass1Layout | Assembler/src/parser.rs:44 | the section bounds after k lines are those the directives before line k give |
| Parser.Pass1Stops | Assembler/src/parser.rs:35-52 | once the first pass fails it stays failed with the same error |
| Parser.LabelAddresses | Assembler/src/parser.rs:25-61 | each label line maps its name to the words before it, every label comes from a label line, and the bounds are CheckLayout of the directives |
| Parser.RepeatedLabelFails | Assembler/src/parser.rs:37-42 | the same label on two lines makes the first pass fail |
| Parser.Pass1SectionsAdjacent | Assembler/src/parser.rs:25-61 | a successful first pass with both ranges yields adjacent ranges |
| Parser.RecordLine | Assembler/src/parser.rs:35-52 | one line updates the table and the address as the first pass's step says, with its error |
| Parser.RecordLineAt | Assembler/src/parser.rs:33-53 | one turn of the loop takes the first pass from line i to line i + 1 |
| Parser.RecordLines | Assembler/src/parser.rs:28-54 | the loop over all lines fills the table as the first pass does, and stops at its first error |
| Parser.ParseSymbols | Assembler/src/parser.rs:25-61 | succeeds exactly when the first pass does, with its labels and closed bounds; otherwise gives its error |
| Parser.Pass2Stops | Assembler/src/parser.rs:80-120 | after an error the second pass writes nothing more |
| Parser.Pass2Grows | Assembler/src/parser.rs:80-120 | what is written before line i is a prefix of the whole output |
| Parser.DataInCodeFails | Assembler/src/parser.rs:101 | data in the code range makes the second pass fail |
| Parser.InstructionInDataFails | Assembler/src/parser.rs:114-116 | an instruction in the data range makes the second pass fail |
| Parser.UnknownMnemonicFails | Assembler/src/parser.rs:90-98 | an unknown mnemonic in the code range makes the second pass fail |
| Parser.Pass2Length | Assembler/src/parser.rs:84-119 | when every line is placed, the data is whole words and nothing failed, the output is two bytes per word counted by pass 1 |
| Parser.FileDataEven | Assembler/src/parser.rs:223-228 | every data line of a file holds an even number of bytes |
| Parser.LabelsMatchImage | Assembler/src/parser.rs:25-123 | when both passes succeed on placed lines, each label's address times two is the number of bytes written before it |
| Parser.AssembleCode | Assembler/src/parser.rs:87-103 | a code-range line: encoded through the mnemonic table after TrimComments; data is SectionMismatch; an unknown mnemonic is Unrecognized |
| Parser.AssembleLine | Assembler/src/parser.rs:84-119 | one line is assembled by the code rule inside the code range, the data rule inside the data range, and emits nothing elsewhere |
| Parser.AssembleLineAt | Assembler/src/parser.rs:80-120 | one turn of the loop takes the second pass from line i to line i + 1 |
| Parser.AssembleProgram | Assembler/src/parser.rs:66-123 | the loop writes exactly the second pass's output; its result is the error that stopped the pass, if any |
| RegisterFile.Position | Emulator/src/registers.rs:32-33 | each flag's bit is below 4 |
| RegisterFile.ApplyFlagBit | Emulator/src/registers.rs:38-45 | one entry: `X(false)` sets X's bit, `X(true)` clears it, no other bit changes |
| RegisterFile.ApplyFlagsBit | Emulator/src/registers.rs:34-48 | after a list, each bit is what the last entry for it says, or as before when there is none |
| RegisterFile.NoEntryKeepsBit | Emulator/src/registers.rs:34-48 | a bit no entry names keeps its value |
| RegisterFile.ApplyFlagsHighBits | Emulator/src/registers.rs:32-33 | bits 7..4 never change |
| RegisterFile.ApplyFlagsIdempotent | Emulator/src/registers.rs:34-48 | applying a flag list twice is applying it once |
| RegisterFile.Registers.constructor | Emulator/src/registers.rs:24-30 | gp, pc, acc, ir, mar and flags are all zero |
| RegisterFile.Registers.ChangeFlags | Emulator/src/registers.rs:34-48 | the loop leaves ApplyFlags of the old byte and the list; no other register changes |
| Instructions.OpcodeNumber | Emulator/src/instructions.rs:9-33 | every opcode's number is below 23 |
| Instructions.OpcodeOf | Emulator/src/instructions.rs:9-33 | a number names an opcode exactly when it is below 23 |
| Instructions.OpcodeNumbering | Emulator/src/instructions.rs:9-33 | number and opcode are inverse both ways |
| Instructions.Field | Emulator/src/instructions.rs:341-355 | a field of `size` bits is below 2^size |
| Instructions.MaskStep | Emulator/src/instructions.rs:346-349 | each turn of the mask loop adds one low one-bit |
| Instructions.MaskFits | Emulator/src/instructions.rs:350 | the shifted mask fits in 16 bits |
| Instructions.ExtractBits | Emulator/src/instructions.rs:341-355 | the loop and mask give `(num >> (16 - off - size)) mod 2^size`; size 0 behaves as size 1 |
| Instructions.ExtractTail | Emulator/src/instructions.rs:350-354 | masking with k shifted one-bits and shifting back is `(num >> lo) mod 2^k` |
| Instructions.RegAt | Emulator/src/instructions.rs:119-121 | a 3-bit register field is a valid register index |
| Instructions.Reg0 | Emulator/src/instructions.rs:43 | field 0 (bits 10..8) is a valid register index |
| Instructions.Reg1 | Emulator/src/instructions.rs:44 | field 1 (bits 7..5) is a valid register index |
| Instructions.Reg2 | Emulator/src/instructions.rs:45 | field 2 (bits 4..2) is a valid register index |
| Instructions.FieldRanges | Emulator/src/instructions.rs:41-57 | the widths of label, offset, count, and the mov, math and shift constants |
| Instructions.AddFlagsMeaning | Emulator/src/instructions.rs:148-161 | OV and CA are true exactly on overflow; zero gives ZR and not NG; negative gives NG and not ZR; other bits kept |
| Instructions.SubFlagsMeaning | Emulator/src/instructions.rs:192-209 | OV exactly on overflow; otherwise CA if and only if at least 0, ZR if and only if 0, NG if and only if negative; overflow keeps the others |
| Instructions.LogicFlagsMeaning | Emulator/src/instructions.rs:244-252 | OV and CA false; zero gives ZR and not NG; negative gives NG and not ZR; positive keeps ZR and NG |
| Execute.ListedReg | Emulator/src/instructions.rs:119-121 | the i-th register of push/pop is a valid index |
| Execute.PushEffect | Emulator/src/instructions.rs:115-126 | SP goes down by n, the i-th listed register lands at SP-1-i (a listed SP as it stands after that round's decrement, SP-1-i), every other cell and register is unchanged |
| Execute.PopEffect | Emulator/src/instructions.rs:129-140 | the i-th listed register gets the word at SP+i, SP goes up by n, memory and the other registers are unchanged |
| Execute.PushThenPop | Emulator/src/instructions.rs:115-140 | popping the pushed registers in reverse order restores every register, SP included |
| Execute.AddIntoEffect | Emulator/src/instructions.rs:143-184 | without overflow dst = a + b; with it no register changes; only dst and flags can change; OV = CA = overflow |
| Execute.SubIntoCompares | Emulator/src/instructions.rs:187-236 | without overflow dst = a - b and CA, ZR, NG say a >= b, a == b, a < b; OV exactly on overflow |
| Execute.LogicIntoEffect | Emulator/src/instructions.rs:239-320 | dst = v, nothing else but flags changes; OV, CA false; zero and negative results set ZR and NG as the source does |
| Execute.MoveEffects | Emulator/src/instructions.rs:71-82 | `mov_im` writes the zero-extended byte, `mov_rg` the source register, into dst only; `bal` changes only pc, to the 11-bit label |
| Execute.StoreEffects | Emulator/src/instructions.rs:100-112 | `store`/`store_rg` write one cell (the register, as `u16`) and keep every other |
| Execute.LoadAfterStore | Emulator/src/instructions.rs:85-112 | a load from the address just stored to gives the registers back unchanged, for `load`/`store` and for `load_rg`/`store_rg` with any register, mbr included |
| Execute.MovIm | Emulator/src/instructions.rs:71-75 | the registers become MovImOf of the old ones |
| Execute.MovRg | Emulator/src/instructions.rs:78-82 | the registers become MovRgOf of the old ones |
| Execute.Load | Emulator/src/instructions.rs:85-88 | gp[7] becomes the word at the label, as `i16` |
| Execute.LoadRg | Emulator/src/instructions.rs:92-97 | dst becomes the word at register-field + offset (the index, not the contents) |
| Execute.Store | Emulator/src/instructions.rs:100-103 | memory becomes StoreOf: gp[7] written at the label |
| Execute.StoreRg | Emulator/src/instructions.rs:107-112 | memory becomes StoreRgOf: the source register written at register-field + offset |
| Execute.PushRound | Emulator/src/instructions.rs:119-124 | one round: SP decremented, listed register written at the new top |
| Execute.Push | Emulator/src/instructions.rs:115-126 | registers and memory become PushSteps of the old ones for the 2-bit count |
| Execute.PopRound | Emulator/src/instructions.rs:133-138 | one round: listed register read from SP, SP incremented |
| Execute.Pop | Emulator/src/instructions.rs:129-140 | registers become PopSteps of the old ones for the 2-bit count |
| Execute.AddResult | Emulator/src/instructions.rs:148-161 | the `checked_add` match: the sum and add's flags, or only the overflow flags |
| Execute.SubResult | Emulator/src/instructions.rs:192-209 | the `checked_sub` match: the difference and sub's flags, or only OV |
| Execute.LogicResult | Emulator/src/instructions.rs:244-252 | the result into dst, then the zero/negative flags, then OV and CA false |
| Execute.AddIm | Emulator/src/instructions.rs:143-162 | the registers become AddImOf of the old ones (register A plus the 5-bit constant) |
| Execute.AddRg | Emulator/src/instructions.rs:165-184 | the registers become AddRgOf of the old ones |
| Execute.SubIm | Emulator/src/instructions.rs:187-210 | the registers become SubImOf of the old ones |
| Execute.SubRg | Emulator/src/instructions.rs:213-236 | the registers become SubRgOf of the old ones |
| Execute.ShiftL | Emulator/src/instructions.rs:239-253 | the registers become ShiftLOf of the old ones (`i16 <<` by the 4-bit constant, wrapping) |
| Execute.ShiftR | Emulator/src/instructions.rs:256-270 | the registers become ShiftROf of the old ones (arithmetic shift right) |
| Execute.And | Emulator/src/instructions.rs:273-287 | the registers become AndOf of the old ones |
| Execute.Or | Emulator/src/instructions.rs:290-304 | the registers become OrOf of the old ones |
| Execute.Not | Emulator/src/instructions.rs:307-320 | the registers become NotOf of the old ones |
| Execute.Bal | Emulator/src/instructions.rs:323-326 | pc becomes the 11-bit label, nothing else changes |
| CpuCycle.Fetch | Emulator/src/cpu_cycle.rs:8-10 | the word at pc, which is one of the RAM's words; requires pc < \|ram\|, since the `Vec` index panics otherwise |
| CpuCycle.Decode | Emulator/src/cpu_cycle.rs:14-19 | `ir >> 11` is below 32 and is the 5-bit field at bits 15..11 |
| CpuCycle.ControlOfOpcodes | Emulator/src/cpu_cycle.rs:23-67 | Break if and only if Halt; Continue if and only if one of the five branches; None otherwise; failure if and only if no opcode |
| CpuCycle.Exec | Emulator/src/cpu_cycle.rs:23-67 | the control result is ControlOf(opcode); opcodes 0..17 change state as their instruction does; others change nothing |
| EmulatorMain.FromBeBytes | Emulator/src/main.rs:47 | the word's high byte is msb and its low byte lsb |
| EmulatorMain.Words | Emulator/src/main.rs:44-49 | half as many words as bytes |
| EmulatorMain.WordsAt | Emulator/src/main.rs:47 | word k is `bytes[2k] * 256 + bytes[2k+1]` |
| EmulatorMain.LoadProgram | Emulator/src/main.rs:36-50 | the loop appends exactly Words(bytes) to the buffer |
| EmulatorMain.LoadedWord | Emulator/src/main.rs:44-49 | old words are kept, the length grows by half the bytes, and word k lands at `|buf| + k` |
| EmulatorMain.MainDecodeZero | Emulator/src/main.rs:56-61 | this file's `decode`, as written, is 0 for every word |
| EmulatorMain.MainDecodeDisagrees | Emulator/src/main.rs:56-61 | on a `halt` word it gives 0 where `cpu_cycle::decode` gives 22 |
| Toolchain.FieldOf | Emulator/src/instructions.rs:341-355 | a field placed between a high part and a low part is read back by extraction |
| Toolchain.DecodeT1 | Assembler/src/encoder.rs:59-62 | decoding a T1 word recovers opcode, register and 8-bit constant |
| Toolchain.DecodeT2 | Assembler/src/encoder.rs:63-69 | decoding a T2 word recovers opcode, both registers and the 5-bit field (as offset and as constant) |
| Toolchain.DecodeT3 | Assembler/src/encoder.rs:70-75 | decoding a T3 word recovers opcode and 11-bit label |
| Toolchain.RegisterAliases | Assembler/src/encoder.rs:46-48 | `sp` and `mbr` are the emulator's SP_PTR and MBR_PTR, both valid indices |
| Toolchain.LoadSplitWords | Emulator/src/main.rs:44-49 | joining the data parser's msb/lsb split gives back the words |
| Toolchain.FetchAssembled | Emulator/src/cpu_cycle.rs:8-10 | fetching pc from the loaded image of an assembled program gives the pc-th word the assembler wrote |
| Toolchain.LoadEncoded | Emulator/src/main.rs:47 | an encoded instruction loads as its one word |
| Toolchain.MovImmediateRuns | Assembler/src/encoder.rs:124-128 | `mov dst, #v` decodes as opcode 0 and runs as dst := v (v + 256 for negative v, since the byte is zero-extended) |
| Toolchain.MovRegisterRuns | Assembler/src/encoder.rs:129-133 | `mov dst, src` decodes as opcode 1 and runs as dst := src |

## Left out

- File I/O:
  - Opening, reading and writing files in `parse_symbols`, `assemble_program` and `load_program` are not modelled.
  - The passes take the file's lines as a sequence of strings, and the loader takes the file's bytes.
  - `assemble_program`'s output file is the sequence of bytes it would write.
- Other source files. They are console output, argument parsing and hard-coded drivers:
  - the coloured messages of `error_handler` (Assembler/src/err_handler.rs);
  - Emulator/src/cli.rs;
  - the driver Assembler/src/main.rs.
- The emulator's `main` loop (Emulator/src/main.rs:17-34) prints and exits on the literal opcode 23 rather than `Halt` (22). It is a debugging stub and is not modelled. Its `fetch` (52-54) is the same expression as `CpuCycle.Fetch`.
- `CpuCycle.Exec`:
  - The dispatch in `cpu_cycle.rs` names variants and functions that do not exist or have no body (`Jmp`, `Bln`, `Ret`, `CmpIm`, `CmpRg`, `Beq`, …).
  - Its `load` call passes no memory.
  - The model classifies by the opcode numbering instead and runs `load` with the memory.
  - BZR, BNG, BLN and RET have no body (the `bzr` at Emulator/src/instructions.rs:329-333 is commented out), so they change nothing in the model.
- `Encoder.Encode`:
  - The source writes `op << 11` and `r << 8` on `u8` values (Assembler/src/encoder.rs:61,66,71,80,88). Both shift amounts reach or exceed the width of `u8`, so the code as written does not give the layout's word. This includes T3 (line 71), where `op` is shifted before its cast to `u16`.
  - The model does not capture what such a shift yields. It encodes the intended 16-bit word `op << 11 | rp0 << 8 | low`, or `op << 11 | f2` for T3, split into `[msb, lsb]`.
  - T4 and T5 are encoded as written. No round trip is claimed for them; see the two Shifted lemmas.
- `Encoder.Mov`:
  - The source's `error_handler` calls print and carry on with 0 bytes.
  - The model returns the first error as a failure, because the parser applies `?` to the callback's result.
  - The callback type in encoder.rs takes two arguments and returns bytes, while parser.rs calls it with three and applies `?`. The model follows the parser's view: `Call` returns a `Result`.
- `Parser.Pass1Prefix`:
  - The source's label address is a `u16` that would wrap past 65535 words, and the model's address is unbounded.
  - Line numbers are `usize` and likewise unbounded.
- `Parser.Pass2Length` and `Parser.LabelsMatchImage` require that every instruction and data line lies inside a section range.
  - Pass 2 skips lines outside both ranges, such as lines before the first directive. Pass 1 counts them anyway, so without this hypothesis the label addresses and the image can disagree.
- `Parser.ParsedLabel` requires that the last character of a label line be one byte. The Rust byte slice `line[0..len-1]` panics otherwise.
- `Parser.ParseSymbols`, `Parser.RecordLines` and `Parser.RecordLineAt` require `LinesOk` of the whole file, but the source's first pass stops at its first error and never parses the lines after it. So files whose first error comes before a line that would panic are not covered. An example is `[".section foo", "\"\""]`, on which the source returns WrongSection from line 0. `Parser.AssembleProgram` has the same requires; the program's entry point runs it only after the first pass has succeeded, which parses every line without a panic.
- `Parser.ReplaceControlAscii` requires a non-empty vector, because `vec_len - 1` on an empty one underflows. See Findings.
- Strings:
  - Strings are sequences of characters. A string's bytes are its UTF-8 encoding, as `as_bytes` gives.
  - `to_lowercase` is modelled on ASCII only, which is what an ASCII mnemonic needs.
- `RegisterFile.Position`:
  - `Flags::NG as u8` in `change_flags` casts a variant that carries data, which Rust does not allow.
  - The bit positions are those of the layout comment at Emulator/src/registers.rs:32-33.
- Memory and registers:
  - The emulator's memory is a `Vec<u16>`; the model uses a fixed-length array, since no instruction changes its length.
  - The general-purpose registers are an array inside the `Registers` object. No aliasing between registers and memory arises.
- `Execute.Push` and `Execute.Pop` require that no round panics:
  - the new SP is negative or outside memory;
  - SP overflows `i16`.
  - `push` and `pop` with SP among the listed registers are modelled as written. `Execute.PushEffect` covers a listed SP: it is pushed as it stands after its round's decrement.
  - `Execute.PopEffect` requires that SP is not listed and that the listed registers are distinct (`ListedDistinct`), since a popped SP or a repeated register is overwritten by a later round. `Execute.PushThenPop` requires the same of the push list.
- Execute: `checked_add` and `checked_sub` are exact. `<<` on `i16` by the 4-bit constant, which is less than 16, drops the high bits in every build. The only arithmetic that can overflow is SP plus or minus 1, which `Execute.Push` and `Execute.Pop` take as a requires.
- Concurrency and floating point do not occur.

## Findings

| source | as written | input that shows it | evidently intended | confidence | as-written member | corrected member |
|---|---|---|---|---|---|---|
| Emulator/src/main.rs:56-61 | `decode` returns `(ir_reg << 11) as u8`, which keeps only bits that the shift has cleared | the `halt` word `22 << 11` (0xB000) decodes to 0, not 22; every word decodes to 0 | `ir_reg >> 11`, the 5-bit opcode, as its comment and `cpu_cycle::decode` say | high; not executed | EmulatorMain.MainDecodeDisagrees | CpuCycle.Decode |
| Assembler/src/parser.rs:185-207 | `parsed_data` hands `replace_control_ascii` the bytes between the quotes, and that loop tests `i < vec_len - 1` on a `usize` | the data line `""` gives an empty vector, so `0 - 1` underflows; a release build wraps it and then indexes the empty vector, so it panics in every build | an empty string is the single terminating word 0 | medium; not executed | Parser.EmptyStringData | Parser.DataLine |
