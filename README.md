# A 16-bit stack machine and its assembler, modelled in Dafny

The system is a small virtual machine with eight 16-bit registers
(A, B, C, M, Sp, Pc, Bp, Flags) and a byte-addressed memory, together with
an assembler that turns a text program, one instruction per line, into a
little-endian byte image. This project models:

- the register ids and their decoder (`src/register.rs`), module `Registers`;
- the instruction set: opcode bytes, mnemonics and the 16-bit packing
  `encode_u16` (`src/op.rs`), module `Ops`;
- the execution engine (`src/vm.rs`), module `Vm`. It has its own `Op`
  type, the decoder `parse_instruction`, and the machine. The machine's
  `new`, `push`, `pop` and `step` are given twice. First, each is a
  function on a `State` value (`Initial`, `PushSpec`, `PopSpec`, and
  `ExecuteSpec` with `StepSpec`). Second, the class `Machine` updates a
  register array and the memory in place, and its methods are proved to
  follow those functions. `get_register` has no function of its own: it
  reads the register array, and `Machine.GetRegister` returns that entry;
- the assembler (`src/bin/asm.rs`), module `Asm`. It covers
  `parse_numeric`, `parse_register`, `assert_length` and `handle_line`.
  The per-line loop of `main` appears both as the function `Assemble` over
  the sequence of lines and as the method `AssembleProgram`, which
  keeps the source's loop;
- Rust's `u8::from_str_radix`, on which `parse_numeric` relies, in module
  `Radix`;
- the bit operations the source uses (`&`, `|`, `<<`, `>>`, `as u8`, u16
  wrap-around), in module `Bits`;
- the memory the engine owns, in module `Memory`. Its implementation is
  not part of this model. What the engine relies on is taken as an
  assumption:
  - it is a fixed 8192-byte store;
  - `read2` and `write2` succeed exactly when `addr + 1 < 8192`;
  - words are little-endian;
  - a write changes both bytes or neither;
- how the assembler's encoding and the engine's decoder meet, in module
  `Interop`.

Integers are unbounded in Dafny. `u8` and `u16` are subset types. The
source's unchecked `u16` arithmetic (`pc + 2`, `Sp - 2`, `Sp += 2`, `a + b`,
`+=`) wraps modulo 2^16, as in a release build.

Where the system's documentation and the code disagree, the model follows
the code:

- **Opcode numbering.** The engine compares the low byte of a word with the
  implicit discriminants of its own `Op` enum: Nop 0, Push 1,
  PopRegister 2, AddStack 3, AddRegister 4. The `OpCode` bytes the
  assembler emits are different: AddStack is 0x10 and AddRegister 0x11.
  `Interop.DecodeEncoded` gives what the engine makes of every encoded
  instruction.
- **Register fields.** The layout comment in `src/vm.rs` puts register ids
  in bits 8-11 and 12-15. `encode_r1` and `encode_r2` mask the ordinal
  with `0xf << 8` and `0xf << 12` instead of shifting it. So the register
  fields are always zero (`Ops.EncodeR1`, `Ops.EncodeEqualIff`).
- **The sample program.** The program "Push $05 / Push $03 / AddStack /
  PopRegister A" is documented as leaving 8 in A. It assembles to
  `01 05 01 03 10 00 02 00`. Run from address 0 with Sp at 0x1000, the
  engine pushes 5 and 3. It then stops with an unknown operation 0x10,
  with Pc at 6, so A is never written (`Interop.AssembleSource`,
  `Interop.SourceStopsAtAddStack`).

## Model

| member | source | states |
|---|---|---|
| Registers.Ordinal | src/register.rs:3-12 | a register's discriminant is its declaration position and is below 8, so it fits the 4-bit register field |
| Registers.FromU8 | src/register.rs:15-27 | `from_u8(v)` is Some exactly when v < 8, and then the register's discriminant is v |
| Registers.FromU8Ordinal | src/register.rs:15-27 | decoding a register's discriminant gives that register back |
| Registers.FromU8Order | src/register.rs:3-27 | ids 0..7 decode to A, B, C, M, Sp, Pc, Bp, Flags in that order |
| Registers.OrdinalInjective | src/register.rs:3-12 | two registers have the same discriminant if and only if they are the same register |
| Ops.FromString | src/op.rs:63-76 | a parsed mnemonic is the opcode's exact, case-sensitive name; None exactly when no opcode has that name |
| Ops.FromU8 | src/op.rs:78-91 | Some exactly for the nine bytes 0x00, 0x01, 0x02, 0x03, 0x07, 0x08, 0x0F, 0x10, 0x11, and then the opcode's byte is the input |
| Ops.ByteInjective | src/op.rs:48-60 | `Byte`, the `as u8` cast, gives distinct opcodes distinct bytes |
| Ops.OpCodeRoundTrips | src/op.rs:50-91 | every opcode's byte decodes to it and its mnemonic parses to it |
| Ops.EncodeR1 | src/op.rs:17-19 | the register field is always 0: the ordinal is masked with 0x0F00 instead of shifted |
| Ops.EncodeR2 | src/op.rs:21-23 | likewise always 0 with the mask 0xF000 |
| Ops.NoHighBits | src/op.rs:17-23 | the masks are 0x0F00 and 0xF000, and no ordinal below 8 shares a bit with either |
| Ops.EncodeNum | src/op.rs:25-27 | `num << 8` has a zero low byte and the operand's low byte as its high byte |
| Ops.EncodeRs | src/op.rs:29-31 | the combined register fields are always 0 |
| Ops.WithZeroField | src/op.rs:38-42 | OR-ing the opcode with a zero field gives the bare opcode byte |
| Ops.RegisterWord | src/op.rs:38-42 | the words of JmpReg, PopRegister, PushRegister and AddRegister are the bare opcode byte, whatever the registers |
| Ops.WithImmediate | src/op.rs:36-43 | OR-ing the opcode with a shifted immediate puts the opcode in the low byte and the immediate in the high byte |
| Ops.EncodeU16 | src/op.rs:33-45 | the word is the opcode byte plus 256 times the immediate; the immediate is that of Push and Signal and 0 for every other instruction, whatever its registers |
| Ops.EncodeU16Bytes | src/op.rs:33-45 | the low byte of the word is the opcode byte and the high byte the immediate |
| Ops.EncodedOpCodeDecodes | src/op.rs:33-91 | `OpCode::from_u8` on the low byte of any encoded word gives the instruction's opcode |
| Ops.EncodeEqualIff | src/op.rs:17-45 | two instructions encode to the same word if and only if they have the same opcode and, for Push and Signal, the same immediate; register operands are lost |
| Bits.AndLowByte | src/bin/asm.rs:110 | `raw & 0xff` is `raw mod 256` |
| Bits.ShrDiv | src/bin/asm.rs:111 | `a >> n` is `a / 2^n` |
| Bits.AndHighByte | src/vm.rs:58 | `(ins & 0xff00) >> 8` is the high byte of the word |
| Bits.AndHighNibble | src/vm.rs:63 | `(ins & 0xf00) >> 8` is bits 8-11 of the word |
| Bits.OrHighByte | src/op.rs:36 | `lo \| (hi << 8)` is `lo + 256 * hi` for bytes lo and hi |
| Bits.WrappingAdd | src/vm.rs:136 | a u16 sum that does not overflow is the plain sum; one that overflows is the sum less 65536 |
| Bits.WrappingSub | src/vm.rs:100 | a u16 difference is the plain difference, plus 2^16 when it would be negative |
| Memory.Word | src/vm.rs:101 | the little-endian word built from two bytes has them as its low and high byte |
| Memory.ReadWord | src/vm.rs:101 | `read2` succeeds exactly when addr + 1 is in range, and gives the little-endian word at addr |
| Memory.WriteWord | src/vm.rs:111 | `write2` succeeds exactly when addr + 1 is in range; it then writes the low byte at addr and the high byte at addr + 1, keeps the length, and changes no other byte |
| Memory.ReadAfterWrite | src/vm.rs:101-111 | reading a word just written gives that word |
| Memory.ReadOtherAfterWrite | src/vm.rs:101-111 | a write leaves every non-overlapping word unchanged |
| Memory.LinearMemory.constructor | src/vm.rs:91 | a fresh zero-filled store of the requested size |
| Memory.LinearMemory.Read2 | src/vm.rs:101 | the array read agrees with `ReadWord` on the array's contents |
| Memory.LinearMemory.Write2 | src/vm.rs:111 | the in-place write succeeds exactly when addr + 1 is in range and then agrees with `WriteWord`; on failure nothing changes |
| Radix.DigitValue | src/bin/asm.rs:31 | a digit's value is below the radix, and only ASCII digits and letters are digits |
| Radix.DigitValueTable | src/bin/asm.rs:31 | the characters read as digit d below the radix are exactly d's lower-case character and its upper-case form |
| Radix.FromStrRadix | src/bin/asm.rs:31 | empty input fails, and so does a lone '+'; a result is the value of the non-empty digits after an optional '+'; every numeral of such digits below 256 is accepted |
| Radix.DigitsRoundTrip | src/bin/asm.rs:31 | reading back a number written in any radix 2..36 gives the number |
| Radix.LeadingZero | src/bin/asm.rs:31 | a leading zero does not change a numeral's value |
| Radix.DigitsValueUpper | src/bin/asm.rs:31 | letter digits are read regardless of case |
| Asm.ParseNumeric | src/bin/asm.rs:21-32 | the empty token is ParseErr, and every failure is ParseErr |
| Asm.ParseNumericRoundTrip | src/bin/asm.rs:21-32 | every byte written in decimal, in hexadecimal after '$' or in binary after '%' parses back to itself |
| Asm.ParseNumericPrefix | src/bin/asm.rs:25-31 | '$' selects radix 16 and '%' radix 2 for the rest of the token |
| Asm.ParseNumericDecimal | src/bin/asm.rs:29-31 | a token that starts with neither '$' nor '%' is read whole in radix 10: Ok with its value, or ParseErr |
| Asm.ParseNumericPlusDecimal | src/bin/asm.rs:29-31 | a '+' before decimal digits is accepted |
| Asm.ParseNumericPlusHex | src/bin/asm.rs:27-31 | a '+' after the '$' prefix is accepted |
| Asm.ParseNumericLeadingZero | src/bin/asm.rs:29-31 | a leading zero before decimal digits is accepted |
| Asm.ParseNumericHexCase | src/bin/asm.rs:27-31 | after '$', upper- and lower-case letters give the same result |
| Asm.ParseNumericRejectsEmpty | src/bin/asm.rs:21-31 | "", "+" and "$" are ParseErr |
| Asm.ParseNumericRejectsDigits | src/bin/asm.rs:26-31 | a minus sign and a digit outside the radix ("-1", "%2", and "12a" since an unprefixed token is decimal) are ParseErr |
| Asm.ParseNumericRejectsOverflow | src/bin/asm.rs:26-31 | values above 255 ("256", "$100") are ParseErr |
| Asm.ParseRegister | src/bin/asm.rs:34-39 | Ok exactly for "A", giving register A; UnknownReg otherwise |
| Asm.AssertLength | src/bin/asm.rs:41-47 | Ok exactly when the token count is n, LenErr otherwise |
| Asm.HandleLine | src/bin/asm.rs:49-81 | an unknown mnemonic, JmpReg and JmpImm give UnknownOpCode. Nop is accepted with any token count. A wrong count for the other opcodes gives LenErr before any operand is parsed. A result carries the line's opcode and only register A, and its immediate is the parsed second token. With the right count, AddStack succeeds; Push and Signal succeed exactly when the operand parses and otherwise give ParseErr; PopRegister, PushRegister and AddRegister succeed exactly when every operand is "A" and otherwise give UnknownReg |
| Asm.HandleLineRender | src/bin/asm.rs:49-81 | an instruction is read back from its own rendering if and only if it is not a jump and all its registers are A |
| Asm.Split | src/bin/asm.rs:102 | `split(' ')` yields at least one piece, no piece holds a space, and joining the pieces with single spaces gives the line back |
| Asm.SplitJoin | src/bin/asm.rs:102 | splitting a join of space-free pieces gives the pieces back |
| Asm.Tokens | src/bin/asm.rs:102 | every token is non-empty and free of spaces |
| Asm.TokensOfJoin | src/bin/asm.rs:102 | tokens joined with single spaces are read back exactly |
| Asm.NonEmpty | src/bin/asm.rs:102 | filtering keeps every non-empty piece and nothing else |
| Asm.NonEmptyAppend | src/bin/asm.rs:102 | filtering a concatenation filters each part |
| Asm.SplitAtSpace | src/bin/asm.rs:102 | splitting at a space splits each side independently |
| Asm.TokensAtSpace | src/bin/asm.rs:102 | the tokens of two texts joined by a space are the tokens of each |
| Asm.TokensOfWord | src/bin/asm.rs:102 | a space-free word is its own single token, and the empty word has none |
| Asm.TokensOfSpaces | src/bin/asm.rs:102 | a run of spaces has no tokens, and spaces before or after a text do not change its tokens |
| Asm.TokensSpaced | src/bin/asm.rs:102 | two words with any runs of spaces before, between (at least one) and after them are read as exactly those two tokens |
| Asm.AssembleLine | src/bin/asm.rs:96-111 | an empty line, a line starting with ';' or a line of spaces gives no bytes. Any other line gives handle_line's error, or exactly two bytes that form the instruction's encoded word |
| Asm.WordBytes | src/bin/asm.rs:109-111 | the two bytes pushed form the word, low byte first |
| Asm.SpacesSkipped | src/bin/asm.rs:96-106 | a non-empty line of spaces gives no bytes and no error |
| Asm.Assemble | src/bin/asm.rs:93-112 | a failed run's error is the error of one of its lines |
| Asm.AssembleOk | src/bin/asm.rs:93-112 | assembly succeeds exactly when every line does |
| Asm.AssembleLength | src/bin/asm.rs:108-111 | a successful run writes exactly two bytes per instruction line |
| Asm.AssembleEach | src/bin/asm.rs:93-112 | when every line assembles on its own, the program assembles to their bytes in line order |
| Asm.AssembleFirstError | src/bin/asm.rs:108 | the run ends with the error of the first failing line |
| Asm.AssembleExtend | src/bin/asm.rs:93-112 | each further line appends its bytes, or its error ends the run |
| Asm.AssembleProgram | src/bin/asm.rs:91-112 | the loop that appends to `output` computes `Assemble` of the lines |
| Asm.UnknownMnemonicLine | src/bin/asm.rs:50 | a line whose first token is not a mnemonic fails with UnknownOpCode |
| Asm.IndentedComment | src/bin/asm.rs:99-101 | a ';' after a leading space is not a comment: the line fails with UnknownOpCode |
| Asm.TabIsNotSeparator | src/bin/asm.rs:102 | a tab does not separate tokens: "Push\t5" fails with UnknownOpCode |
| Vm.Value | src/vm.rs:33-45 | `Op::value` is the implicit discriminant, 0..4 |
| Vm.ParseInstruction | src/vm.rs:52-74 | decoding succeeds exactly for low bytes 0-3, and for 2 only with a register field below 8. Push takes the high byte and PopRegister the register of bits 8-11. Low byte 2 with a bad field is UnknownReg; low bytes from 4 up, AddRegister's included, are UnknownOp |
| Vm.ParseLayoutWord | src/vm.rs:47-74 | the decoder inverts the documented word layout for every operation except AddRegister, which is UnknownOp(4) |
| Vm.PopRegisterField | src/vm.rs:62-69 | for PopRegister, field values 0..7 name the registers in order and 8..15 are UnknownReg |
| Vm.PopRegisterIgnoresTop | src/vm.rs:62-69 | for PopRegister, bits 12-15 take no part in decoding |
| Vm.Initial | src/vm.rs:88-93 | the new machine has every register zero |
| Vm.PushSpec | src/vm.rs:109-116 | `push` succeeds exactly when Sp + 1 is in range. It then writes v at Sp, changes only Sp, and moves Sp up by 2. A failure is a write fault at Sp and leaves the state unchanged |
| Vm.PopSpec | src/vm.rs:99-107 | `pop` succeeds exactly when 2 <= Sp <= 8192. It then returns the word at Sp - 2, moves Sp down by 2 and leaves memory alone. A failure is a read fault at the wrapped Sp - 2 and leaves the state unchanged |
| Vm.ExecuteSpec | src/vm.rs:125-142 | Nop changes nothing. Only Push and AddStack touch memory. No register changes besides PopRegister's target, AddRegister's r1, and Sp for Push, PopRegister and AddStack only. AddRegister adds r2 into r1 with wrap-around. Push is `push`. PopRegister succeeds exactly when `pop` does, and a failed pop is returned with the state unchanged. AddStack succeeds exactly when 4 <= Sp <= 8192; a failed first pop leaves the state unchanged, and a failed second pop leaves the first pop done |
| Vm.StepSpec | src/vm.rs:118-143 | a decoded operation is executed by `ExecuteSpec` on the state with Pc advanced by 2, and a decode error is returned with Pc already advanced by 2. Unless the operation is a PopRegister into Pc, Pc ends advanced by 2 |
| Vm.PushThenPop | src/vm.rs:99-116 | a successful push followed by a pop returns the pushed word and restores every register |
| Vm.PopAll | src/vm.rs:99-107 | a run of pops leaves memory unchanged and, on success, yields one word per pop |
| Vm.PushAllEffect | src/vm.rs:109-116 | a run of pushes succeeds exactly when the words fit below the end of memory. Then Sp has grown by two per word and no other register changed. No word below the starting Sp is touched |
| Vm.PopAllSplit | src/vm.rs:99-107 | popping a + b words is popping a, then b |
| Vm.PushAllThenPopAll | src/vm.rs:99-116 | the stack is last-in first-out: popping as many words as were pushed returns them in reverse order and restores every register |
| Vm.AddStackSum | src/vm.rs:133-137 | with at least two words on the stack, AddStack replaces them by their wrapped sum, written at Sp - 4 with the rest of memory unchanged, and Sp drops by 2 |
| Vm.AddStackNoRollback | src/vm.rs:133-137 | with Sp at 2 or 3, AddStack fails on the second pop at the wrapped Sp - 4, and the first pop is not undone |
| Vm.AddStackFirstPopFails | src/vm.rs:133-134 | with Sp below 2 or beyond 8192, AddStack fails at the wrapped Sp - 2 and changes nothing |
| Vm.PopRegisterStores | src/vm.rs:128-132 | PopRegister stores the top word into its register after lowering Sp, so popping into Sp overwrites the lowered Sp |
| Vm.Machine.constructor | src/vm.rs:88-93 | the new machine's state is `Initial()`, on a fresh register array and memory |
| Vm.Machine.GetRegister | src/vm.rs:95-97 | reads the register's slot of the register array |
| Vm.Machine.Pop | src/vm.rs:99-107 | the in-place pop gives the result and new state `PopSpec` gives |
| Vm.Machine.Push | src/vm.rs:109-116 | the in-place push gives the result and new state `PushSpec` gives |
| Vm.Machine.Execute | src/vm.rs:125-142 | executing in place gives the result and new state `ExecuteSpec` gives |
| Vm.Machine.Step | src/vm.rs:118-143 | stepping in place gives the result and new state `StepSpec` gives |
| Interop.DecodeEncoded | src/vm.rs:52-74 | what the engine makes of every word `encode_u16` produces. Nop and Push(x) come back unchanged and PopRegister always comes back with A. PushRegister's byte 3 reads as AddStack. AddStack, the jumps, AddRegister and Signal are unknown operations |
| Interop.DecodeUnknown | src/vm.rs:72 | every opcode byte from 4 up is an unknown operation to the engine |
| Interop.EncodeDecodeIff | src/vm.rs:52-74 | encoding then decoding gives back the instruction's own operation if and only if it is Nop, Push or PopRegister(A) |
| Interop.TwoTokens | src/bin/asm.rs:102 | two space-free words joined by one space are the line's two tokens |
| Interop.AssembleSource | src/bin/asm.rs:93-112 | the sample program assembles to `01 05 01 03 10 00 02 00` |
| Interop.StepPushImmediate | src/vm.rs:118-127 | one step over a Push word with room on the stack succeeds, moves Pc and Sp up by 2 and writes the immediate at the old Sp |
| Interop.SourceStopsAtAddStack | src/bin/vm.rs:27-33 | loaded at address 0 with Sp at 0x1000, the sample image pushes 5 and 3. It then fails with UnknownOp(0x10) and Pc at 6 |

## Left out

- `src/bin/vm.rs`, the host driver, is not modelled beyond its set-up: Sp at 0x1000 and the image at address 0, used by `Interop.Loaded`. Its `halt` flag, `set_register`, `define_handler`, `state` and `MachineErr` are not declared in `src/vm.rs`, so signal handling and halting cannot be modelled against the engine. `Op` has no Signal variant there.
- `main` of the assembler: the argument check, opening the file, reading lines and writing to stdout are I/O. Only the transformation from the line sequence to `Result<bytes, AsmErr>` is modelled. `NoArg`, `UnknownFile` and `WriteErr` are kept as tags only. A failing `line.expect` is not modelled.
- The memory implementation (`crate::memory`, `Addressable`, `LinearMemory`, `load_from_vec`) is not part of this model. Its behaviour is the assumption stated in module `Memory`.
- `Op::value` reads the first byte of the value through an unsafe cast. Only its result, the implicit discriminant, is modelled.
- Unchecked `u16` arithmetic panics in a debug build. The model follows the release build, which wraps around.
- `Vm.StepSpec`: the fetch's `.unwrap()` panics when Pc + 1 is out of range. That case is a precondition (`CanFetch`), not a modelled panic.
- `Asm.HandleLine`: the source's match has no arm for `JmpReg` or `JmpImm`, although `from_string` returns both. Both are modelled as `UnknownOpCode`. The caller never passes an empty token list, so non-empty input is a precondition, as `parts[0]` is indexed unchecked.
- Error messages built with `format!` are modelled as tags with the value the message shows (`UnknownOp`, `UnknownReg`, `ReadFault`, `WriteFault`).
- `Radix.FromStrRadix` works on characters rather than UTF-8 bytes. A non-ASCII character is a single invalid digit here and several invalid bytes in Rust. Both are errors.
