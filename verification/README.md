# A Dafny model of the Homework_2011 stack-machine processor core

The repository implements a small stack-machine processor. This project
models its core in Dafny and proves properties of the model. The modelled
parts are:

- the **linker** (`Linker.cpp`). It merges the symbols each decoded line
  mentions into a running table, places AUTO-addressed labels at the current
  code and data sizes, follows alias chains, and validates the table before
  committing it to the current context buffer.
- the **logic provider** (`Logic.cpp`). This covers:
  - executing a single command through its dispatch cache;
  - the state checksum and flag analysis;
  - the register-name codec and jumps;
  - per-section read, write and type-change rules;
  - the value stack.
- the **assembly reader** (`AssemblyIO.cpp`). This covers:
  - line preparation, labels, operand references and declarations;
  - commands and whole statements with their `.type` suffix;
  - the reader's two-section file description.
- the **ModR/M encoder** of the x86 backend (`x86backend/ModRM.h`). This
  covers the mod and r/m enumerations, the packed byte (as explicit
  shift-and-mask arithmetic), the SIB and displacement predicates and every
  operand-wrapper constructor.
- the **processor API** (`APIImplementation.cpp`). This covers deleting a
  context buffer, loading a binary image or an assembly stream into a fresh
  buffer, executing (precompiled image or interpreter), compiling, and
  merging another buffer into the current one.

## Modules

- `base.dfy` (`Base`): `Option` and `Result`/`Outcome`, with one flat `Error`
  type for every error the core raises. It also has `MinKey`, the
  ascending-key order in which a `std::map` is visited.
- `machine.dfy` (`Machine`): the machine state.
  - Values, commands, references and symbols.
  - Context buffers holding code, data, bytepool, symbols and registers.
  - The MMU state (`Mmu`): buffers, current context, saved-context stack,
    typed stacks and frame base.
  - Its accessors, context switching and section appending, after `MMU.h`.
- `linker.dfy` (`Linker`): LinkSymbols, Resolve, InitLinkSession and
  Finalize/Commit.
- `logic.dfy` (`Logic`): ExecuteSingleCommand, ChecksumState, Analyze,
  Decode/EncodeRegister, Jump, UpdateType, Write, Read, StackPop, StackPush
  and StackTop.
- `assembly.dfy` (`AssemblyIO`): PrepLine, ParseLabel, ParseReference,
  ReadSingleDeclaration, ReadSingleCommand, ReadSingleStatement, RdSetup and
  NextSection.
- `modrm.dfy` (`ModRM`): the ModR/M byte and `ModRMWrapper`.
- `engine.dfy` (`Engine`): Delete, Load, the interpreter loop (Step, Run,
  Interpret), Exec, Compile and MergeWithContext.

## Modelling decisions

- **Errors.** Every `cassert`, `__assert`, `__verify` and `casshole` that
  throws becomes an `Err` result (or a `Fail` outcome) naming the failure.
  State mutated before the throw is not kept: an `Err` carries no machine
  state.
- **Collaborators are parameters.** The model leaves several pieces of the
  program as parameters, because their code is not part of this model. The
  properties hold for every choice of them.
  - The command set, the executors and the running of a handle form the
    `Logic.Dispatch` record.
  - The symbol-name hash, `Value::Parse`, the mnemonic table and the default
    type specifier form the `AssemblyIO.AsmEnv` record.
  - The rolling hash `hasher_xroll` is the `roll` argument of
    `Logic.ChecksumState`.
  - The native backend is `Engine.Backend`.
  - The MMU's `ShiftImages` and `PasteFromContext` and the linker's
    `Relocate` and `MergeLink_Add` form `Engine.MergeServices`.
  - The reader's decoded units are given to `Engine.Load` as data.
- **Addresses.** A direct address is either concrete or the AUTO
  placeholder (`Addr = Auto | At(n)`). The interpreter addresses locations
  by section and natural offset.
- **Linker API.** `DirectLink_Init`, `DirectLink_Add` and `DirectLink_Commit`
  in `APIImplementation.cpp` correspond to `InitLinkSession`, `LinkSymbols`
  and `Finalize` in `Linker.cpp`.
  - The running table is passed explicitly.
  - `LinkSymbols` takes the section sizes its caller queried.
  - `Linker.Commit` is Finalize's final move of the table into the current
    buffer; the model replaces the buffer's symbol image with the table.
- **Non-termination.** `Resolve` loops forever on an alias cycle in an
  unchecked table. The model reports that as `NonTerminating`.

## Model

| member | source | states |
|---|---|---|
| Linker.Place | Linker.cpp:36-101 | An alias definition must name a symbol of the same batch. AUTO CODE and DATA definitions take the current text and data sizes. AUTO register or stack definitions are refused. An explicit address is kept iff its section is addressable and, for a register, its number is below the register count; a larger register number is `BadRegisterId`. |
| Linker.LinkEntry | Linker.cpp:21-120 | Merging one batch entry: a stored hash differing from its key is an inconsistency. A definition is placed and replaces a usage-only record, but fails on an already defined one. A usage keeps an existing record or is inserted as is. |
| Linker.LinkSymbols | Linker.cpp:15-124 | The batch merge succeeds iff every entry merges. The result's keys are the old keys plus the batch keys. Batch keys hold the merged entries and other keys are untouched. A failure means some batch entry fails to merge. |
| Linker.Resolve | Linker.cpp:126-141 | Following aliases ends only at a direct reference. A direct reference resolves to itself. A missing or unresolved symbol on the chain is an error. |
| Linker.ResolveFollowsChain | Linker.cpp:126-141 | Along a chain of distinct resolved symbols, each aliasing the next, resolution from the first ends at the last one's direct reference. If the last aliases a missing symbol, that symbol is `SymbolNotFound`; if it aliases an unresolved one, that symbol is `Unresolved`. |
| Linker.CheckDirect | Linker.cpp:205-245 | A terminal reference passes iff it is a CODE address below the text size, a DATA address below the data size, a register below the register count, or a stack reference. |
| Linker.Walk | Linker.cpp:169-249 | A successful chain walk starts at a resolved symbol and ends at an in-bounds concrete address. A direct start lands on its own address. |
| Linker.Finalize | Linker.cpp:149-250 | The table passes iff every key passes its check (hash match and successful chain walk). On failure, the reported error is that of a key whose check fails. |
| Linker.Commit | Linker.cpp:149-255 | The commit succeeds iff a current buffer exists and the table passes validation against that buffer's sizes. The buffer's symbol image becomes the table, the linker's table becomes empty, and nothing else changes. |
| Linker.FinalizedTableResolves | Linker.cpp:126-250 | From every key of a table Finalize accepted, alias resolution terminates at a concrete address within the checked section bounds. |
| Linker.WalkAsWritten | Linker.cpp:184-197 | As written, any alias hop from a resolved symbol fails. |
| Linker.FinalizeAsWritten | Linker.cpp:149-250 | As written, a table that passes holds no alias at all. |
| Linker.AliasRejectedAsWritten | Linker.cpp:192-194 | A table where 1 aliases 2 and 2 is data slot 0: the intended check accepts it, and the check as written reports a circular alias. |
| Linker.MutualAliasIsCircular | Linker.cpp:169-197 | Two symbols aliasing each other are reported as a circular alias. |
| Logic.DecodeRegister | Logic.cpp:178-191 | A name decodes iff it is one of the six register names, and it decodes to that name's id. |
| Logic.EncodeRegister | Logic.cpp:193-199 | An id encodes iff it is below the register count, giving one of the register names. |
| Logic.EncodeDecodeRegister | Logic.cpp:178-199 | Decoding the name of a valid id gives the id back. |
| Logic.DecodeEncodeRegister | Logic.cpp:178-199 | Encoding a decoded id gives the name back. |
| Logic.Analyze | Logic.cpp:122-176 | The analysis fails iff the value is uninitialised, and otherwise changes only the zero, negative and invalid-float flags. For an integer: ZERO iff 0, NEGATIVE iff below 0, never invalid. For a float: invalid iff NaN or infinite, ZERO iff zero, NEGATIVE iff a negative subnormal or normal. |
| Logic.AnalyzeExclusive | Logic.cpp:122-176 | ZERO and NEGATIVE are never raised together. |
| Logic.Jump | Logic.cpp:201-213 | A jump succeeds iff the target is in CODE. It sets ip to the target address and adds the jump flag, keeping the other flags, buffer and depth. |
| Logic.Read | Logic.cpp:297-329 | CODE and invalid sections are unreadable. DATA, FRAME and REGISTER read their slot; FRAME_BACK reads the frame slot at the negated offset. A bytepool byte reads as a sign-extended integer. |
| Logic.LowByte | Logic.cpp:284-287 | The byte stored into the bytepool is congruent to the integer modulo 256. |
| Logic.LowByteOfByte | Logic.cpp:284-319 | A value that already fits a signed byte is stored unchanged. |
| Logic.Write | Logic.cpp:252-295 | CODE and invalid sections refuse writes. Other sections accept a write exactly where a read succeeds; the bytepool also requires an integer. Reading the location afterwards returns the stored value (the low byte for the bytepool). Only the written slot changes: the state after a DATA, REGISTER or bytepool write is the old one with that one buffer slot replaced, and after a FRAME or FRAME_BACK write it is the old one with that one stack slot replaced. |
| Logic.WriteAsWritten | Logic.cpp:267-277 | As written, a FRAME write succeeds iff both the frame slot and the slot at the negated offset exist, and it stores the value in both. Every other section behaves as the intended write. |
| Logic.FrameWriteAgreement | Logic.cpp:267-277 | For any FRAME write the intended one accepts, the write as written gives the same state iff the offset is 0, or the slot at the negated offset exists and already holds the written value. |
| Logic.FrameWriteFallsThrough | Logic.cpp:267-277 | Take a stack [a, b, c] with frame base 1. The intended write to frame slot 1 leaves the caller's parameter (slot -1) equal to a; the write as written overwrites it. |
| Logic.UpdateType | Logic.cpp:215-250 | A type change succeeds iff the location is an existing DATA slot or a register. A register is left unchanged. A DATA slot keeps its value and takes the new type, and the state is the old one with only that slot's type replaced. |
| Logic.StackTop | Logic.cpp:354-358 | The top exists iff the stack is non-empty, and it is the last element. |
| Logic.StackPush | Logic.cpp:343-352 | The value is appended to the selected stack; context and buffers are unchanged. |
| Logic.StackPop | Logic.cpp:331-341 | A pop succeeds iff the stack is non-empty. It returns the top, and the remaining stack plus the top is the old stack. |
| Logic.PushThenTop | Logic.cpp:343-358 | After a push, the top is the pushed value. |
| Logic.PushThenPop | Logic.cpp:331-352 | Popping after a push returns the pushed value and restores the stack. |
| Logic.FillCache | Logic.cpp:45-66 | A filled cache is kept. Otherwise: an unknown id is an error; a user handle from module 0 is used without an executor; else the executor for the command's type (the service executor for service commands) must exist and supplies the handle. |
| Logic.Advance | Logic.cpp:86-90 | ip advances by one exactly when the command neither exited nor jumped. |
| Logic.ExecuteSingleCommand | Logic.cpp:35-91 | Execution succeeds iff the cache fills and the run succeeds. The jump flag is cleared first; a null handle returns at once. Otherwise the handle runs on the command's stack, and ip advances iff the run raised neither exit nor jump. |
| Logic.CachedExecutionMatchesFresh | Logic.cpp:45-91 | Re-executing a command with its cache already filled decodes nothing and behaves exactly like executing it fresh. |
| Logic.ChecksumState | Logic.cpp:93-120 | The checksum exists iff there is a current buffer. |
| Logic.ChecksumDeterminedByCodeAndContext | Logic.cpp:93-120 | Two states with the same context, section limits and code image have the same checksum. |
| AssemblyIO.PrepLine | AssemblyIO.cpp:174-200 | A line is dropped iff it is only whitespace or its first non-space character is NUL. Otherwise the result is the lowercased text from the first non-space character up to the first `;`, newline or NUL. |
| AssemblyIO.PrepLineNormalised | AssemblyIO.cpp:174-200 | A prepared line holds no upper-case letter and no `;`. |
| AssemblyIO.ParseLabel | AssemblyIO.cpp:320-335 | A found label splits the text as label, colon, rest, and the label holds no space, NUL or colon. |
| AssemblyIO.ParseLabelNone | AssemblyIO.cpp:320-335 | No label is found iff every colon is preceded by a space or a NUL. |
| AssemblyIO.ReadLabels | AssemblyIO.cpp:361-376 | The leading labels are consumed until none remains, and the mentioned symbols only grow. |
| AssemblyIO.ReadLabelsShape | AssemblyIO.cpp:361-376 | What remains is a tail of the line: the whole line when it starts with no label, otherwise a tail not starting with whitespace. Every symbol added is a resolved CODE label with an AUTO address. |
| AssemblyIO.LabelThenRest | AssemblyIO.cpp:361-376 | A label, a colon, whitespace, then text: reading defines the label and carries on with exactly that text. |
| AssemblyIO.LabelDefined | AssemblyIO.cpp:361-376 | A label at the head of a line is defined as a resolved CODE symbol with an AUTO address. |
| AssemblyIO.ParseReference | AssemblyIO.cpp:111-172 | `x:N` is a direct address in the section letter x names: `c`, `d`, `f`, `p` or `r`, with the register number below the count. `$name` is a register by name. Anything else is an alias to the name's hash, added as an unresolved usage. |
| AssemblyIO.ParseFormattedDirect | AssemblyIO.cpp:120-153 | Formatting a direct address as `x:N` and parsing it gives the address back. |
| AssemblyIO.ParseRegisterName | AssemblyIO.cpp:155-160 | `$` followed by a register's name parses to that register. |
| AssemblyIO.DecimalRoundTrip | AssemblyIO.cpp:120 | The decimal digits of a number read back as that number. |
| AssemblyIO.ReadSingleDeclaration | AssemblyIO.cpp:202-264 | A declaration succeeds iff it is one word, or three fields with `=` and a parsable value, or with `:` and a parsable reference. One word is an uninitialised DATA entry, `=` an initialised one, `:` an alias that places no data. The name is mentioned as a resolved symbol. |
| AssemblyIO.ReadSingleCommand | AssemblyIO.cpp:266-318 | An unknown mnemonic is an error. An argument must be present exactly when the opcode takes one, and it is parsed as a reference or a value according to the opcode. The command decodes iff the mnemonic is known and its argument is accepted this way. |
| AssemblyIO.NextToken | AssemblyIO.cpp:382-383 | A token is found iff the text is not all spaces and tabs, and a token holds neither. |
| AssemblyIO.SplitTypeSpec | AssemblyIO.cpp:390-394 | Without a dot the word and the default specifier are kept. With a dot the mnemonic is the text before the first dot. |
| AssemblyIO.DecodeTypeSpec | AssemblyIO.cpp:398-409 | `f` selects float, `d` or `i` integer (either case); any other specifier is an error. |
| AssemblyIO.DecodeTypeSpecAsWritten | AssemblyIO.cpp:398-409 | As written, every specifier falls through to the error. |
| AssemblyIO.ReadSingleStatement | AssemblyIO.cpp:337-430 | A line with nothing after its labels decodes to the labels alone. An invalid specifier is `BadTypeSpec`. `decl` without an argument is `EmptyDeclaration`; with one, the statement is the declaration of the rest of the line as DATA of the specifier's type. Any other word is the command its mnemonic and argument decode to, with the specifier's type. The mentioned symbols extend those the labels defined. |
| AssemblyIO.ReadSingleStatementAsWritten | AssemblyIO.cpp:337-430 | As written, no statement changes the decoded kind, command or data. |
| AssemblyIO.SingleWordIsBareDeclaration | AssemblyIO.cpp:211-258 | A single word scans as a bare, one-field declaration. |
| AssemblyIO.DeclarationAccepted | AssemblyIO.cpp:337-430 | `decl.i x` declares `x` as an uninitialised DATA entry. |
| AssemblyIO.DeclarationRejectedAsWritten | AssemblyIO.cpp:398-409 | As written, `decl.i x` is rejected for its `i` specifier. |
| AssemblyIO.InitialiserNeverArrives | AssemblyIO.cpp:382-383 | When the declaration gets only the second token, a successful `decl` line whose argument is a single word always declares an uninitialised DATA entry, whatever follows. |
| AssemblyIO.InitialisedDeclaration | AssemblyIO.cpp:413-420 | `decl a = 5` declares `a` with the parsed value 5 when the declaration gets the rest of the line; given only the second token, it declares `a` uninitialised. |
| AssemblyIO.NextTokenOfWord | AssemblyIO.cpp:382-383 | A word followed by a space is the next token, and reading resumes after the space. |
| AssemblyIO.RdSetup | AssemblyIO.cpp:77-87 | An assembly file is described as a stub followed by one stream section. |
| AssemblyIO.NextSection | AssemblyIO.cpp:56-75 | A stub at the front is popped and the next section's type reported with 1. With no stub at the front, the result is 0 and nothing changes. |
| AssemblyIO.NextSectionSequence | AssemblyIO.cpp:56-87 | After setup, the first call reports the stream section, and every later call reports nothing and changes nothing. |
| ModRM.ModCodeRoundTrip | x86backend/ModRM.h:20-26 | The mod field codes are the four 2-bit values, and decoding a code inverts encoding. |
| ModRM.TablesInjective | x86backend/ModRM.h:29-65 | Distinct r/m names have distinct codes in each table. |
| ModRM.TablesSurjective | x86backend/ModRM.h:29-65 | Every 3-bit code names an r/m entry in each table. |
| ModRM.Encode | x86backend/ModRM.h:67-89 | The packed byte holds r/m in bits 0-2, reg in bits 3-5 and mod in bits 6-7. |
| ModRM.DecodeEncode | x86backend/ModRM.h:67-89 | Unpacking a packed byte gives back its three fields. |
| ModRM.EncodeDecode | x86backend/ModRM.h:67-89 | Packing the fields of any byte gives the byte back. |
| ModRM.UsingSibOnBytes | x86backend/ModRM.h:76-79 | A SIB byte follows iff mod is not 11 and r/m is 100, read off the encoded byte. |
| ModRM.UsingDisplacement | x86backend/ModRM.h:81-86 | The displacement that follows is mod's own, except that mod 00 can turn into a 32-bit displacement. |
| ModRM.UsingDisplacementOnBytes | x86backend/ModRM.h:81-86 | Read off the encoded byte: a 32-bit displacement iff mod is 10 or (mod, r/m) is (00, 101); 8-bit iff mod is 01; none iff mod is 00 and r/m is not 101. |
| ModRM.FromNoShift | x86backend/ModRM.h:108-115 | `[reg]` has mod 00, no extension and the table's r/m code. It is a 32-bit displacement iff the displacement entry is chosen. |
| ModRM.FromDisp8 | x86backend/ModRM.h:117-124 | `[reg]+disp8` has mod 01 and an 8-bit displacement. |
| ModRM.FromDisp32 | x86backend/ModRM.h:126-133 | `[reg]+disp32` has mod 10 and a 32-bit displacement. |
| ModRM.FromRegister | x86backend/ModRM.h:135-143 | A register operand is accepted iff it is 64-bit. It has mod 11, the register's bits and extension, and no SIB or displacement. |
| ModRM.FromBaseIndex | x86backend/ModRM.h:145-153 | A base-index operand puts the SIB escape in r/m and carries the SIB operand. |
| ModRM.FromExtendedAsWritten | x86backend/ModRM.h:155-168 | As written, `[R13]` is rewritten as `[R13]+disp8` through a SIB byte. Every other extended register is encoded directly in r/m with REX.B. |
| ModRM.FromExtended | x86backend/ModRM.h:155-168 | The encoded byte announces a SIB byte iff the wrapper carries one. The displacement form read off the byte equals the wrapper's mod. |
| ModRM.ExtendedAgreesAwayFromR12 | x86backend/ModRM.h:155-168 | The corrected constructor agrees with the one as written except for R12 memory operands. |
| ModRM.R12WithoutSibAsWritten | x86backend/ModRM.h:155-168 | As written, `[R12]` yields a byte announcing a SIB byte while the wrapper has none; the corrected one carries it. |
| Machine.AllocateContextBuffer | MMU.h:83 | A fresh, empty buffer is created under an unused id, leaving the others and the context unchanged. |
| Machine.AppendSection | APIImplementation.cpp:123-136 | Appending succeeds iff there is a current buffer and the section is real. The named section becomes its old records followed by the section's records; the other sections, the registers, the stacks and the context are unchanged. |
| Engine.PopWhile | APIImplementation.cpp:54-58 | Contexts are restored until one belongs to another buffer; this succeeds iff such a saved context exists. The restored stack is a prefix of the old one and every dropped context belonged to the deleted buffer. |
| Engine.Delete | APIImplementation.cpp:43-63 | The base buffer cannot be deleted. Otherwise deletion succeeds iff some saved context belongs to another buffer. The new current context is the nearest such one, the dropped frames all belonged to the deleted buffer, and the buffer is released. |
| Engine.AppendUnit | APIImplementation.cpp:123-136 | The three conditional appends of a decoded unit extend code, data and bytepool by exactly the unit's contents. |
| Engine.LoadStream | APIImplementation.cpp:117-138 | Loading a stream succeeds iff the reference link session succeeds, where each unit is linked against the sizes the earlier units reached. The buffer's images become the old ones followed by every unit's contents in order. |
| Engine.LoadBinary | APIImplementation.cpp:87-105 | Loading a binary image succeeds iff every symbol section holds its declared count and no image section is virtual. The symbol image is that of the last symbol section. |
| Engine.Load | APIImplementation.cpp:65-158 | A fresh buffer is allocated and entered before anything is read. A missing reader or a non-uniform file is an error. A stream loads iff its link session succeeds and the table, committed once at the end, validates against the final sizes; the buffer then holds all units' contents and that table. |
| Engine.LinkAllSplits | APIImplementation.cpp:117-121 | The session over a whole stream is the session over a prefix continued from the sizes that prefix reached. |
| Engine.Step | APIImplementation.cpp:266-272 | One turn fails iff fetching the command at ip fails or executing it fails, with that error. Otherwise the state is the executed one with the filled command stored back at its slot. |
| Engine.Interpret | APIImplementation.cpp:264-288 | The loop returns only with the exit flag raised, and an exited state is returned unchanged. Before the exit flag, an error in the first step is the loop's error. |
| Engine.InterpretIsRun | APIImplementation.cpp:264-288 | A run that ends normally is some number of steps, at most the fuel, with no exit flag before the last. |
| Engine.RunIsInterpret | APIImplementation.cpp:264-288 | Conversely, steps that all succeed without the exit flag until the last raises it are what the loop computes with any sufficient fuel. |
| Engine.InterpretMoreFuel | APIImplementation.cpp:266-288 | A run that finishes finishes identically with any larger step bound. |
| Engine.ResultValue | APIImplementation.cpp:290-297 | The interpreter's result is the stack top, or an uninitialised value on an empty stack. |
| Engine.Exec | APIImplementation.cpp:226-298 | Without a current buffer execution fails. A precompiled image runs iff a backend has an image for the state's checksum; if it fails, the interpreter continues from the state it left. Otherwise the interpreter runs, ending with the exit flag and the stack-top result. |
| Engine.Compile | APIImplementation.cpp:202-224 | Compilation never fails outward. Without a backend nothing changes. Images only grow, by at most the current checksum, which is present iff it already was or compiling it succeeded. |
| Engine.CompileThenExecUsesImage | APIImplementation.cpp:202-241 | After a successful compilation, executing the same state uses the precompiled image. |
| Engine.SwitchRestore | APIImplementation.cpp:182-189 | Switching to a buffer and restoring returns exactly the original state. |
| Engine.MergeWithContext | APIImplementation.cpp:173-200 | A missing source is an error. For an existing source, merging succeeds iff the merge-add session over the source's symbols succeeds and committing its table to the pasted state succeeds; otherwise the error is that of the first failing step. Both the shift and relocation use the source's limits. The linked symbols are the source's own. The destination is restored before shifting, relocating, pasting and committing, in that order. |

## Left out

- I/O. Opening, reading and closing files, `fgets`, `RdReset`, the writer
  (`WrSetup`, `Write`, `Dump`) and every log message are not modelled. The
  reader's output is given to `Engine.Load` as decoded units or binary
  sections.
- Collaborators. `Value::Parse`, the command set and its executors, the
  symbol-name hash, `hasher_xroll`, the native backend, and the MMU/linker
  services used by merging are parameters, because their code is not part
  of this model.
- `Syscall` in `Logic.cpp` is not modelled: it performs console I/O.
- Floating point. A float is abstracted to its classification and sign;
  arithmetic on floats is not modelled.
- Data type checks. The `Assign` type checks on DATA and FRAME writes are not
  modelled; a write stores the value as given.
- Logic.ChecksumState: the checksum folds the whole limits record, while
  Logic.cpp:112 hashes the limits array with a byte length equal to its
  element count. The model does not fix which bytes enter the hash.
- Signs in addresses. `%zu` in `sscanf` accepts a leading `-` and wraps it to
  a huge unsigned value. The model reads such an operand as a symbol name,
  and addresses are unbounded naturals.
- AssemblyIO.ReadSingleCommand: a value argument is parsed with the
  statement's type. The type the source's `Value::Parse` actually uses is
  part of the `parseValue` parameter.
- AssemblyIO.ParseReference: the symbol branch (AssemblyIO.cpp:162-169)
  never sets `is_symbol`, and the reference's default state comes from
  `init`, whose code is not part of this model. The model assumes it leaves
  the reference an alias to the name's hash.
- Engine.Interpret: the interpreter loop takes a step bound (`fuel`). A
  program that never raises the exit flag ends in `OutOfFuel` instead of
  running forever.
- Engine.Load: the `FT_BINARY` path reads `SEC_SYMBOL_MAP` sections and
  appends every other section. Image contents are given as records, not
  raw bytes.
- Engine.MergeWithContext: `DumpSymbolImage` is modelled as a read of the
  source buffer's symbols. The effects of shifting, relocating, pasting and
  the merge-add session come from the service parameters; only their order
  and arguments are modelled.
- State after an error. A thrown error that leaves the MMU half-updated
  (for example, Load after allocating the buffer) is modelled as an error
  without a resulting state.
- Dispatch by function pointer. Calling the user handle through a function
  pointer and an executor's `Execute` are both the `run` parameter of
  `Logic.Dispatch`.

## Findings

| source | as written | input that shows it | evidently intended | confidence | as-written member | corrected member |
|---|---|---|---|---|---|---|
| Linker.cpp:193-194 | `insert(...).second` is true when the hash was NOT yet visited, and that value is asserted false, so the first alias hop always reports a circular alias | table {1 ↦ alias of 2, 2 ↦ DATA 0} with one data slot | report a cycle only when the target was already visited | high (not executed) | Linker.FinalizeAsWritten, Linker.AliasRejectedAsWritten | Linker.Finalize, Linker.FinalizedTableResolves |
| Logic.cpp:267-277 | the `S_FRAME` case has no `break` and falls into `S_FRAME_BACK`, so a frame write also overwrites the caller's parameter at the negated offset | stack [a, b, c], frame base 1, write v ≠ a to frame slot 1 | write only the frame slot | high (not executed) | Logic.WriteAsWritten, Logic.FrameWriteFallsThrough, Logic.FrameWriteAgreement | Logic.Write |
| AssemblyIO.cpp:398-409 | no case of the type-specifier switch ends with `break`, so `f`, `d` and `i` all fall into the default's error | the line `decl.i x` | `f` selects float, `d`/`i` integer, anything else is an error | high (not executed) | AssemblyIO.ReadSingleStatementAsWritten, AssemblyIO.DeclarationRejectedAsWritten | AssemblyIO.ReadSingleStatement, AssemblyIO.DeclarationAccepted |
| x86backend/ModRM.h:156-168 | only R13 with mod 00 is special-cased; R12 as a memory base is encoded with r/m = 100, which announces a SIB byte whatever REX.B says (Intel SDM Vol. 2, Table 2-5), but no SIB operand is attached | `[R12]` (R12 with mod 00) | route R12 memory operands through a SIB byte, as done for R13 | medium (not executed) | ModRM.FromExtendedAsWritten, ModRM.R12WithoutSibAsWritten | ModRM.FromExtended |
| AssemblyIO.cpp:382-383, 413-420 | `strtok` splits the statement at spaces and tabs, and only the second token is given to ReadSingleDeclaration, so the `name = value` and `name : ref` forms it parses never arrive | the line `decl a = 5` | give the declaration the rest of the line after `decl` | medium (not executed) | AssemblyIO.ReadStatementSecondTokenOnly, AssemblyIO.InitialiserNeverArrives | AssemblyIO.ReadSingleStatement, AssemblyIO.InitialisedDeclaration |
