/** The data model of the virtual machine: values, references, symbols,
    commands, the execution context and the memory management unit's state
    (context buffers, the context stack and the value stacks), with the
    MMU's bounds-checked accessors. The MMU's own implementation is not part
    of this model; its accessors are given the behaviour the rest of the
    core relies on: reads and writes of existing slots, and a structural
    error for anything out of range. */
module Machine {
  import opened Base

  type Hash = nat

  /** The six register slots `ra`..`rf`. */
  const RegisterCount: nat := 6

  /** Address kinds. `NoSection` stands for the source's S_NONE marker. */
  datatype Section = Code | Data | Bytepool | Register | Frame | FrameBack | NoSection

  /** A linker address: `Auto` is the "assign me later" sentinel. */
  datatype Addr = Auto | At(n: nat)

  datatype Reference = Alias(target: Hash) | Direct(section: Section, addr: Addr)

  datatype Symbol = Symbol(hash: Hash, resolved: bool, ref: Reference)

  type SymbolMap = map<Hash, Symbol>

  /** The reference a freshly initialised symbol carries before anything is
      assigned to it. */
  const BlankRef: Reference := Direct(NoSection, At(0))

  /** An interpreter-level location: a section and a concrete address. */
  datatype Loc = Loc(section: Section, address: nat)

  /** `NoType` is the source's V_MAX: an uninitialised value, and the
      "no stack" type of service commands. */
  datatype ValueType = Integer | Float | NoType

  /** A floating-point value is kept abstract: only its IEEE classification
      and its sign are observable to the core. */
  datatype FpClass = FpNan | FpInfinite | FpZero | FpSubnormal | FpNormal
  datatype Fp = Fp(cls: FpClass, negative: bool)

  /** A tagged value. Like the source's union, changing the tag leaves the
      payload fields alone. */
  datatype Value = Value(vtype: ValueType, integer: int, fp: Fp)

  /** A default-constructed value: uninitialised. */
  const Uninitialised: Value := Value(NoType, 0, Fp(FpZero, false))

  function IntValue(i: int): (v: Value)
    ensures v.vtype == Integer && v.integer == i
  {
    Value(Integer, i, Fp(FpZero, false))
  }

  /** A signed byte: the bytepool's storage unit. */
  type SByte = b: int | -128 <= b < 128

  datatype Flag = FZero | FNegative | FInvalidFp | FWasJump | FExit

  datatype Context = Context(ip: nat, flags: set<Flag>, depth: nat, buffer: nat)

  datatype Argument = NoArg | RefArg(ref: Reference) | ValueArg(value: Value)

  /** A command with its dispatch cache: `cachedHandle == 0` means the cache
      is empty; `cachedExecutor == None` with a non-zero handle means a user
      (module 0) override. */
  datatype Command = Command(id: nat, ctype: ValueType, arg: Argument,
                             cachedExecutor: Option<nat>, cachedHandle: nat)

  datatype Buffer = Buffer(code: seq<Command>, data: seq<Value>, bytepool: seq<SByte>,
                           symbols: SymbolMap, registers: seq<Value>)

  const EmptyBuffer: Buffer :=
    Buffer([], [], [], map[], [Uninitialised, Uninitialised, Uninitialised,
                                Uninitialised, Uninitialised, Uninitialised])

  /** Section sizes of the real sections. */
  datatype Limits = Limits(code: nat, data: nat, bytepool: nat)

  function BufferLimits(b: Buffer): (l: Limits)
    ensures l.code == |b.code| && l.data == |b.data| && l.bytepool == |b.bytepool|
  {
    Limits(|b.code|, |b.data|, |b.bytepool|)
  }

  /** The MMU: all context buffers, the current context and the context
      stack, the per-type value stacks with the selected one, and the base of
      the current stack frame. */
  datatype Mmu = Mmu(buffers: map<nat, Buffer>, ctx: Context, saved: seq<Context>,
                     stacks: map<ValueType, seq<Value>>, selected: ValueType,
                     frameBase: nat, nextBuffer: nat)

  function CurrentBuffer(m: Mmu): (r: Result<Buffer>)
    ensures r.Ok? <==> m.ctx.buffer in m.buffers
    ensures r.Ok? ==> r.value == m.buffers[m.ctx.buffer]
  {
    if m.ctx.buffer in m.buffers then Ok(m.buffers[m.ctx.buffer]) else Err(NoBuffer)
  }

  function WithBuffer(m: Mmu, b: Buffer): (r: Mmu)
    ensures r.buffers == m.buffers[m.ctx.buffer := b]
    ensures r.ctx == m.ctx && r.saved == m.saved && r.stacks == m.stacks
    ensures r.selected == m.selected && r.frameBase == m.frameBase
  {
    m.(buffers := m.buffers[m.ctx.buffer := b])
  }

  function QueryLimits(m: Mmu): (r: Result<Limits>)
    ensures r.Ok? <==> m.ctx.buffer in m.buffers
    ensures r.Ok? ==> r.value == BufferLimits(m.buffers[m.ctx.buffer])
  {
    var b :- CurrentBuffer(m);
    Ok(BufferLimits(b))
  }

  /** The value stack selected by the last SelectStack. */
  function Stack(m: Mmu): seq<Value>
  {
    if m.selected in m.stacks then m.stacks[m.selected] else []
  }

  function WithStack(m: Mmu, s: seq<Value>): (r: Mmu)
    ensures Stack(r) == s
    ensures r.buffers == m.buffers && r.ctx == m.ctx && r.saved == m.saved
    ensures r.selected == m.selected && r.frameBase == m.frameBase
  {
    m.(stacks := m.stacks[m.selected := s])
  }

  function SelectStack(m: Mmu, t: ValueType): Mmu
  {
    m.(selected := t)
  }

  function WithContext(m: Mmu, c: Context): Mmu
  {
    m.(ctx := c)
  }

  // ---------------------------------------------------------------------
  // Bounds-checked accessors (ACommand, AData, ARegister, ABytepool,
  // AStackFrame, AStackTop) and their write counterparts.
  // ---------------------------------------------------------------------

  function ACommand(m: Mmu, ip: nat): (r: Result<Command>)
    ensures r.Ok? <==> m.ctx.buffer in m.buffers && ip < |m.buffers[m.ctx.buffer].code|
    ensures r.Ok? ==> r.value == m.buffers[m.ctx.buffer].code[ip]
  {
    var b :- CurrentBuffer(m);
    if ip < |b.code| then Ok(b.code[ip]) else Err(OutOfRange)
  }

  function SetCommand(m: Mmu, ip: nat, c: Command): (r: Result<Mmu>)
    ensures r.Ok? <==> m.ctx.buffer in m.buffers && ip < |m.buffers[m.ctx.buffer].code|
    ensures r.Ok? ==> ACommand(r.value, ip) == Ok(c)
    ensures r.Ok? ==> r.value.ctx == m.ctx && Stack(r.value) == Stack(m)
  {
    var b :- CurrentBuffer(m);
    if ip < |b.code| then Ok(WithBuffer(m, b.(code := b.code[ip := c]))) else Err(OutOfRange)
  }

  function AData(m: Mmu, addr: nat): (r: Result<Value>)
    ensures r.Ok? <==> m.ctx.buffer in m.buffers && addr < |m.buffers[m.ctx.buffer].data|
    ensures r.Ok? ==> r.value == m.buffers[m.ctx.buffer].data[addr]
  {
    var b :- CurrentBuffer(m);
    if addr < |b.data| then Ok(b.data[addr]) else Err(OutOfRange)
  }

  function SetData(m: Mmu, addr: nat, v: Value): (r: Result<Mmu>)
    ensures r.Ok? <==> AData(m, addr).Ok?
    ensures r.Ok? ==> AData(r.value, addr) == Ok(v)
  {
    var b :- CurrentBuffer(m);
    if addr < |b.data| then Ok(WithBuffer(m, b.(data := b.data[addr := v]))) else Err(OutOfRange)
  }

  function ARegister(m: Mmu, id: nat): (r: Result<Value>)
    ensures r.Ok? <==> m.ctx.buffer in m.buffers && id < |m.buffers[m.ctx.buffer].registers|
    ensures r.Ok? ==> r.value == m.buffers[m.ctx.buffer].registers[id]
  {
    var b :- CurrentBuffer(m);
    if id < |b.registers| then Ok(b.registers[id]) else Err(OutOfRange)
  }

  function SetRegister(m: Mmu, id: nat, v: Value): (r: Result<Mmu>)
    ensures r.Ok? <==> ARegister(m, id).Ok?
    ensures r.Ok? ==> ARegister(r.value, id) == Ok(v)
  {
    var b :- CurrentBuffer(m);
    if id < |b.registers| then Ok(WithBuffer(m, b.(registers := b.registers[id := v])))
    else Err(OutOfRange)
  }

  function ABytepool(m: Mmu, addr: nat): (r: Result<SByte>)
    ensures r.Ok? <==> m.ctx.buffer in m.buffers && addr < |m.buffers[m.ctx.buffer].bytepool|
    ensures r.Ok? ==> r.value == m.buffers[m.ctx.buffer].bytepool[addr]
  {
    var b :- CurrentBuffer(m);
    if addr < |b.bytepool| then Ok(b.bytepool[addr]) else Err(OutOfRange)
  }

  function SetBytepool(m: Mmu, addr: nat, x: SByte): (r: Result<Mmu>)
    ensures r.Ok? <==> ABytepool(m, addr).Ok?
    ensures r.Ok? ==> ABytepool(r.value, addr) == Ok(x)
  {
    var b :- CurrentBuffer(m);
    if addr < |b.bytepool| then Ok(WithBuffer(m, b.(bytepool := b.bytepool[addr := x])))
    else Err(OutOfRange)
  }

  /** The slot `offset` places away from the current frame base in the
      selected stack; negative offsets reach the caller's parameters. */
  function AStackFrame(m: Mmu, offset: int): (r: Result<Value>)
    ensures r.Ok? <==> 0 <= m.frameBase + offset < |Stack(m)|
    ensures r.Ok? ==> r.value == Stack(m)[m.frameBase + offset]
  {
    var i := m.frameBase + offset;
    if 0 <= i < |Stack(m)| then Ok(Stack(m)[i]) else Err(OutOfRange)
  }

  function SetStackFrame(m: Mmu, offset: int, v: Value): (r: Result<Mmu>)
    ensures r.Ok? <==> AStackFrame(m, offset).Ok?
    ensures r.Ok? ==> AStackFrame(r.value, offset) == Ok(v)
    ensures r.Ok? ==> |Stack(r.value)| == |Stack(m)|
    ensures r.Ok? ==> forall i :: 0 <= i < |Stack(m)| && i != m.frameBase + offset ==>
                        Stack(r.value)[i] == Stack(m)[i]
  {
    var i := m.frameBase + offset;
    if 0 <= i < |Stack(m)| then Ok(WithStack(m, Stack(m)[i := v])) else Err(OutOfRange)
  }

  // ---------------------------------------------------------------------
  // Context buffers and the context stack.
  // ---------------------------------------------------------------------

  /** Creates a fresh, empty buffer; does not switch to it. */
  function AllocateContextBuffer(m: Mmu): (r: (Mmu, nat))
    requires forall id :: id in m.buffers ==> id < m.nextBuffer
    ensures r.1 !in m.buffers && r.1 in r.0.buffers && r.0.buffers[r.1] == EmptyBuffer
    ensures forall id :: id in m.buffers ==> id in r.0.buffers && r.0.buffers[id] == m.buffers[id]
    ensures forall id :: id in r.0.buffers ==> id < r.0.nextBuffer
    ensures r.0.ctx == m.ctx && r.0.saved == m.saved
  {
    var id := m.nextBuffer;
    (m.(buffers := m.buffers[id := EmptyBuffer], nextBuffer := id + 1), id)
  }

  /** Pushes the current context and enters buffer `id` at ip 0 with clear
      flags, one call level deeper. */
  function SwitchToContextBuffer(m: Mmu, id: nat): (r: Mmu)
    ensures r.saved == m.saved + [m.ctx]
    ensures r.ctx.buffer == id && r.ctx.ip == 0 && r.ctx.flags == {}
    ensures r.buffers == m.buffers && r.nextBuffer == m.nextBuffer
  {
    m.(saved := m.saved + [m.ctx], ctx := Context(0, {}, m.ctx.depth + 1, id))
  }

  /** Pops the context stack; popping an empty stack is an error. */
  function RestoreCurrentContext(m: Mmu): (r: Result<Mmu>)
    ensures r.Ok? <==> |m.saved| > 0
    ensures r.Ok? ==> r.value.saved + [r.value.ctx] == m.saved
    ensures r.Ok? ==> r.value.buffers == m.buffers && r.value.nextBuffer == m.nextBuffer
  {
    if |m.saved| == 0 then Err(ContextStackEmpty)
    else Ok(m.(ctx := m.saved[|m.saved| - 1], saved := m.saved[..|m.saved| - 1]))
  }

  /** Records appended to one of the current buffer's real sections. */
  datatype Records = CodeRecords(cmds: seq<Command>) | DataRecords(vals: seq<Value>)
                   | BytepoolRecords(bytes: seq<SByte>) | VirtualRecords

  function RecordCount(rs: Records): nat
  {
    match rs
    case CodeRecords(c) => |c|
    case DataRecords(v) => |v|
    case BytepoolRecords(b) => |b|
    case VirtualRecords => 0
  }

  /** AppendSection: grows the named real section of the current buffer by
      the given records; a virtual section cannot be appended to. */
  function AppendSection(m: Mmu, rs: Records): (r: Result<Mmu>)
    ensures r.Ok? <==> m.ctx.buffer in m.buffers && !rs.VirtualRecords?
    ensures r.Ok? ==> (r.value.ctx == m.ctx && r.value.saved == m.saved
                       && r.value.buffers.Keys == m.buffers.Keys
                       && r.value.nextBuffer == m.nextBuffer)
    ensures r.Ok? ==>
      var l := BufferLimits(m.buffers[m.ctx.buffer]);
      var l' := BufferLimits(r.value.buffers[m.ctx.buffer]);
      && l'.code == l.code + (if rs.CodeRecords? then RecordCount(rs) else 0)
      && l'.data == l.data + (if rs.DataRecords? then RecordCount(rs) else 0)
      && l'.bytepool == l.bytepool + (if rs.BytepoolRecords? then RecordCount(rs) else 0)
    ensures r.Ok? ==> r.value.buffers[m.ctx.buffer].symbols == m.buffers[m.ctx.buffer].symbols
    ensures r.Ok? ==> forall id :: id in m.buffers && id != m.ctx.buffer ==>
                        r.value.buffers[id] == m.buffers[id]
    // The records land at the end of the named section; every other section
    // keeps its contents, and the value stacks are untouched.
    ensures r.Ok? ==>
      var b := m.buffers[m.ctx.buffer];
      var b' := r.value.buffers[m.ctx.buffer];
      && b'.code == b.code + (if rs.CodeRecords? then rs.cmds else [])
      && b'.data == b.data + (if rs.DataRecords? then rs.vals else [])
      && b'.bytepool == b.bytepool + (if rs.BytepoolRecords? then rs.bytes else [])
      && b'.registers == b.registers
      && r.value.stacks == m.stacks && r.value.selected == m.selected && r.value.frameBase == m.frameBase
  {
    var b :- CurrentBuffer(m);
    match rs
    case CodeRecords(c) => Ok(WithBuffer(m, b.(code := b.code + c)))
    case DataRecords(v) => Ok(WithBuffer(m, b.(data := b.data + v)))
    case BytepoolRecords(x) => Ok(WithBuffer(m, b.(bytepool := b.bytepool + x)))
    case VirtualRecords => Err(InvalidSection)
  }
}
