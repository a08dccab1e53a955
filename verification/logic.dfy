/** The interpreter's logic provider: single-command execution with the
    dispatch cache, the state checksum, flag analysis, the register-name
    codec, jumps, the per-section read/write/type-change rules and the value
    stack. The command set, the executors and the hash function are
    collaborators given as parameters. */
module Logic {
  import opened Base
  import opened Machine

  // ---------------------------------------------------------------------
  // Register names
  // ---------------------------------------------------------------------

  const RegisterNames: seq<string> := ["ra", "rb", "rc", "rd", "re", "rf"]

  function FindRegister(name: string, i: nat): (r: Result<nat>)
    requires i <= |RegisterNames|
    ensures r.Ok? <==> exists j :: i <= j < |RegisterNames| && RegisterNames[j] == name
    ensures r.Ok? ==> i <= r.value < |RegisterNames| && RegisterNames[r.value] == name
    decreases |RegisterNames| - i
  {
    if i == |RegisterNames| then Err(UnknownRegister)
    else if RegisterNames[i] == name then Ok(i)
    else FindRegister(name, i + 1)
  }

  /** Maps a register name to its id; an empty or unknown name is fatal. */
  function DecodeRegister(name: string): (r: Result<nat>)
    ensures r.Ok? <==> name in RegisterNames
    ensures r.Ok? ==> r.value < RegisterCount && RegisterNames[r.value] == name
  {
    if |name| == 0 then Err(UnknownRegister) else FindRegister(name, 0)
  }

  /** Maps a register id to its name; an id outside the register file is
      fatal. */
  function EncodeRegister(id: nat): (r: Result<string>)
    ensures r.Ok? <==> id < RegisterCount
    ensures r.Ok? ==> r.value in RegisterNames && |r.value| == 2 && r.value[0] == 'r'
  {
    if id < |RegisterNames| then Ok(RegisterNames[id]) else Err(BadRegisterId(id))
  }

  lemma EncodeDecodeRegister(id: nat)
    requires id < RegisterCount
    ensures EncodeRegister(id).Ok? && DecodeRegister(EncodeRegister(id).value) == Ok(id)
  {
    var n := RegisterNames[id];
    assert FindRegister(n, 0).Ok?;
  }

  lemma DecodeEncodeRegister(name: string)
    requires DecodeRegister(name).Ok?
    ensures EncodeRegister(DecodeRegister(name).value) == Ok(name)
  {
  }

  // ---------------------------------------------------------------------
  // Flags
  // ---------------------------------------------------------------------

  const AnalyzedFlags: set<Flag> := {FZero, FNegative, FInvalidFp}

  /** Recomputes the zero / negative / invalid-float flags from a value;
      an uninitialised value is an error. */
  function Analyze(ctx: Context, v: Value): (r: Result<Context>)
    ensures r.Ok? <==> v.vtype != NoType
    ensures r.Ok? ==> r.value == ctx.(flags := r.value.flags)
    ensures r.Ok? ==> r.value.flags - AnalyzedFlags == ctx.flags - AnalyzedFlags
    ensures r.Ok? && v.vtype == Integer ==>
              && (FZero in r.value.flags <==> v.integer == 0)
              && (FNegative in r.value.flags <==> v.integer < 0)
              && FInvalidFp !in r.value.flags
    ensures r.Ok? && v.vtype == Float ==>
              && (FInvalidFp in r.value.flags <==> v.fp.cls in {FpNan, FpInfinite})
              && (FZero in r.value.flags <==> v.fp.cls == FpZero)
              && (FNegative in r.value.flags <==> v.fp.cls in {FpSubnormal, FpNormal} && v.fp.negative)
  {
    var cleared := ctx.flags - AnalyzedFlags;
    match v.vtype
    case Integer =>
      Ok(ctx.(flags := if v.integer == 0 then cleared + {FZero}
                       else if v.integer < 0 then cleared + {FNegative}
                       else cleared))
    case Float =>
      Ok(ctx.(flags := match v.fp.cls
                       case FpNan => cleared + {FInvalidFp}
                       case FpInfinite => cleared + {FInvalidFp}
                       case FpZero => cleared + {FZero}
                       case _ => if v.fp.negative then cleared + {FNegative} else cleared))
    case NoType => Err(UninitialisedValue)
  }

  /** ZERO and NEGATIVE never come out of Analyze together. */
  lemma AnalyzeExclusive(ctx: Context, v: Value)
    requires Analyze(ctx, v).Ok?
    ensures !(FZero in Analyze(ctx, v).value.flags && FNegative in Analyze(ctx, v).value.flags)
  {
  }

  /** Jumps to a CODE location: ip takes the address and the jump flag is
      raised; any other section is refused. */
  function Jump(ctx: Context, target: Loc): (r: Result<Context>)
    ensures r.Ok? <==> target.section == Code
    ensures r.Ok? ==> r.value.ip == target.address && FWasJump in r.value.flags
    ensures r.Ok? ==> r.value.flags == ctx.flags + {FWasJump}
    ensures r.Ok? ==> r.value.buffer == ctx.buffer && r.value.depth == ctx.depth
  {
    if target.section == Code then Ok(ctx.(ip := target.address, flags := ctx.flags + {FWasJump}))
    else Err(JumpOutsideCode)
  }

  // ---------------------------------------------------------------------
  // Per-section access
  // ---------------------------------------------------------------------

  /** The low byte of an integer, read back as a signed char. */
  function LowByte(i: int): (b: SByte)
    ensures (i - b) % 256 == 0
  {
    var u := i % 256;
    if u >= 128 then u - 256 else u
  }

  lemma LowByteOfByte(b: SByte)
    ensures LowByte(b) == b
  {
  }

  /** Reads a location. CODE cannot be read; FRAME_BACK addresses the
      caller's parameters at the negated offset; a bytepool byte is
      sign-extended to an integer. */
  function Read(m: Mmu, loc: Loc): (r: Result<Value>)
    ensures loc.section in {Code, NoSection} ==> r.Err?
    ensures loc.section == Data ==> r == AData(m, loc.address)
    ensures loc.section == Frame ==> r == AStackFrame(m, loc.address)
    ensures loc.section == FrameBack ==> r == AStackFrame(m, -(loc.address as int))
    ensures loc.section == Register ==> r == ARegister(m, loc.address)
    ensures loc.section == Bytepool ==>
              (r.Ok? <==> ABytepool(m, loc.address).Ok?)
              && (r.Ok? ==> r.value == IntValue(ABytepool(m, loc.address).value))
  {
    match loc.section
    case Code => Err(ReadFromCode)
    case Data => AData(m, loc.address)
    case Frame => AStackFrame(m, loc.address)
    case FrameBack => AStackFrame(m, -(loc.address as int))
    case Register => ARegister(m, loc.address)
    case Bytepool =>
      var x :- ABytepool(m, loc.address);
      Ok(IntValue(x))
    case NoSection => Err(InvalidSection)
  }

  /** What a read returns after `v` was written to a location of `section`. */
  function Stored(section: Section, v: Value): Value
  {
    if section == Bytepool then IntValue(LowByte(v.integer)) else v
  }

  /** Writes a location. CODE and invalid kinds are refused; registers are
      untyped slots; the bytepool takes integers only and keeps the low
      byte; FRAME writes the frame slot and FRAME_BACK the caller's
      parameter at the negated offset. */
  function Write(m: Mmu, loc: Loc, v: Value): (r: Result<Mmu>)
    ensures loc.section in {Code, NoSection} ==> r.Err?
    ensures loc.section in {Data, Register, Frame, FrameBack} ==> (r.Ok? <==> Read(m, loc).Ok?)
    ensures loc.section == Bytepool ==> (r.Ok? <==> v.vtype == Integer && Read(m, loc).Ok?)
    ensures r.Ok? ==> Read(r.value, loc) == Ok(Stored(loc.section, v))
    ensures r.Ok? ==> r.value.ctx == m.ctx
    // Only the addressed slot changes: the other slots of the section, the
    // other sections and buffers, and the value stacks are left alone.
    ensures r.Ok? && loc.section == Data ==>
              m.ctx.buffer in m.buffers
              && var b := m.buffers[m.ctx.buffer];
                 loc.address < |b.data| && r.value == WithBuffer(m, b.(data := b.data[loc.address := v]))
    ensures r.Ok? && loc.section == Register ==>
              m.ctx.buffer in m.buffers
              && var b := m.buffers[m.ctx.buffer];
                 loc.address < |b.registers|
                 && r.value == WithBuffer(m, b.(registers := b.registers[loc.address := v]))
    ensures r.Ok? && loc.section == Bytepool ==>
              m.ctx.buffer in m.buffers
              && var b := m.buffers[m.ctx.buffer];
                 loc.address < |b.bytepool|
                 && r.value == WithBuffer(m, b.(bytepool := b.bytepool[loc.address := LowByte(v.integer)]))
    ensures r.Ok? && loc.section == Frame ==>
              m.frameBase + loc.address < |Stack(m)|
              && r.value == WithStack(m, Stack(m)[m.frameBase + loc.address := v])
    ensures r.Ok? && loc.section == FrameBack ==>
              0 <= m.frameBase - loc.address < |Stack(m)|
              && r.value == WithStack(m, Stack(m)[m.frameBase - loc.address := v])
  {
    match loc.section
    case Code => Err(WriteToCode)
    case Data => SetData(m, loc.address, v)
    case Frame => SetStackFrame(m, loc.address, v)
    case FrameBack => SetStackFrame(m, -(loc.address as int), v)
    case Register => SetRegister(m, loc.address, v)
    case Bytepool =>
      if v.vtype != Integer then Err(NotInteger)
      else SetBytepool(m, loc.address, LowByte(v.integer))
    case NoSection => Err(InvalidSection)
  }

  /** The write as Logic.cpp:267-277 is written: the FRAME case has no
      `break`, so after storing the frame slot it also runs the FRAME_BACK
      case and stores the value at the negated offset as well. */
  function WriteAsWritten(m: Mmu, loc: Loc, v: Value): (r: Result<Mmu>)
    ensures loc.section != Frame ==> r == Write(m, loc, v)
    ensures loc.section == Frame ==>
              (r.Ok? <==> m.frameBase + loc.address < |Stack(m)| && loc.address <= m.frameBase)
    ensures loc.section == Frame && r.Ok? ==>
              r.value == WithStack(m, Stack(m)[m.frameBase + loc.address := v][m.frameBase - loc.address := v])
  {
    if loc.section == Frame then
      var m1 :- SetStackFrame(m, loc.address, v);
      SetStackFrame(m1, -(loc.address as int), v)
    else Write(m, loc, v)
  }

  /** Scenario: a three-slot stack with the frame base in the middle. Writing
      frame slot 1 should leave the caller's parameter (slot -1) alone; as
      written it overwrites it too. */
  lemma FrameWriteFallsThrough(m: Mmu, a: Value, b: Value, c: Value, v: Value)
    requires m.frameBase == 1 && Stack(m) == [a, b, c] && a != v
    ensures Write(m, Loc(Frame, 1), v).Ok?
    ensures AStackFrame(Write(m, Loc(Frame, 1), v).value, -1) == Ok(a)
    ensures WriteAsWritten(m, Loc(Frame, 1), v).Ok?
    ensures AStackFrame(WriteAsWritten(m, Loc(Frame, 1), v).value, -1) == Ok(v)
  {
  }

  /** The FRAME write as written agrees with the intended one exactly when
      the extra store is harmless: the offset is 0, or the caller's slot at
      the negated offset exists and already holds the value. */
  lemma FrameWriteAgreement(m: Mmu, a: nat, v: Value)
    requires Write(m, Loc(Frame, a), v).Ok?
    ensures WriteAsWritten(m, Loc(Frame, a), v) == Write(m, Loc(Frame, a), v)
            <==> a == 0 || (a <= m.frameBase && Stack(m)[m.frameBase - a] == v)
  {
    var s := Stack(m);
    var i := m.frameBase + a;
    var wm := Write(m, Loc(Frame, a), v).value;
    if a == 0 {
      assert s[i := v][i := v] == s[i := v];
    } else if a <= m.frameBase {
      var j := m.frameBase - a;
      var wa := WriteAsWritten(m, Loc(Frame, a), v).value;
      if Stack(m)[j] == v {
        assert s[i := v][j := v] == s[i := v];
      } else {
        assert Stack(wm)[j] != Stack(wa)[j];
      }
    } else {
      assert WriteAsWritten(m, Loc(Frame, a), v).Err?;
    }
  }

  /** Changes a location's type tag: only DATA slots change; a register
      keeps its value (warning only); CODE, stack and bytepool refuse. */
  function UpdateType(m: Mmu, loc: Loc, t: ValueType): (r: Result<Mmu>)
    ensures r.Ok? <==> (loc.section == Data && AData(m, loc.address).Ok?) || loc.section == Register
    ensures r.Ok? && loc.section == Register ==> r.value == m
    ensures r.Ok? && loc.section == Data ==>
              Read(r.value, loc) == Ok(AData(m, loc.address).value.(vtype := t))
    // Only the tag of that DATA slot changes.
    ensures r.Ok? && loc.section == Data ==>
              m.ctx.buffer in m.buffers
              && var b := m.buffers[m.ctx.buffer];
                 loc.address < |b.data|
                 && r.value == WithBuffer(m, b.(data := b.data[loc.address := b.data[loc.address].(vtype := t)]))
  {
    match loc.section
    case Data =>
      var old_ :- AData(m, loc.address);
      SetData(m, loc.address, old_.(vtype := t))
    case Register => Ok(m)
    case Code => Err(TypeChangeForbidden)
    case Frame => Err(TypeChangeForbidden)
    case FrameBack => Err(TypeChangeForbidden)
    case Bytepool => Err(TypeChangeForbidden)
    case NoSection => Err(InvalidSection)
  }

  // ---------------------------------------------------------------------
  // The value stack
  // ---------------------------------------------------------------------

  function StackTop(m: Mmu): (r: Result<Value>)
    ensures r.Ok? <==> |Stack(m)| > 0
    ensures r.Ok? ==> r.value == Stack(m)[|Stack(m)| - 1]
  {
    if |Stack(m)| > 0 then Ok(Stack(m)[|Stack(m)| - 1]) else Err(OutOfRange)
  }

  function StackPush(m: Mmu, v: Value): (r: Mmu)
    ensures Stack(r) == Stack(m) + [v]
    ensures r.ctx == m.ctx && r.buffers == m.buffers && r.selected == m.selected
  {
    WithStack(m, Stack(m) + [v])
  }

  function StackPop(m: Mmu): (r: Result<(Value, Mmu)>)
    ensures r.Ok? <==> |Stack(m)| > 0
    ensures r.Ok? ==> StackTop(m) == Ok(r.value.0)
    ensures r.Ok? ==> Stack(r.value.1) + [r.value.0] == Stack(m)
    ensures r.Ok? ==> r.value.1.ctx == m.ctx && r.value.1.buffers == m.buffers
  {
    var top :- StackTop(m);
    Ok((top, WithStack(m, Stack(m)[..|Stack(m)| - 1])))
  }

  lemma PushThenTop(m: Mmu, v: Value)
    ensures StackTop(StackPush(m, v)) == Ok(v)
  {
  }

  lemma PushThenPop(m: Mmu, v: Value)
    ensures StackPop(StackPush(m, v)).Ok?
    ensures StackPop(StackPush(m, v)).value.0 == v
    ensures Stack(StackPop(StackPush(m, v)).value.1) == Stack(m)
  {
    var p := StackPop(StackPush(m, v)).value;
    assert Stack(p.1) + [p.0] == Stack(m) + [v];
    assert Stack(p.1) == (Stack(p.1) + [p.0])[..|Stack(m)|];
  }

  // ---------------------------------------------------------------------
  // ExecuteSingleCommand
  // ---------------------------------------------------------------------

  /** What the command set knows of an opcode. */
  datatype Traits = Traits(id: nat, isService: bool)

  /** The interpreter's collaborators: the command set's decoder and
      execution-handle lookup (module 0 is the user override, 0 is the null
      handle), the executor module attached for each value type, and the
      behaviour of running a handle. */
  datatype Dispatch = Dispatch(
    decode: nat -> Option<Traits>,
    handle: (Traits, nat) -> nat,
    executor: ValueType -> Option<nat>,
    run: (Option<nat>, nat, Command, Mmu) -> Result<Mmu>)

  /** The executor kind a command is dispatched to: service commands go to
      the V_MAX executor. */
  function ExecutorKind(t: Traits, c: Command): ValueType
  {
    if t.isService then NoType else c.ctype
  }

  /** Fills a command's dispatch cache, decoding only when the cached handle
      is null. */
  function FillCache(d: Dispatch, c: Command): (r: Result<Command>)
    ensures c.cachedHandle != 0 ==> r == Ok(c)
    ensures r.Ok? ==> r.value.id == c.id && r.value.ctype == c.ctype && r.value.arg == c.arg
    ensures c.cachedHandle == 0 && d.decode(c.id).None? ==> r == Err(UnknownCommand(c.id))
    ensures c.cachedHandle == 0 && d.decode(c.id).Some? && d.handle(d.decode(c.id).value, 0) != 0 ==>
              r.Ok? && r.value.cachedExecutor.None?
              && r.value.cachedHandle == d.handle(d.decode(c.id).value, 0)
    ensures c.cachedHandle == 0 && d.decode(c.id).Some? && d.handle(d.decode(c.id).value, 0) == 0 ==>
              var t := d.decode(c.id).value;
              match d.executor(ExecutorKind(t, c))
              case None => r == Err(NoExecutor)
              case Some(e) => r.Ok? && r.value.cachedExecutor == Some(e)
                              && r.value.cachedHandle == d.handle(t, e)
  {
    if c.cachedHandle != 0 then Ok(c)
    else match d.decode(c.id)
      case None => Err(UnknownCommand(c.id))
      case Some(t) =>
        var user := d.handle(t, 0);
        if user != 0 then Ok(c.(cachedExecutor := None, cachedHandle := user))
        else match d.executor(ExecutorKind(t, c))
          case None => Err(NoExecutor)
          case Some(e) => Ok(c.(cachedExecutor := Some(e), cachedHandle := d.handle(t, e)))
  }

  /** Advances ip by one unless the command exited or jumped. */
  function Advance(m: Mmu): (r: Mmu)
    ensures r == m.(ctx := r.ctx)
    ensures r.ctx == m.ctx.(ip := r.ctx.ip)
    ensures r.ctx.ip == m.ctx.ip + (if FExit !in m.ctx.flags && FWasJump !in m.ctx.flags then 1 else 0)
  {
    if FExit !in m.ctx.flags && FWasJump !in m.ctx.flags then m.(ctx := m.ctx.(ip := m.ctx.ip + 1))
    else m
  }

  function ClearJump(m: Mmu): Mmu
  {
    m.(ctx := m.ctx.(flags := m.ctx.flags - {FWasJump}))
  }

  /** Runs a command whose cache is already filled. */
  function RunCached(d: Dispatch, c: Command, m: Mmu): Result<Mmu>
  {
    var m1 := ClearJump(m);
    if c.cachedHandle == 0 then Ok(m1)
    else
      var m2 :- d.run(c.cachedExecutor, c.cachedHandle, c, SelectStack(m1, c.ctype));
      Ok(Advance(m2))
  }

  /** Executes one command: fill the dispatch cache, clear the jump flag,
      return at once on a null handle, otherwise select the command's stack,
      run it and advance ip unless it exited or jumped. Returns the command
      with its cache filled and the new machine state. */
  function ExecuteSingleCommand(d: Dispatch, c: Command, m: Mmu): (r: Result<(Command, Mmu)>)
    ensures r.Ok? <==> FillCache(d, c).Ok? && RunCached(d, FillCache(d, c).value, m).Ok?
    ensures r.Ok? ==> r.value.0 == FillCache(d, c).value
    ensures r.Ok? && r.value.0.cachedHandle == 0 ==>
              r.value.1 == m.(ctx := m.ctx.(flags := m.ctx.flags - {FWasJump}))
    ensures r.Ok? && r.value.0.cachedHandle != 0 ==>
              var ran := d.run(r.value.0.cachedExecutor, r.value.0.cachedHandle, r.value.0,
                               m.(selected := c.ctype, ctx := m.ctx.(flags := m.ctx.flags - {FWasJump})));
              && ran.Ok?
              && r.value.1 == ran.value.(ctx := r.value.1.ctx)
              && r.value.1.ctx == ran.value.ctx.(ip := r.value.1.ctx.ip)
              && (r.value.1.ctx.ip == ran.value.ctx.ip + 1 <==>
                  FExit !in ran.value.ctx.flags && FWasJump !in ran.value.ctx.flags)
              && (r.value.1.ctx.ip != ran.value.ctx.ip + 1 ==> r.value.1.ctx.ip == ran.value.ctx.ip)
  {
    var filled :- FillCache(d, c);
    var m' :- RunCached(d, filled, m);
    Ok((filled, m'))
  }

  /** The dispatch cache is transparent: executing a command whose cache was
      filled by an earlier execution does exactly what a fresh decode and
      execution does, and decodes nothing. */
  lemma CachedExecutionMatchesFresh(d: Dispatch, c: Command, m: Mmu, m': Mmu)
    requires ExecuteSingleCommand(d, c, m).Ok?
    requires ExecuteSingleCommand(d, c, m).value.0.cachedHandle != 0
    ensures FillCache(d, ExecuteSingleCommand(d, c, m).value.0) == Ok(ExecuteSingleCommand(d, c, m).value.0)
    ensures ExecuteSingleCommand(d, ExecuteSingleCommand(d, c, m).value.0, m') == ExecuteSingleCommand(d, c, m')
  {
  }

  // ---------------------------------------------------------------------
  // ChecksumState
  // ---------------------------------------------------------------------

  /** What the rolling hash is fed: the context record, the section
      limits and each code word in turn. */
  datatype Chunk = ContextChunk(ctx: Context) | LimitsChunk(limits: Limits) | CommandChunk(cmd: Command)

  function RollCode(code: seq<Command>, seed: nat, roll: (Chunk, nat) -> nat): nat
  {
    if |code| == 0 then seed else RollCode(code[1..], roll(CommandChunk(code[0]), seed), roll)
  }

  /** The state checksum of the current buffer: a fold of the rolling hash
      over the context, the limits and the code image up to its limit. */
  function ChecksumState(m: Mmu, roll: (Chunk, nat) -> nat): (r: Result<nat>)
    ensures r.Ok? <==> m.ctx.buffer in m.buffers
  {
    var b :- CurrentBuffer(m);
    var limits := BufferLimits(b);
    var h := roll(LimitsChunk(limits), roll(ContextChunk(m.ctx), 0));
    Ok(RollCode(b.code[..limits.code], h, roll))
  }

  /** The checksum depends on nothing but the context, the section limits
      and the code image: data, registers, bytepool contents, symbols and
      stacks do not enter it, so two calls with no mutation in between (or
      any mutation of those) agree. */
  lemma ChecksumDeterminedByCodeAndContext(m1: Mmu, m2: Mmu, roll: (Chunk, nat) -> nat)
    requires m1.ctx == m2.ctx
    requires m1.ctx.buffer in m1.buffers && m2.ctx.buffer in m2.buffers
    requires BufferLimits(m1.buffers[m1.ctx.buffer]) == BufferLimits(m2.buffers[m2.ctx.buffer])
    requires m1.buffers[m1.ctx.buffer].code == m2.buffers[m2.ctx.buffer].code
    ensures ChecksumState(m1, roll) == ChecksumState(m2, roll)
  {
  }
}
