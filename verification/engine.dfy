/** The processor's public operations: deleting a context buffer, loading a
    program (binary image or assembly stream), executing (precompiled image
    or interpreter), compiling, and merging another context buffer into the
    current one. The reader's decoded units, the native backend and the
    MMU/linker relocation services are collaborators given as data or
    functions. */
module Engine {
  import opened Base
  import opened Machine
  import opened Linker
  import opened Logic

  // ---------------------------------------------------------------------
  // Delete
  // ---------------------------------------------------------------------

  /** Every saved context belongs to buffer `cur`. */
  predicate AllIn(saved: seq<Context>, cur: nat)
  {
    forall i :: 0 <= i < |saved| ==> saved[i].buffer == cur
  }

  /** Restores saved contexts until the current buffer is no longer `cur`;
      at least one context is restored. */
  function PopWhile(m: Mmu, cur: nat): (r: Result<Mmu>)
    ensures r.Ok? <==> !AllIn(m.saved, cur)
    ensures r.Ok? ==> && |r.value.saved| < |m.saved|
                      && r.value.saved == m.saved[..|r.value.saved|]
                      && r.value.ctx == m.saved[|r.value.saved|]
    ensures r.Ok? ==> r.value.ctx.buffer != cur
    ensures r.Ok? ==> AllIn(m.saved[|r.value.saved| + 1..], cur)
    ensures r.Ok? ==> r.value.buffers == m.buffers && r.value.nextBuffer == m.nextBuffer
    decreases |m.saved|
  {
    var m1 :- RestoreCurrentContext(m);
    AllInSnoc(m1.saved, m1.ctx, cur);
    if m1.ctx.buffer == cur then
      var r := PopWhile(m1, cur);
      if r.Ok? then
        SnocSlices(m1.saved, m1.ctx, |r.value.saved|, cur);
        r
      else r
    else
      SnocSlices(m1.saved, m1.ctx, |m1.saved|, cur);
      Ok(m1)
  }

  lemma AllInSnoc(t: seq<Context>, c: Context, cur: nat)
    ensures AllIn(t + [c], cur) <==> AllIn(t, cur) && c.buffer == cur
  {
    if AllIn(t, cur) && c.buffer == cur {
      forall i | 0 <= i < |t + [c]|
        ensures (t + [c])[i].buffer == cur
      {
        if i < |t| {
          assert (t + [c])[i] == t[i];
        }
      }
    }
    if AllIn(t + [c], cur) {
      assert (t + [c])[|t|] == c;
      forall i | 0 <= i < |t|
        ensures t[i].buffer == cur
      {
        assert (t + [c])[i] == t[i];
      }
    }
  }

  /** Slicing `t + [c]` around position `k` of `t` (or at its end). */
  lemma SnocSlices(t: seq<Context>, c: Context, k: nat, cur: nat)
    requires k <= |t|
    ensures (t + [c])[..k] == t[..k]
    ensures k < |t| ==> (t + [c])[k] == t[k]
    ensures k == |t| ==> (t + [c])[k] == c && (t + [c])[k + 1..] == []
    ensures k < |t| ==> (t + [c])[k + 1..] == t[k + 1..] + [c]
    ensures k < |t| && AllIn(t[k + 1..], cur) && c.buffer == cur ==> AllIn((t + [c])[k + 1..], cur)
  {
    if k < |t| {
      assert (t + [c])[k + 1..] == t[k + 1..] + [c];
      AllInSnoc(t[k + 1..], c, cur);
    }
  }

  /** Deletes the current context buffer: the base buffer cannot be
      deleted; saved contexts are restored until one belongs to another
      buffer, and the deleted buffer is released. */
  function Delete(m: Mmu): (r: Result<Mmu>)
    ensures m.ctx.buffer == 0 ==> r == Err(DeleteBaseBuffer)
    ensures m.ctx.buffer != 0 ==> (r.Ok? <==> !AllIn(m.saved, m.ctx.buffer))
    ensures r.Ok? ==> r.value.ctx.buffer != m.ctx.buffer
    ensures r.Ok? ==> r.value.saved + [r.value.ctx] <= m.saved
    ensures r.Ok? ==> AllIn(m.saved[|r.value.saved| + 1..], m.ctx.buffer)
    ensures r.Ok? ==> r.value.buffers == m.buffers - {m.ctx.buffer}
  {
    if m.ctx.buffer == 0 then Err(DeleteBaseBuffer)
    else
      var m1 :- PopWhile(m, m.ctx.buffer);
      Ok(m1.(buffers := m1.buffers - {m.ctx.buffer}))
  }

  // ---------------------------------------------------------------------
  // Load
  // ---------------------------------------------------------------------

  /** A section of a binary image: a symbol map with its declared record
      count, or records for one of the image sections. */
  datatype BinarySection = SymbolSection(declared: nat, symbols: SymbolMap) | ImageSection(records: Records)

  /** One unit of a decoded stream: the symbols it mentions and the
      commands, data and bytepool bytes it contributes. */
  datatype DecodedUnit = DecodedUnit(mentioned: SymbolMap, commands: seq<Command>, data: seq<Value>,
                                     bytepool: seq<SByte>)

  /** What the reader finds in a file. */
  datatype FileContents = BinaryFile(sections: seq<BinarySection>) | StreamFile(units: seq<DecodedUnit>)
                        | NonUniformFile

  function LimitsPlus(a: Limits, b: Limits): Limits
  {
    Limits(a.code + b.code, a.data + b.data, a.bytepool + b.bytepool)
  }

  function UnitSize(u: DecodedUnit): Limits
  {
    Limits(|u.commands|, |u.data|, |u.bytepool|)
  }

  /** Section growth over a whole stream. */
  function Totals(units: seq<DecodedUnit>): Limits
  {
    if |units| == 0 then Limits(0, 0, 0) else LimitsPlus(UnitSize(units[0]), Totals(units[1..]))
  }

  function AllCommands(units: seq<DecodedUnit>): seq<Command>
  {
    if |units| == 0 then [] else units[0].commands + AllCommands(units[1..])
  }

  function AllData(units: seq<DecodedUnit>): seq<Value>
  {
    if |units| == 0 then [] else units[0].data + AllData(units[1..])
  }

  function AllBytes(units: seq<DecodedUnit>): seq<SByte>
  {
    if |units| == 0 then [] else units[0].bytepool + AllBytes(units[1..])
  }

  /** Links one unit's mentioned symbols into the session; a unit that
      mentions none leaves the session alone. */
  function LinkUnit(u: DecodedUnit, temp: SymbolMap, limits: Limits): (r: Result<SymbolMap>)
    ensures |u.mentioned| == 0 ==> r == Ok(temp)
    ensures r.Ok? ==> r.value.Keys == temp.Keys + u.mentioned.Keys
  {
    if |u.mentioned| > 0 then LinkSymbols(u.mentioned, temp, limits) else Ok(temp)
  }

  /** The link session of a stream, independent of the MMU: unit `i` is
      linked against the section sizes reached before it, that is `base`
      plus the sizes of the units before it. */
  function LinkAll(units: seq<DecodedUnit>, temp: SymbolMap, base: Limits): Result<SymbolMap>
  {
    if |units| == 0 then Ok(temp)
    else
      var u := units[0];
      var t :- LinkUnit(u, temp, base);
      LinkAll(units[1..], t, LimitsPlus(base, UnitSize(u)))
  }

  /** Appends a unit's commands, data and bytepool bytes, each section
      only when it is non-empty; together they extend the current buffer's
      three images by the unit's contents. */
  function AppendUnit(m: Mmu, u: DecodedUnit): (r: Mmu)
    requires m.ctx.buffer in m.buffers
    ensures var b := m.buffers[m.ctx.buffer];
            r == WithBuffer(m, b.(code := b.code + u.commands, data := b.data + u.data,
                                  bytepool := b.bytepool + u.bytepool))
  {
    var b := m.buffers[m.ctx.buffer];
    var m1 := if |u.commands| > 0 then AppendSection(m, CodeRecords(u.commands)).value else m;
    assert m1 == WithBuffer(m, b.(code := b.code + u.commands)) by {
      if |u.commands| == 0 {
        assert b.code + u.commands == b.code;
      }
    }
    var m2 := if |u.data| > 0 then AppendSection(m1, DataRecords(u.data)).value else m1;
    assert m2 == WithBuffer(m, b.(code := b.code + u.commands, data := b.data + u.data)) by {
      if |u.data| == 0 {
        assert b.data + u.data == b.data;
      }
    }
    var m3 := if |u.bytepool| > 0 then AppendSection(m2, BytepoolRecords(u.bytepool)).value else m2;
    assert m3 == WithBuffer(m, b.(code := b.code + u.commands, data := b.data + u.data,
                                  bytepool := b.bytepool + u.bytepool)) by {
      if |u.bytepool| == 0 {
        assert b.bytepool + u.bytepool == b.bytepool;
      }
    }
    m3
  }

  /** A buffer whose three images are extended by a stream's contents. */
  function Grown(b: Buffer, units: seq<DecodedUnit>): Buffer
  {
    b.(code := b.code + AllCommands(units), data := b.data + AllData(units),
       bytepool := b.bytepool + AllBytes(units))
  }

  lemma GrownStep(b: Buffer, units: seq<DecodedUnit>)
    requires |units| > 0
    ensures var u := units[0];
            Grown(b.(code := b.code + u.commands, data := b.data + u.data,
                     bytepool := b.bytepool + u.bytepool), units[1..]) == Grown(b, units)
  {
    var u := units[0];
    assert b.code + u.commands + AllCommands(units[1..]) == b.code + AllCommands(units);
    assert b.data + u.data + AllData(units[1..]) == b.data + AllData(units);
    assert b.bytepool + u.bytepool + AllBytes(units[1..]) == b.bytepool + AllBytes(units);
  }

  /** Links each unit's symbols against the current limits, then appends
      its commands, data and bytepool bytes, for every unit in order. */
  function LoadStream(m: Mmu, units: seq<DecodedUnit>, temp: SymbolMap): (r: Result<(Mmu, SymbolMap)>)
    requires m.ctx.buffer in m.buffers
    ensures var link := LinkAll(units, temp, BufferLimits(m.buffers[m.ctx.buffer]));
            && (r.Ok? <==> link.Ok?)
            && (r.Ok? ==> r.value.1 == link.value)
    ensures r.Ok? ==> r.value.0.buffers == m.buffers[m.ctx.buffer := Grown(m.buffers[m.ctx.buffer], units)]
    ensures r.Ok? ==> r.value.0.ctx == m.ctx && r.value.0.saved == m.saved && r.value.0.nextBuffer == m.nextBuffer
    decreases |units|
  {
    if |units| == 0 then
      assert Grown(m.buffers[m.ctx.buffer], units) == m.buffers[m.ctx.buffer];
      Ok((m, temp))
    else
      var u := units[0];
      var b := m.buffers[m.ctx.buffer];
      match LinkUnit(u, temp, BufferLimits(b))
      case Err(e) => Err(e)
      case Ok(t) =>
        var m1 := AppendUnit(m, u);
        LoadStreamStep(m, units, temp);
        LoadStream(m1, units[1..], t)
  }

  /** One unit of LoadStream: after appending it, the rest of the stream is
      linked from the grown limits and grows the buffer the rest of the
      way. */
  lemma LoadStreamStep(m: Mmu, units: seq<DecodedUnit>, temp: SymbolMap)
    requires m.ctx.buffer in m.buffers && |units| > 0
    requires LinkUnit(units[0], temp, BufferLimits(m.buffers[m.ctx.buffer])).Ok?
    ensures var b := m.buffers[m.ctx.buffer];
            var m1 := AppendUnit(m, units[0]);
            var t := LinkUnit(units[0], temp, BufferLimits(b)).value;
            && m1.ctx == m.ctx && m1.saved == m.saved && m1.nextBuffer == m.nextBuffer
            && m.ctx.buffer in m1.buffers
            && LinkAll(units, temp, BufferLimits(b)) == LinkAll(units[1..], t, BufferLimits(m1.buffers[m.ctx.buffer]))
            && m1.buffers[m.ctx.buffer := Grown(m1.buffers[m.ctx.buffer], units[1..])]
               == m.buffers[m.ctx.buffer := Grown(b, units)]
  {
    var u := units[0];
    var b := m.buffers[m.ctx.buffer];
    var m1 := AppendUnit(m, u);
    assert BufferLimits(m1.buffers[m.ctx.buffer]) == LimitsPlus(BufferLimits(b), UnitSize(u));
    GrownStep(b, units);
  }

  /** The symbols a sequence of binary sections leaves: those of the last
      symbol section, or `syms` when there is none. */
  function LastSymbols(secs: seq<BinarySection>, syms: SymbolMap): SymbolMap
  {
    if |secs| == 0 then syms
    else LastSymbols(secs[1..], if secs[0].SymbolSection? then secs[0].symbols else syms)
  }

  /** Reads binary sections in order: a symbol section must hold the number
      of records it declares and replaces the symbol image; any other
      section is appended to its image. */
  function LoadBinary(m: Mmu, secs: seq<BinarySection>): (r: Result<Mmu>)
    requires m.ctx.buffer in m.buffers
    ensures r.Ok? <==> forall i :: 0 <= i < |secs| ==>
                         match secs[i]
                         case SymbolSection(n, syms) => |syms| == n
                         case ImageSection(rs) => !rs.VirtualRecords?
    ensures r.Ok? ==> r.value.ctx == m.ctx && r.value.saved == m.saved
                      && r.value.buffers.Keys == m.buffers.Keys
    ensures r.Ok? ==> r.value.buffers[m.ctx.buffer].symbols
                      == LastSymbols(secs, m.buffers[m.ctx.buffer].symbols)
    ensures r.Ok? ==> forall id :: id in m.buffers && id != m.ctx.buffer ==>
                        r.value.buffers[id] == m.buffers[id]
    decreases |secs|
  {
    if |secs| == 0 then Ok(m)
    else
      var b := m.buffers[m.ctx.buffer];
      var m1 :- match secs[0]
                case SymbolSection(n, syms) =>
                  if |syms| != n then Err(SymbolMapSize) else Ok(WithBuffer(m, b.(symbols := syms)))
                case ImageSection(rs) => AppendSection(m, rs);
      var r :- LoadBinary(m1, secs[1..]);
      assert forall i :: 1 <= i < |secs| ==> secs[i] == secs[1..][i - 1];
      Ok(r)
  }

  /** Loads a program into a fresh buffer: allocate and switch to it before
      reading anything; a binary image fills the sections directly; a
      stream is linked unit by unit and committed once at the end; a
      non-uniform file is not supported. */
  function Load(m: Mmu, reader: Option<FileContents>): (r: Result<Mmu>)
    requires forall id :: id in m.buffers ==> id < m.nextBuffer
    ensures reader.None? ==> r == Err(ReaderMissing)
    ensures reader == Some(NonUniformFile) ==> r == Err(NotImplemented)
    ensures r.Ok? ==> m.nextBuffer !in m.buffers && m.nextBuffer in r.value.buffers
                      && r.value.ctx.buffer == m.nextBuffer && r.value.ctx.ip == 0
                      && r.value.saved == m.saved + [m.ctx]
    ensures r.Ok? ==> forall id :: id in m.buffers ==> id in r.value.buffers && r.value.buffers[id] == m.buffers[id]
    ensures reader.Some? && reader.value.StreamFile? ==>
              var units := reader.value.units;
              var linked := LinkAll(units, InitLinkSession, Limits(0, 0, 0));
              && (r.Ok? <==> linked.Ok? && Finalize(linked.value, Totals(units)).Pass?)
              && (r.Ok? ==> r.value.buffers[m.nextBuffer]
                              == Grown(EmptyBuffer, units).(symbols := linked.value))
  {
    var created := AllocateContextBuffer(m);
    var m1 := SwitchToContextBuffer(created.0, created.1);
    match reader
    case None => Err(ReaderMissing)
    case Some(BinaryFile(secs)) => LoadBinary(m1, secs)
    case Some(StreamFile(units)) =>
      var loaded :- LoadStream(m1, units, InitLinkSession);
      TotalsAreSizes(units);
      var committed :- Commit(loaded.0, loaded.1);
      Ok(committed.0)
    case Some(NonUniformFile) => Err(NotImplemented)
  }

  lemma {:induction false} TotalsAreSizes(units: seq<DecodedUnit>)
    ensures Totals(units) == Limits(|AllCommands(units)|, |AllData(units)|, |AllBytes(units)|)
  {
    if |units| > 0 {
      TotalsAreSizes(units[1..]);
    }
  }

  /** Unit `i` of a stream is linked against the sizes the units before it
      reached: the link of the whole stream is the link of a prefix
      followed by the link of the rest from the prefix's totals. */
  lemma {:induction false} LinkAllSplits(units: seq<DecodedUnit>, i: nat, temp: SymbolMap, base: Limits)
    requires i <= |units|
    requires LinkAll(units[..i], temp, base).Ok?
    ensures LinkAll(units, temp, base)
            == LinkAll(units[i..], LinkAll(units[..i], temp, base).value, LimitsPlus(base, Totals(units[..i])))
    decreases i
  {
    if i == 0 {
      assert units[..i] == [];
      assert units[i..] == units;
      assert LimitsPlus(base, Totals(units[..i])) == base;
    } else {
      var u := units[0];
      var pre := units[..i];
      var t := LinkUnit(u, temp, base);
      var next := LimitsPlus(base, UnitSize(u));
      assert pre[0] == u;
      assert pre[1..] == units[1..][..i - 1];
      assert t.Ok? && LinkAll(pre, temp, base) == LinkAll(units[1..][..i - 1], t.value, next);
      LinkAllSplits(units[1..], i - 1, t.value, next);
      assert units[1..][i - 1..] == units[i..];
      assert LimitsPlus(next, Totals(units[1..][..i - 1])) == LimitsPlus(base, Totals(pre));
    }
  }

  // ---------------------------------------------------------------------
  // Exec and Compile
  // ---------------------------------------------------------------------

  /** How a precompiled image ends: with a result, or with a failure after
      which the interpreter takes over from the state it left. */
  datatype NativeOutcome = NativeOk(result: Value, after: Mmu) | NativeFailed(after: Mmu)

  /** The native backend: the checksums with a compiled image, running an
      image, and compiling the current state under a checksum. */
  datatype Backend = Backend(images: set<nat>, run: (nat, Mmu) -> NativeOutcome, compile: (nat, Mmu) -> bool)

  datatype Processor = Processor(dispatch: Dispatch, roll: (Chunk, nat) -> nat, backend: Option<Backend>)

  /** Writes a command (with its dispatch cache now filled) back to its
      slot in buffer `buf`. */
  function StoreCommand(m: Mmu, buf: nat, ip: nat, c: Command): (r: Mmu)
    ensures r.ctx == m.ctx && r.saved == m.saved && r.stacks == m.stacks && r.selected == m.selected
    ensures r.buffers.Keys == m.buffers.Keys
    ensures buf in m.buffers && ip < |m.buffers[buf].code| ==>
              |r.buffers[buf].code| == |m.buffers[buf].code| && r.buffers[buf].code[ip] == c
  {
    if buf in m.buffers && ip < |m.buffers[buf].code| then
      m.(buffers := m.buffers[buf := m.buffers[buf].(code := m.buffers[buf].code[ip := c])])
    else m
  }

  /** One turn of the interpreter loop: fetch the command at ip, execute
      it, and store it back with its dispatch cache filled. A failed fetch
      or a failed execution is the step's error. */
  function Step(d: Dispatch, m: Mmu): (r: Result<Mmu>)
    ensures ACommand(m, m.ctx.ip).Err? ==> r == Err(ACommand(m, m.ctx.ip).error)
    ensures ACommand(m, m.ctx.ip).Ok? ==>
              var e := ExecuteSingleCommand(d, ACommand(m, m.ctx.ip).value, m);
              && (r.Ok? <==> e.Ok?)
              && (e.Err? ==> r == Err(e.error))
              && (r.Ok? ==>
                    && r.value.ctx == e.value.1.ctx
                    && r.value.stacks == e.value.1.stacks
                    && r.value.buffers.Keys == e.value.1.buffers.Keys
                    && (m.ctx.buffer in e.value.1.buffers && m.ctx.ip < |e.value.1.buffers[m.ctx.buffer].code| ==>
                          && |r.value.buffers[m.ctx.buffer].code| == |e.value.1.buffers[m.ctx.buffer].code|
                          && r.value.buffers[m.ctx.buffer].code[m.ctx.ip] == e.value.0))
  {
    var c :- ACommand(m, m.ctx.ip);
    var step :- ExecuteSingleCommand(d, c, m);
    Ok(StoreCommand(step.1, m.ctx.buffer, m.ctx.ip, step.0))
  }

  /** The state after `n` steps from `m`, or the first step's error. */
  function Run(d: Dispatch, m: Mmu, n: nat): Result<Mmu>
    decreases n
  {
    if n == 0 then Ok(m)
    else
      var next :- Step(d, m);
      Run(d, next, n - 1)
  }

  /** The interpreter loop: execute the command at ip until the exit flag
      is set. An error in a step ends the run with that error. `fuel`
      bounds the number of steps. */
  function Interpret(d: Dispatch, m: Mmu, fuel: nat): (r: Result<Mmu>)
    ensures FExit in m.ctx.flags ==> r == Ok(m)
    ensures r.Ok? ==> FExit in r.value.ctx.flags
    ensures FExit !in m.ctx.flags && fuel > 0 && Step(d, m).Err? ==> r == Err(Step(d, m).error)
    decreases fuel
  {
    if FExit in m.ctx.flags then Ok(m)
    else if fuel == 0 then Err(OutOfFuel)
    else
      var next :- Step(d, m);
      Interpret(d, next, fuel - 1)
  }

  /** Whether the first `n` steps from `m` all succeed without raising the
      exit flag, so the loop goes on past each of them. */
  predicate RunsOn(d: Dispatch, m: Mmu, n: nat)
  {
    forall k :: 0 <= k < n ==> Run(d, m, k).Ok? && FExit !in Run(d, m, k).value.ctx.flags
  }

  lemma RunAfterStep(d: Dispatch, m: Mmu, next: Mmu, k: nat)
    requires Step(d, m) == Ok(next)
    ensures Run(d, m, k + 1) == Run(d, next, k)
  {
  }

  /** A run of the loop that ends normally is a run of `n` steps, within
      the fuel, none of which but the last leaves the exit flag raised. */
  lemma {:induction false} InterpretIsRun(d: Dispatch, m: Mmu, fuel: nat)
    requires Interpret(d, m, fuel).Ok?
    ensures exists n: nat :: n <= fuel && Run(d, m, n) == Interpret(d, m, fuel) && RunsOn(d, m, n)
    decreases fuel
  {
    if FExit in m.ctx.flags {
      assert Run(d, m, 0) == Interpret(d, m, fuel);
      assert RunsOn(d, m, 0);
    } else {
      var next := Step(d, m).value;
      InterpretIsRun(d, next, fuel - 1);
      var n: nat :| n <= fuel - 1 && Run(d, next, n) == Interpret(d, next, fuel - 1) && RunsOn(d, next, n);
      RunAfterStep(d, m, next, n);
      forall k | 0 <= k < n + 1
        ensures Run(d, m, k).Ok? && FExit !in Run(d, m, k).value.ctx.flags
      {
        if k > 0 {
          RunAfterStep(d, m, next, k - 1);
        }
      }
      assert Run(d, m, n + 1) == Interpret(d, m, fuel);
    }
  }

  /** Conversely, `n` steps that keep going and then raise the exit flag
      are what the loop computes with any fuel of at least `n`. */
  lemma {:induction false} RunIsInterpret(d: Dispatch, m: Mmu, n: nat, fuel: nat)
    requires n <= fuel && RunsOn(d, m, n)
    requires Run(d, m, n).Ok? && FExit in Run(d, m, n).value.ctx.flags
    ensures Interpret(d, m, fuel) == Run(d, m, n)
    decreases n
  {
    if n > 0 {
      assert Run(d, m, 0).Ok? && FExit !in Run(d, m, 0).value.ctx.flags;
      var next := Step(d, m).value;
      RunAfterStep(d, m, next, n - 1);
      forall k | 0 <= k < n - 1
        ensures Run(d, next, k).Ok? && FExit !in Run(d, next, k).value.ctx.flags
      {
        RunAfterStep(d, m, next, k);
        assert Run(d, m, k + 1).Ok? && FExit !in Run(d, m, k + 1).value.ctx.flags;
      }
      RunIsInterpret(d, next, n - 1, fuel - 1);
    }
  }

  /** A run that finishes within some fuel finishes the same way with any
      more fuel: the fuel bound does not change what the loop computes. */
  lemma {:induction false} InterpretMoreFuel(d: Dispatch, m: Mmu, f: nat, g: nat)
    requires Interpret(d, m, f).Ok? && f <= g
    ensures Interpret(d, m, g) == Interpret(d, m, f)
    decreases f
  {
    if FExit !in m.ctx.flags {
      InterpretMoreFuel(d, Step(d, m).value, f - 1, g - 1);
    }
  }

  /** The interpreter's result: the top of the selected stack, or an
      uninitialised value when the stack is empty. */
  function ResultValue(m: Mmu): (v: Value)
    ensures |Stack(m)| > 0 ==> StackTop(m) == Ok(v)
    ensures |Stack(m)| == 0 ==> v == Uninitialised
  {
    if |Stack(m)| > 0 then StackTop(m).value else Uninitialised
  }

  function InterpretFrom(d: Dispatch, m: Mmu, fuel: nat): Result<(Value, Mmu)>
  {
    var done :- Interpret(d, m, fuel);
    Ok((ResultValue(done), done))
  }

  /** Whether Exec runs a precompiled image for `m`. */
  predicate UsesNative(p: Processor, m: Mmu)
  {
    && p.backend.Some?
    && ChecksumState(m, p.roll).Ok?
    && ChecksumState(m, p.roll).value in p.backend.value.images
  }

  /** Executes the current buffer: a precompiled image is run only when a
      backend is attached and has an image for the state's checksum; if the
      image fails, the interpreter runs from the state it left; the
      interpreter's result is the stack top or an uninitialised value. */
  function Exec(p: Processor, m: Mmu, fuel: nat): (r: Result<(Value, Mmu)>)
    ensures m.ctx.buffer !in m.buffers ==> r.Err?
    ensures !UsesNative(p, m) && m.ctx.buffer in m.buffers ==> r == InterpretFrom(p.dispatch, m, fuel)
    ensures UsesNative(p, m) ==>
              match p.backend.value.run(ChecksumState(m, p.roll).value, m)
              case NativeOk(v, after) => r == Ok((v, after))
              case NativeFailed(after) => r == InterpretFrom(p.dispatch, after, fuel)
    ensures r.Ok? && !UsesNative(p, m) ==>
              FExit in r.value.1.ctx.flags && r.value.0 == ResultValue(r.value.1)
  {
    var chk :- ChecksumState(m, p.roll);
    if p.backend.Some? && chk in p.backend.value.images then
      match p.backend.value.run(chk, m)
      case NativeOk(v, after) => Ok((v, after))
      case NativeFailed(after) => InterpretFrom(p.dispatch, after, fuel)
    else InterpretFrom(p.dispatch, m, fuel)
  }

  /** Compiles the current state under its checksum. Failures never
      propagate: with no backend, no buffer or a failed compilation the
      backend is left as it was. */
  function Compile(p: Processor, m: Mmu): (r: Option<Backend>)
    ensures r.None? <==> p.backend.None?
    ensures r.Some? ==> r.value.run == p.backend.value.run && r.value.compile == p.backend.value.compile
    ensures r.Some? ==> p.backend.value.images <= r.value.images
    ensures r.Some? ==> r.value.images - p.backend.value.images <= (if ChecksumState(m, p.roll).Ok? then {ChecksumState(m, p.roll).value} else {})
    ensures r.Some? && ChecksumState(m, p.roll).Ok? ==>
              (ChecksumState(m, p.roll).value in r.value.images
               <==> ChecksumState(m, p.roll).value in p.backend.value.images
                    || p.backend.value.compile(ChecksumState(m, p.roll).value, m))
  {
    match p.backend
    case None => None
    case Some(b) =>
      match ChecksumState(m, p.roll)
      case Err(_) => Some(b)
      case Ok(chk) => if b.compile(chk, m) then Some(b.(images := b.images + {chk})) else Some(b)
  }

  /** A successful compilation is used by the next execution of the same
      state: the checksum is recomputed identically and finds the image. */
  lemma CompileThenExecUsesImage(p: Processor, m: Mmu)
    requires p.backend.Some? && m.ctx.buffer in m.buffers
    requires p.backend.value.compile(ChecksumState(m, p.roll).value, m)
    ensures UsesNative(p.(backend := Compile(p, m)), m)
  {
  }

  // ---------------------------------------------------------------------
  // MergeWithContext
  // ---------------------------------------------------------------------

  /** The MMU and linker services a merge relies on: moving the
      destination's images up by the source's sizes, relocating the
      destination's symbols by the same amounts, pasting the source's images
      into the freed space, and adding the source's symbols to a link
      session. */
  datatype MergeServices = MergeServices(
    shiftImages: (Mmu, Limits) -> Mmu,
    relocate: (Mmu, Limits) -> Mmu,
    paste: (Mmu, nat) -> Mmu,
    mergeAdd: (SymbolMap, SymbolMap) -> Result<SymbolMap>)

  /** Switching to a buffer and restoring gives back the state exactly. */
  lemma SwitchRestore(m: Mmu, id: nat)
    ensures RestoreCurrentContext(SwitchToContextBuffer(m, id)) == Ok(m)
  {
    var s := SwitchToContextBuffer(m, id);
    assert s.saved[..|s.saved| - 1] == m.saved;
  }

  /** Merges buffer `source` into the current one: read the source's limits
      and symbols from inside it, return to the destination, shift and
      relocate the destination by the source's limits, paste the source,
      then link the source's symbols in a fresh session and commit. */
  function MergeWithContext(s: MergeServices, m: Mmu, source: nat): (r: Result<Mmu>)
    ensures source !in m.buffers ==> r == Err(NoBuffer)
    ensures source in m.buffers ==>
              var limits := BufferLimits(m.buffers[source]);
              var pasted := s.paste(s.relocate(s.shiftImages(m, limits), limits), source);
              var merged := s.mergeAdd(InitLinkSession, m.buffers[source].symbols);
              && (r.Ok? <==> merged.Ok? && Commit(pasted, merged.value).Ok?)
              && (merged.Err? ==> r == Err(merged.error))
              && (merged.Ok? && Commit(pasted, merged.value).Err? ==> r == Err(Commit(pasted, merged.value).error))
    ensures r.Ok? ==>
              var limits := BufferLimits(m.buffers[source]);
              var pasted := s.paste(s.relocate(s.shiftImages(m, limits), limits), source);
              var merged := s.mergeAdd(InitLinkSession, m.buffers[source].symbols);
              && merged.Ok?
              && Commit(pasted, merged.value).Ok?
              && r.value == Commit(pasted, merged.value).value.0
  {
    var m1 := SwitchToContextBuffer(m, source);
    var limits :- QueryLimits(m1);
    var sourceSymbols := m1.buffers[source].symbols;
    var m2 := RestoreCurrentContext(m1).value;
    SwitchRestore(m, source);
    var m3 := s.relocate(s.shiftImages(m2, limits), limits);
    var m4 := s.paste(m3, source);
    var temp :- s.mergeAdd(InitLinkSession, sourceSymbols);
    var committed :- Commit(m4, temp);
    Ok(committed.0)
  }
}
