/** The symbol linker: merges batches of mentioned symbols into a running
    table keyed by hash (placing AUTO definitions at the current CODE/DATA
    size), resolves alias chains, and validates and commits the table.
    Tables are visited in ascending key order, as an ordered map iterates,
    so the error reported is the one of the least offending key. */
module Linker {
  import opened Base
  import opened Machine

  function Get(t: SymbolMap, k: Hash): (r: Option<Symbol>)
    ensures r.Some? <==> k in t
    ensures r.Some? ==> r.value == t[k]
  {
    if k in t then Some(t[k]) else None
  }

  /** The sections an explicit address may name in a definition. */
  predicate Addressable(s: Section)
  {
    s in {Code, Data, Register, Frame, FrameBack}
  }

  // ---------------------------------------------------------------------
  // LinkSymbols
  // ---------------------------------------------------------------------

  /** Address assignment for a definition: an alias must name a symbol of
      the same batch; AUTO placement puts CODE labels at the text size and
      DATA labels at the data size; anything else keeps its explicit
      address, and a non-placeable kind cannot be auto-assigned. */
  function Place(batch: SymbolMap, s: Symbol, limits: Limits): (r: Result<Symbol>)
    ensures r.Ok? ==> r.value.hash == s.hash && r.value.resolved == s.resolved
    ensures s.ref.Alias? ==> (r.Ok? <==> s.ref.target in batch) && (r.Ok? ==> r.value == s)
    ensures s.ref == Direct(Code, Auto) ==> r == Ok(s.(ref := Direct(Code, At(limits.code))))
    ensures s.ref == Direct(Data, Auto) ==> r == Ok(s.(ref := Direct(Data, At(limits.data))))
    ensures (s.ref.Direct? && s.ref.addr.Auto? && s.ref.section in {Register, Frame, FrameBack})
              ==> r == Err(AutoPlacementForbidden(s.hash))
    ensures s.ref.Direct? && s.ref.addr.At? ==>
              (r.Ok? <==> Addressable(s.ref.section)
                          && (s.ref.section == Register ==> s.ref.addr.n < RegisterCount))
    ensures s.ref.Direct? && s.ref.section == Register && s.ref.addr.At? && s.ref.addr.n >= RegisterCount ==>
              r == Err(BadRegisterId(s.ref.addr.n))
    ensures s.ref.Direct? && s.ref.addr.At? && r.Ok? ==> r.value == s
  {
    match s.ref
    case Alias(t) =>
      if t in batch then Ok(s) else Err(AliasTargetNotInBatch(t))
    case Direct(sec, At(n)) =>
      if !Addressable(sec) then Err(InvalidSection)
      // The debug message names the register through EncodeRegister, whose
      // assertion rejects an id past the register file.
      else if sec == Register && n >= RegisterCount then Err(BadRegisterId(n))
      else Ok(s)
    case Direct(sec, Auto) =>
      match sec
      case Code => Ok(s.(ref := Direct(Code, At(limits.code))))
      case Data => Ok(s.(ref := Direct(Data, At(limits.data))))
      case Register => Err(AutoPlacementForbidden(s.hash))
      case Frame => Err(AutoPlacementForbidden(s.hash))
      case FrameBack => Err(AutoPlacementForbidden(s.hash))
      case _ => Err(InvalidSection)
  }

  /** The table entry for batch key `k` after it is merged with the
      `existing` entry: a definition replaces a usage-only record and fails
      on an already-resolved one; a usage leaves an existing entry alone; a
      never-seen symbol is inserted (placed, if it is a definition). */
  function LinkEntry(batch: SymbolMap, k: Hash, existing: Option<Symbol>, limits: Limits): (r: Result<Symbol>)
    requires k in batch
    ensures batch[k].hash != k ==> r == Err(InputInconsistent(k))
    ensures batch[k].hash == k && !batch[k].resolved ==>
              r == Ok(if existing.Some? then existing.value else batch[k])
    ensures batch[k].hash == k && batch[k].resolved ==>
              r == (if Place(batch, batch[k], limits).Err? then Place(batch, batch[k], limits)
                    else if existing.Some? && existing.value.resolved then Err(Redefinition(k))
                    else Place(batch, batch[k], limits))
  {
    var s := batch[k];
    if s.hash != k then Err(InputInconsistent(k))
    else if s.resolved then
      var placed :- Place(batch, s, limits);
      if existing.Some? && existing.value.resolved then Err(Redefinition(k)) else Ok(placed)
    else if existing.Some? then Ok(existing.value)
    else Ok(s)
  }

  /** Processes the `pending` batch keys in ascending order. */
  function LinkFrom(batch: SymbolMap, pending: set<Hash>, cur: SymbolMap, limits: Limits): Result<SymbolMap>
    requires pending <= batch.Keys
    decreases pending
  {
    if pending == {} then Ok(cur)
    else
      var k := MinKey(pending);
      var e :- LinkEntry(batch, k, Get(cur, k), limits);
      LinkFrom(batch, pending - {k}, cur[k := e], limits)
  }

  lemma {:induction false} LinkFromSpec(batch: SymbolMap, pending: set<Hash>, cur: SymbolMap,
                                        temp: SymbolMap, limits: Limits)
    requires pending <= batch.Keys
    requires forall k :: k in pending ==> Get(cur, k) == Get(temp, k)
    ensures var r := LinkFrom(batch, pending, cur, limits);
      && (r.Ok? <==> forall k :: k in pending ==> LinkEntry(batch, k, Get(temp, k), limits).Ok?)
      && (r.Ok? ==> r.value.Keys == cur.Keys + pending)
      && (r.Ok? ==> forall k :: k in pending ==> r.value[k] == LinkEntry(batch, k, Get(temp, k), limits).value)
      && (r.Ok? ==> forall k :: k in cur && k !in pending ==> r.value[k] == cur[k])
      && (r.Err? ==> exists k :: k in pending && LinkEntry(batch, k, Get(temp, k), limits).Err?
                       && r.error == LinkEntry(batch, k, Get(temp, k), limits).error
                       && forall j :: j in pending && j < k ==> LinkEntry(batch, j, Get(temp, j), limits).Ok?)
    decreases pending
  {
    if pending != {} {
      var k := MinKey(pending);
      var e := LinkEntry(batch, k, Get(cur, k), limits);
      if e.Ok? {
        var cur' := cur[k := e.value];
        forall j | j in pending - {k}
          ensures Get(cur', j) == Get(temp, j)
        {
          assert j != k;
        }
        LinkFromSpec(batch, pending - {k}, cur', temp, limits);
      }
    }
  }

  /** LinkSymbols (DirectLink_Add): merges one batch of mentioned symbols
      into the running table `temp`, placing AUTO definitions against the
      section sizes `limits` taken by the caller. */
  function LinkSymbols(batch: SymbolMap, temp: SymbolMap, limits: Limits): (r: Result<SymbolMap>)
    ensures r.Ok? <==> forall k :: k in batch ==> LinkEntry(batch, k, Get(temp, k), limits).Ok?
    ensures r.Ok? ==> r.value.Keys == temp.Keys + batch.Keys
    ensures r.Ok? ==> forall k :: k in batch ==> r.value[k] == LinkEntry(batch, k, Get(temp, k), limits).value
    ensures r.Ok? ==> forall k :: k in temp && k !in batch ==> r.value[k] == temp[k]
    ensures r.Err? ==> exists k :: k in batch && LinkEntry(batch, k, Get(temp, k), limits).Err?
                         && r.error == LinkEntry(batch, k, Get(temp, k), limits).error
                         && forall j :: j in batch && j < k ==> LinkEntry(batch, j, Get(temp, j), limits).Ok?
  {
    LinkFromSpec(batch, batch.Keys, temp, temp, limits);
    LinkFrom(batch, batch.Keys, temp, limits)
  }

  /** InitLinkSession (DirectLink_Init): the running table starts empty. */
  const InitLinkSession: SymbolMap := map[]

  // ---------------------------------------------------------------------
  // Resolve
  // ---------------------------------------------------------------------

  /** Follows alias links through `table` to a direct reference. A missing
      or unresolved symbol on the chain fails. Coming back to a hash already
      followed means the source's loop would never end: that outcome is
      reported as NonTerminating. */
  function Resolve(table: SymbolMap, ref: Reference, visited: set<Hash>): (r: Result<Reference>)
    ensures r.Ok? ==> r.value.Direct?
    ensures ref.Direct? ==> r == Ok(ref)
    ensures ref.Alias? && ref.target !in table ==> r == Err(SymbolNotFound(ref.target))
    ensures ref.Alias? && ref.target in table && !table[ref.target].resolved ==>
              r == Err(Unresolved(ref.target))
    decreases table.Keys - visited
  {
    match ref
    case Direct(_, _) => Ok(ref)
    case Alias(h) =>
      if h !in table then Err(SymbolNotFound(h))
      else if !table[h].resolved then Err(Unresolved(h))
      else if h in visited then Err(NonTerminating(h))
      else Resolve(table, table[h].ref, visited + {h})
  }

  /** `hs` is an alias chain in `table`: distinct hashes of resolved
      symbols, each aliasing the next. */
  predicate IsChain(table: SymbolMap, hs: seq<Hash>)
  {
    && (forall i :: 0 <= i < |hs| ==> hs[i] in table && table[hs[i]].resolved)
    && (forall i, j :: 0 <= i < j < |hs| ==> hs[i] != hs[j])
    && (forall i :: 0 <= i < |hs| - 1 ==> hs[i] in table && table[hs[i]].ref == Alias(hs[i + 1]))
  }

  /** Resolution follows a whole chain: it ends at the last symbol's direct
      reference, or fails naming the missing or unresolved symbol the last
      one aliases. */
  lemma {:induction false} ResolveFollowsChain(table: SymbolMap, hs: seq<Hash>, visited: set<Hash>)
    requires |hs| > 0 && IsChain(table, hs)
    requires forall i :: 0 <= i < |hs| ==> hs[i] !in visited
    ensures var last := table[hs[|hs| - 1]].ref;
            && (last.Direct? ==> Resolve(table, Alias(hs[0]), visited) == Ok(last))
            && (last.Alias? && last.target !in table ==>
                  Resolve(table, Alias(hs[0]), visited) == Err(SymbolNotFound(last.target)))
            && (last.Alias? && last.target in table && !table[last.target].resolved ==>
                  Resolve(table, Alias(hs[0]), visited) == Err(Unresolved(last.target)))
    decreases |hs|
  {
    var visited' := visited + {hs[0]};
    assert Resolve(table, Alias(hs[0]), visited) == Resolve(table, table[hs[0]].ref, visited');
    if |hs| > 1 {
      var tail := hs[1..];
      assert IsChain(table, tail) by {
        forall i | 0 <= i < |tail| - 1
          ensures tail[i] in table && table[tail[i]].ref == Alias(tail[i + 1])
        {
          assert tail[i] == hs[i + 1] && tail[i + 1] == hs[i + 2];
        }
      }
      forall i | 0 <= i < |tail|
        ensures tail[i] !in visited'
      {
        assert tail[i] == hs[i + 1];
      }
      ResolveFollowsChain(table, tail, visited');
      assert tail[|tail| - 1] == hs[|hs| - 1];
    }
  }

  // ---------------------------------------------------------------------
  // Finalize
  // ---------------------------------------------------------------------

  /** Where a valid alias chain ends, and after how many alias hops. */
  datatype Landing = Landing(section: Section, address: nat, hops: nat)

  /** The bounds check of a terminal direct reference: CODE and DATA
      addresses must lie below the section sizes; REGISTER and stack
      references are not bounds-checked; other kinds are invalid. */
  function CheckDirect(sec: Section, n: nat, limits: Limits): (r: Outcome)
    ensures r.Pass? <==> InBounds(sec, n, limits)
  {
    match sec
    case Code => Need(n < limits.code, BeyondText(n))
    case Data => Need(n < limits.data, BeyondData(n))
    case Register => Need(n < RegisterCount, BadRegisterId(n))
    case Frame => Pass
    case FrameBack => Pass
    case _ => Fail(InvalidSection)
  }

  predicate InBounds(sec: Section, n: nat, limits: Limits)
  {
    && (sec == Code ==> n < limits.code)
    && (sec == Data ==> n < limits.data)
    && (sec == Register ==> n < RegisterCount)
    && sec in {Code, Data, Register, Frame, FrameBack}
  }

  /** The chain walk of one table entry, with the intended cycle check:
      reaching an alias target already followed is circular. */
  function Walk(table: SymbolMap, s: Symbol, visited: set<Hash>, limits: Limits): (r: Result<Landing>)
    requires visited <= table.Keys
    ensures r.Ok? ==> s.resolved
    ensures r.Ok? ==> InBounds(r.value.section, r.value.address, limits)
    ensures r.Ok? && s.ref.Direct? ==> s.ref.addr == At(r.value.address) && s.ref.section == r.value.section
    decreases table.Keys - visited
  {
    if !s.resolved then Err(Unresolved(s.hash))
    else match s.ref
      case Alias(t) =>
        if t !in table then Err(AliasTargetMissing(t))
        else if t in visited then Err(CircularAlias(t))
        else
          var l :- Walk(table, table[t], visited + {t}, limits);
          Ok(l.(hops := l.hops + 1))
      case Direct(sec, Auto) => Err(StubAddress)
      case Direct(sec, At(n)) =>
        match CheckDirect(sec, n, limits)
        case Fail(e) => Err(e)
        case Pass => Ok(Landing(sec, n, 0))
  }

  /** The per-entry check: the stored hash equals the key, then the chain
      walk succeeds. */
  function KeyCheck(table: SymbolMap, k: Hash, limits: Limits): Outcome
    requires k in table
  {
    if table[k].hash != k then Fail(InputInconsistent(k))
    else match Walk(table, table[k], {}, limits)
      case Ok(_) => Pass
      case Err(e) => Fail(e)
  }

  function FinalizeFrom(table: SymbolMap, pending: set<Hash>, limits: Limits): (r: Outcome)
    requires pending <= table.Keys
    ensures r.Pass? <==> forall k :: k in pending ==> KeyCheck(table, k, limits).Pass?
    ensures r.Fail? ==> exists k :: k in pending && KeyCheck(table, k, limits) == r
                          && forall j :: j in pending && j < k ==> KeyCheck(table, j, limits).Pass?
    decreases pending
  {
    if pending == {} then Pass
    else
      var k := MinKey(pending);
      match KeyCheck(table, k, limits)
      case Fail(e) => Fail(e)
      case Pass => FinalizeFrom(table, pending - {k}, limits)
  }

  /** Finalize's validation of the whole table against the current section
      sizes. */
  function Finalize(table: SymbolMap, limits: Limits): (r: Outcome)
    ensures r.Pass? <==> forall k :: k in table ==> KeyCheck(table, k, limits).Pass?
    ensures r.Fail? ==> exists k :: k in table && KeyCheck(table, k, limits) == r
                          && forall j :: j in table && j < k ==> KeyCheck(table, j, limits).Pass?
  {
    FinalizeFrom(table, table.Keys, limits)
  }

  /** Finalize's commit: validate against the current buffer's sizes, then
      move the table into the current buffer and leave the linker empty. */
  function Commit(m: Mmu, table: SymbolMap): (r: Result<(Mmu, SymbolMap)>)
    ensures r.Ok? <==> m.ctx.buffer in m.buffers
                       && Finalize(table, BufferLimits(m.buffers[m.ctx.buffer])).Pass?
    ensures r.Ok? ==> r.value.1 == map[]
    ensures r.Ok? ==> (r.value.0.ctx == m.ctx && r.value.0.saved == m.saved
                       && r.value.0.buffers.Keys == m.buffers.Keys)
    ensures r.Ok? ==> r.value.0.buffers[m.ctx.buffer] == m.buffers[m.ctx.buffer].(symbols := table)
    ensures r.Ok? ==> forall id :: id in m.buffers && id != m.ctx.buffer ==>
                        r.value.0.buffers[id] == m.buffers[id]
  {
    var b :- CurrentBuffer(m);
    match Finalize(table, BufferLimits(b))
    case Fail(e) => Err(e)
    case Pass => Ok((WithBuffer(m, b.(symbols := table)), InitLinkSession))
  }

  // ---------------------------------------------------------------------
  // Finalized tables resolve
  // ---------------------------------------------------------------------

  /** Removing hashes from the visited set can only remove failures. */
  lemma {:induction false} WalkMonotone(table: SymbolMap, s: Symbol, big: set<Hash>, small: set<Hash>,
                                        limits: Limits)
    requires small <= big <= table.Keys
    requires Walk(table, s, big, limits).Ok?
    ensures Walk(table, s, small, limits) == Walk(table, s, big, limits)
    decreases table.Keys - big
  {
    if s.ref.Alias? {
      var t := s.ref.target;
      WalkMonotone(table, table[t], big + {t}, small + {t}, limits);
    }
  }

  function Rank(table: SymbolMap, h: Hash, limits: Limits): nat
    requires h in table
  {
    var w := Walk(table, table[h], {}, limits);
    if w.Ok? then w.value.hops else 0
  }

  lemma {:induction false} ResolveFinalized(table: SymbolMap, h: Hash, visited: set<Hash>, limits: Limits)
    requires forall k :: k in table ==> KeyCheck(table, k, limits).Pass?
    requires h in table
    requires forall w :: w in visited && w in table ==> Rank(table, w, limits) > Rank(table, h, limits)
    ensures Walk(table, table[h], {}, limits).Ok?
    ensures var l := Walk(table, table[h], {}, limits).value;
            Resolve(table, Alias(h), visited) == Ok(Direct(l.section, At(l.address)))
    decreases Rank(table, h, limits)
  {
    assert KeyCheck(table, h, limits).Pass?;
    var l := Walk(table, table[h], {}, limits).value;
    var s := table[h];
    if s.ref.Alias? {
      var t := s.ref.target;
      assert t in table;
      var none: set<Hash> := {};
      assert none + {t} == {t};
      var lt := Walk(table, table[t], {t}, limits);
      assert lt.Ok? && l == lt.value.(hops := lt.value.hops + 1);
      WalkMonotone(table, table[t], {t}, {}, limits);
      assert Rank(table, t, limits) + 1 == Rank(table, h, limits);
      ResolveFinalized(table, t, visited + {h}, limits);
    }
  }

  /** A table accepted by Finalize resolves: from every key the alias chain
      ends, without revisiting a hash, at a direct reference with a concrete
      address inside the section bounds Finalize checked. */
  lemma FinalizedTableResolves(table: SymbolMap, limits: Limits, k: Hash)
    requires Finalize(table, limits).Pass?
    requires k in table
    ensures Resolve(table, Alias(k), {}).Ok?
    ensures var d := Resolve(table, Alias(k), {}).value;
            d.addr.At? && InBounds(d.section, d.addr.n, limits)
  {
    ResolveFinalized(table, k, {}, limits);
  }

  // ---------------------------------------------------------------------
  // The cycle check as written
  // ---------------------------------------------------------------------

  /** The chain walk as Linker.cpp:193-194 writes it: `insert(...).second`
      is true when the target was NOT yet in the visited set, and that value
      is asserted false. The visited set is empty at the first alias hop, so
      the first alias target is always newly inserted and the walk fails. */
  function WalkAsWritten(table: SymbolMap, s: Symbol, limits: Limits): (r: Result<Landing>)
    ensures s.resolved && s.ref.Alias? ==> r.Err?
  {
    if !s.resolved then Err(Unresolved(s.hash))
    else match s.ref
      case Alias(t) =>
        if t !in table then Err(AliasTargetMissing(t)) else Err(CircularAlias(t))
      case Direct(sec, Auto) => Err(StubAddress)
      case Direct(sec, At(n)) =>
        match CheckDirect(sec, n, limits)
        case Fail(e) => Err(e)
        case Pass => Ok(Landing(sec, n, 0))
  }

  function KeyCheckAsWritten(table: SymbolMap, k: Hash, limits: Limits): Outcome
    requires k in table
  {
    if table[k].hash != k then Fail(InputInconsistent(k))
    else match WalkAsWritten(table, table[k], limits)
      case Ok(_) => Pass
      case Err(e) => Fail(e)
  }

  function FinalizeAsWrittenFrom(table: SymbolMap, pending: set<Hash>, limits: Limits): (r: Outcome)
    requires pending <= table.Keys
    ensures r.Pass? <==> forall k :: k in pending ==> KeyCheckAsWritten(table, k, limits).Pass?
    decreases pending
  {
    if pending == {} then Pass
    else
      var k := MinKey(pending);
      match KeyCheckAsWritten(table, k, limits)
      case Fail(e) => Fail(e)
      case Pass => FinalizeAsWrittenFrom(table, pending - {k}, limits)
  }

  /** Finalize exactly as written: no table holding an alias passes. */
  function FinalizeAsWritten(table: SymbolMap, limits: Limits): (r: Outcome)
    ensures r.Pass? ==> forall k :: k in table ==> table[k].ref.Direct?
  {
    var r := FinalizeAsWrittenFrom(table, table.Keys, limits);
    if r.Pass? then
      assert forall k :: k in table ==> KeyCheckAsWritten(table, k, limits).Pass?;
      r
    else r
  }

  /** Scenario: `1` aliases `2`, which is DATA address 0 of a one-slot data
      section. The intended check accepts the table; the check as written
      reports a circular alias. */
  lemma AliasRejectedAsWritten()
    ensures var t := map[1 := Symbol(1, true, Alias(2)), 2 := Symbol(2, true, Direct(Data, At(0)))];
            var limits := Limits(0, 1, 0);
            && Finalize(t, limits).Pass?
            && FinalizeAsWritten(t, limits) == Fail(CircularAlias(2))
  {
    var t := map[1 := Symbol(1, true, Alias(2)), 2 := Symbol(2, true, Direct(Data, At(0)))];
    var limits := Limits(0, 1, 0);
    assert Walk(t, t[2], {2}, limits).Ok?;
    assert KeyCheck(t, 1, limits).Pass?;
    assert KeyCheck(t, 2, limits).Pass?;
    assert MinKey(t.Keys) == 1;
  }

  /** Scenario: `a` and `b` alias each other; Finalize reports the cycle. */
  lemma MutualAliasIsCircular(a: Hash, b: Hash, limits: Limits)
    requires a < b
    ensures var t := map[a := Symbol(a, true, Alias(b)), b := Symbol(b, true, Alias(a))];
            Finalize(t, limits) == Fail(CircularAlias(b))
  {
    var t := map[a := Symbol(a, true, Alias(b)), b := Symbol(b, true, Alias(a))];
    var none: set<Hash> := {};
    assert none + {b} == {b};
    assert {b} + {a} == {b, a};
    assert Walk(t, t[a], {b, a}, limits) == Err(CircularAlias(b));
    assert Walk(t, t[b], {b}, limits) == Err(CircularAlias(b));
    assert Walk(t, t[a], {}, limits) == Err(CircularAlias(b));
    assert KeyCheck(t, a, limits) == Fail(CircularAlias(b));
  }
}
