/** The ModR/M byte of the x86-64 backend: the mod field and the three r/m
    encoding tables, the packed byte with its SIB and displacement
    predicates, and the operand wrapper with one constructor per
    addressing form. Register and SIB records come from headers outside
    this model and are given as plain datatypes here. */
module ModRM {
  import opened Base

  /** A three-bit field. */
  type Field3 = x: bv8 | x < 8

  // ---------------------------------------------------------------------
  // Enumerations
  // ---------------------------------------------------------------------

  datatype ModField = NoShift | Disp8 | Disp32 | Direct

  function ModCode(m: ModField): (c: bv8)
    ensures c < 4
  {
    match m
    case NoShift => 0
    case Disp8 => 1
    case Disp32 => 2
    case Direct => 3
  }

  function ModOfCode(c: bv8): (m: ModField)
    requires c < 4
  {
    if c == 0 then NoShift else if c == 1 then Disp8 else if c == 2 then Disp32 else Direct
  }

  lemma ModCodeRoundTrip(m: ModField, c: bv8)
    requires c < 4
    ensures ModOfCode(ModCode(m)) == m
    ensures ModCode(ModOfCode(c)) == c
  {
  }

  /** r/m values with mod = 00: register-indirect, SIB escape, and the
      displacement-only (RIP-relative in 64-bit mode) form. */
  datatype IndirectNoShift = NsRax | NsRcx | NsRdx | NsRbx | NsUseSib | NsDisplacement32 | NsRsi | NsRdi

  /** r/m values with mod = 01 or 10: register-indirect plus displacement,
      with RBP where mod = 00 has the displacement-only form. The 8-bit and
      32-bit displacement tables are identical. */
  datatype IndirectShift = SRax | SRcx | SRdx | SRbx | SUseSib | SRbp | SRsi | SRdi

  const UseSibCode: Field3 := 4
  const UseDisplacement32Code: Field3 := 5

  function NoShiftCode(r: IndirectNoShift): (c: Field3)
    ensures c == UseSibCode <==> r == NsUseSib
    ensures c == UseDisplacement32Code <==> r == NsDisplacement32
  {
    match r
    case NsRax => 0
    case NsRcx => 1
    case NsRdx => 2
    case NsRbx => 3
    case NsUseSib => 4
    case NsDisplacement32 => 5
    case NsRsi => 6
    case NsRdi => 7
  }

  function ShiftCode(r: IndirectShift): (c: Field3)
    ensures c == UseSibCode <==> r == SUseSib
    ensures c == 5 <==> r == SRbp
  {
    match r
    case SRax => 0
    case SRcx => 1
    case SRdx => 2
    case SRbx => 3
    case SUseSib => 4
    case SRbp => 5
    case SRsi => 6
    case SRdi => 7
  }

  /** Each table is a bijection onto the three-bit values. */
  lemma TablesInjective(a: IndirectNoShift, b: IndirectNoShift, x: IndirectShift, y: IndirectShift)
    ensures NoShiftCode(a) == NoShiftCode(b) ==> a == b
    ensures ShiftCode(x) == ShiftCode(y) ==> x == y
  {
  }

  lemma TablesSurjective(c: Field3)
    ensures exists r :: NoShiftCode(r) == c
    ensures exists r :: ShiftCode(r) == c
  {
    var ns := [NsRax, NsRcx, NsRdx, NsRbx, NsUseSib, NsDisplacement32, NsRsi, NsRdi];
    var sh := [SRax, SRcx, SRdx, SRbx, SUseSib, SRbp, SRsi, SRdi];
    assert NoShiftCode(ns[c as int]) == c;
    assert ShiftCode(sh[c as int]) == c;
  }

  // ---------------------------------------------------------------------
  // The packed byte
  // ---------------------------------------------------------------------

  /** The ModR/M byte's fields: r/m in bits 2-0, reg in bits 5-3, mod in
      bits 7-6. */
  datatype ModRMByte = ModRMByte(rm: Field3, reg: Field3, mod: ModField)

  function Encode(b: ModRMByte): (x: bv8)
    ensures x & 7 == b.rm
    ensures (x >> 3) & 7 == b.reg
    ensures x >> 6 == ModCode(b.mod)
  {
    (ModCode(b.mod) << 6) | (b.reg << 3) | b.rm
  }

  function Decode(x: bv8): (b: ModRMByte)
  {
    ModRMByte(x & 7, (x >> 3) & 7, ModOfCode(x >> 6))
  }

  lemma DecodeEncode(b: ModRMByte)
    ensures Decode(Encode(b)) == b
  {
    ModCodeRoundTrip(b.mod, 0);
  }

  lemma EncodeDecode(x: bv8)
    ensures Encode(Decode(x)) == x
  {
    ModCodeRoundTrip(NoShift, x >> 6);
  }

  /** A SIB byte follows exactly when the operand is a memory operand and
      r/m holds the SIB escape. */
  predicate UsingSib(b: ModRMByte)
  {
    b.mod != Direct && b.rm == UseSibCode
  }

  /** The displacement that follows: mod's own, except that mod = 00 with
      r/m = 101 carries a 32-bit displacement. */
  function UsingDisplacement(b: ModRMByte): (d: ModField)
    ensures d != b.mod ==> b.mod == NoShift && d == Disp32
  {
    if b.mod == NoShift && b.rm == UseDisplacement32Code then Disp32 else b.mod
  }

  /** UsingSib read off the raw byte: below 0xC0 with low bits 100. */
  lemma UsingSibOnBytes(x: bv8)
    ensures UsingSib(Decode(x)) <==> x < 0xC0 && x & 7 == 4
  {
  }

  /** A 32-bit displacement follows exactly for the bytes 10xxxxxx and
      00xxx101; no displacement for 00xxxxxx otherwise and 11xxxxxx. */
  lemma UsingDisplacementOnBytes(x: bv8)
    ensures UsingDisplacement(Decode(x)) == Disp32 <==> (x >> 6 == 2 || x & 0xC7 == 0x05)
    ensures UsingDisplacement(Decode(x)) == Disp8 <==> x >> 6 == 1
    ensures UsingDisplacement(Decode(x)) == NoShift <==> (x >> 6 == 0 && x & 7 != 5)
  {
  }

  // ---------------------------------------------------------------------
  // The operand wrapper
  // ---------------------------------------------------------------------

  datatype AddressSize = SizeNone | SizeByte | SizeWord | SizeDword | SizeQword

  /** A general-purpose register operand: its low three bits, whether it
      needs the REX extension bit, and its width. */
  datatype RegisterWrapper = RegisterWrapper(raw: Field3, needExtension: bool, operandSize: AddressSize)

  /** The extended registers R8-R15, numbered by their low three bits. */
  datatype Reg64E = R8 | R9 | R10 | R11 | R12 | R13 | R14 | R15

  function ExtendedCode(r: Reg64E): (c: Field3)
    ensures c == UseSibCode <==> r == R12
    ensures c == UseDisplacement32Code <==> r == R13
  {
    match r
    case R8 => 0
    case R9 => 1
    case R10 => 2
    case R11 => 3
    case R12 => 4
    case R13 => 5
    case R14 => 6
    case R15 => 7
  }

  /** The SIB operand a wrapper carries: base register, optional index
      register and scale. Registers are kept as (low bits, extended). */
  datatype SibSpec = SibSpec(base: Field3, baseExtended: bool, index: Option<(Field3, bool)>, scale: nat)

  /** An r/m operand: the r/m bits, whether they need REX.B, the mod field,
      the operand size and the SIB operand when one is used. */
  datatype Wrapper = Wrapper(raw: Field3, needExtension: bool, mod: ModField,
                             operandSize: AddressSize, sib: Option<SibSpec>)

  /** The ModR/M byte a wrapper produces with `reg` in the reg field. */
  function ByteOf(w: Wrapper, reg: Field3): (b: ModRMByte)
    ensures b.rm == w.raw && b.reg == reg && b.mod == w.mod
  {
    ModRMByte(w.raw, reg, w.mod)
  }

  /** `[reg]` or `[disp32]`. */
  function FromNoShift(r: IndirectNoShift): (w: Wrapper)
    ensures w.mod == NoShift && !w.needExtension && w.operandSize == SizeNone
    ensures w.raw == NoShiftCode(r)
    ensures UsingDisplacement(ByteOf(w, 0)) == Disp32 <==> r == NsDisplacement32
  {
    Wrapper(NoShiftCode(r), false, NoShift, SizeNone, None)
  }

  /** `[reg] + disp8`. */
  function FromDisp8(r: IndirectShift): (w: Wrapper)
    ensures w.mod == Disp8 && !w.needExtension && w.operandSize == SizeNone
    ensures w.raw == ShiftCode(r)
    ensures UsingDisplacement(ByteOf(w, 0)) == Disp8
  {
    Wrapper(ShiftCode(r), false, Disp8, SizeNone, None)
  }

  /** `[reg] + disp32`. */
  function FromDisp32(r: IndirectShift): (w: Wrapper)
    ensures w.mod == Disp32 && !w.needExtension && w.operandSize == SizeNone
    ensures w.raw == ShiftCode(r)
    ensures UsingDisplacement(ByteOf(w, 0)) == Disp32
  {
    Wrapper(ShiftCode(r), false, Disp32, SizeNone, None)
  }

  /** A register operand (mod = 11); only 64-bit registers are accepted. */
  function FromRegister(reg: RegisterWrapper): (r: Result<Wrapper>)
    ensures r.Ok? <==> reg.operandSize == SizeQword
    ensures r.Ok? ==> r.value.mod == Direct && r.value.raw == reg.raw
                      && r.value.needExtension == reg.needExtension
                      && r.value.operandSize == SizeQword
    ensures r.Ok? ==> !UsingSib(ByteOf(r.value, 0)) && UsingDisplacement(ByteOf(r.value, 0)) == Direct
  {
    if reg.operandSize == SizeQword then Ok(Wrapper(reg.raw, reg.needExtension, Direct, reg.operandSize, None))
    else Err(NonQwordRegister)
  }

  /** `[base + index * scale]` with the given displacement form: r/m holds
      the SIB escape. */
  function FromBaseIndex(base: (Field3, bool), index: Option<(Field3, bool)>, scale: nat, shift: ModField): (w: Wrapper)
    ensures w.raw == UseSibCode && w.mod == shift && !w.needExtension && w.operandSize == SizeNone
    ensures w.sib == Some(SibSpec(base.0, base.1, index, scale))
    ensures shift != Direct ==> UsingSib(ByteOf(w, 0))
  {
    Wrapper(UseSibCode, false, shift, SizeNone, Some(SibSpec(base.0, base.1, index, scale)))
  }

  /** The SIB operand with an extended register as base and no index. */
  function ExtendedBase(r: Reg64E): SibSpec
  {
    SibSpec(ExtendedCode(r), true, None, 1)
  }

  /** The extended-register constructor as x86backend/ModRM.h:156-168
      writes it: R13 with mod = 00 (which would mean RIP-relative) is
      rewritten as `[R13 + 0]` through a SIB byte; every other register is
      encoded directly in r/m with the REX extension. */
  function FromExtendedAsWritten(reg: Reg64E, shift: ModField): (w: Wrapper)
    ensures reg == R13 && shift == NoShift ==>
              w == Wrapper(UseSibCode, false, Disp8, SizeNone, Some(ExtendedBase(R13)))
    ensures !(reg == R13 && shift == NoShift) ==>
              w.raw == ExtendedCode(reg) && w.needExtension && w.mod == shift && w.sib.None?
  {
    if reg == R13 && shift == NoShift then
      Wrapper(UseSibCode, false, Disp8, SizeNone, Some(ExtendedBase(R13)))
    else
      Wrapper(ExtendedCode(reg), true, shift, SizeNone, None)
  }

  /** The extended-register constructor with R12 handled as well: r/m = 100
      means "SIB follows" whatever REX.B says, so a memory operand based on
      R12 must go through a SIB byte just as R13 does. */
  function FromExtended(reg: Reg64E, shift: ModField): (w: Wrapper)
    ensures w.operandSize == SizeNone
    ensures UsingSib(ByteOf(w, 0)) <==> w.sib.Some?
    ensures UsingDisplacement(ByteOf(w, 0)) == w.mod
    ensures w.sib.None? ==> w.raw == ExtendedCode(reg) && w.needExtension && w.mod == shift
    ensures w.sib.Some? ==> w.sib == Some(ExtendedBase(reg)) && !w.needExtension && w.mod != Direct
    ensures shift != NoShift ==> w.mod == shift
  {
    if reg == R13 && shift == NoShift then
      Wrapper(UseSibCode, false, Disp8, SizeNone, Some(ExtendedBase(R13)))
    else if reg == R12 && shift != Direct then
      Wrapper(UseSibCode, false, shift, SizeNone, Some(ExtendedBase(R12)))
    else
      Wrapper(ExtendedCode(reg), true, shift, SizeNone, None)
  }

  /** The two constructors agree on every register but R12 in memory
      operands. */
  lemma ExtendedAgreesAwayFromR12(reg: Reg64E, shift: ModField)
    requires !(reg == R12 && shift != Direct)
    ensures FromExtended(reg, shift) == FromExtendedAsWritten(reg, shift)
  {
  }

  /** As written, `[R12]` gets r/m = 100 with no SIB operand: the byte says
      a SIB follows but the wrapper has none to emit. */
  lemma R12WithoutSibAsWritten(reg: Field3)
    ensures UsingSib(ByteOf(FromExtendedAsWritten(R12, NoShift), reg))
    ensures FromExtendedAsWritten(R12, NoShift).sib.None?
    ensures FromExtended(R12, NoShift).sib == Some(ExtendedBase(R12))
  {
  }
}
