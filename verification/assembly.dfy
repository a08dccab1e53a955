/** The assembly-text reader: line preparation, labels, references,
    declarations, commands, type specifiers and the reader's two-section
    file description. The symbol hash, the value parser and the command
    set's mnemonic table are collaborators given in `AsmEnv`. Text is a
    sequence of characters; a NUL character ends a C string, so PrepLine
    cuts there and everything after it sees no NUL. */
module AssemblyIO {
  import opened Base
  import opened Machine
  import Logic

  // ---------------------------------------------------------------------
  // Characters
  // ---------------------------------------------------------------------

  /** `isspace` in the C locale. */
  predicate IsSpace(c: char)
  {
    c == ' ' || c == '\t' || c == '\n' || c == '\r' || c == '\U{000B}' || c == '\U{000C}'
  }

  /** `tolower` in the C locale. */
  function ToLower(c: char): (r: char)
    ensures 'A' <= c <= 'Z' ==> r as int == c as int + 32
    ensures !('A' <= c <= 'Z') ==> r == c
  {
    if 'A' <= c <= 'Z' then (c as int + 32) as char else c
  }

  function Lower(s: string): (r: string)
    ensures |r| == |s|
    ensures forall i :: 0 <= i < |s| ==> r[i] == ToLower(s[i])
  {
    if |s| == 0 then [] else [ToLower(s[0])] + Lower(s[1..])
  }

  /** Length of the leading run of C whitespace. */
  function SpaceRun(s: string): (n: nat)
    ensures n <= |s|
    ensures forall j :: 0 <= j < n ==> IsSpace(s[j])
    ensures n < |s| ==> !IsSpace(s[n])
  {
    if |s| == 0 || !IsSpace(s[0]) then 0 else 1 + SpaceRun(s[1..])
  }

  /** Length of the leading run of non-whitespace (a scanf `%s` field). */
  function WordRun(s: string): (n: nat)
    ensures n <= |s|
    ensures forall j :: 0 <= j < n ==> !IsSpace(s[j])
    ensures n < |s| ==> IsSpace(s[n])
  {
    if |s| == 0 || IsSpace(s[0]) then 0 else 1 + WordRun(s[1..])
  }

  // ---------------------------------------------------------------------
  // PrepLine
  // ---------------------------------------------------------------------

  predicate EndsLine(c: char)
  {
    c == ';' || c == '\n' || c == '\0'
  }

  function LineRun(s: string): (n: nat)
    ensures n <= |s|
    ensures forall j :: 0 <= j < n ==> !EndsLine(s[j])
    ensures n < |s| ==> EndsLine(s[n])
  {
    if |s| == 0 || EndsLine(s[0]) then 0 else 1 + LineRun(s[1..])
  }

  /** Skips leading whitespace; a line with nothing else is dropped.
      Otherwise the text from the first non-space character up to the first
      `;` or newline, lowercased. */
  function PrepLine(line: string): (r: Option<string>)
    ensures var b := SpaceRun(line);
            r.None? <==> b == |line| || line[b] == '\0'
    ensures r.Some? ==>
              var b := SpaceRun(line);
              && b + |r.value| <= |line|
              && (forall k :: 0 <= k < |r.value| ==>
                    !EndsLine(line[b + k]) && r.value[k] == ToLower(line[b + k]))
              && (b + |r.value| == |line| || EndsLine(line[b + |r.value|]))
  {
    var b := SpaceRun(line);
    if b == |line| || line[b] == '\0' then None
    else
      var rest := line[b..];
      Some(Lower(rest[..LineRun(rest)]))
  }

  /** A prepared line has no upper-case letter and no comment. */
  lemma PrepLineNormalised(line: string)
    requires PrepLine(line).Some?
    ensures forall k :: 0 <= k < |PrepLine(line).value| ==>
              !('A' <= PrepLine(line).value[k] <= 'Z') && PrepLine(line).value[k] != ';'
  {
  }

  // ---------------------------------------------------------------------
  // Labels
  // ---------------------------------------------------------------------

  predicate EndsLabel(c: char)
  {
    c == ' ' || c == '\0' || c == ':'
  }

  function LabelRun(s: string): (n: nat)
    ensures n <= |s|
    ensures forall j :: 0 <= j < n ==> !EndsLabel(s[j])
    ensures n < |s| ==> EndsLabel(s[n])
  {
    if |s| == 0 || EndsLabel(s[0]) then 0 else 1 + LabelRun(s[1..])
  }

  /** Splits `label:rest` when a colon comes before any space or the end of
      the string; only a space (not a tab) ends the search. */
  function ParseLabel(s: string): (r: Option<(string, string)>)
    ensures r.Some? ==> s == r.value.0 + [':'] + r.value.1
    ensures r.Some? ==> forall j :: 0 <= j < |r.value.0| ==> !EndsLabel(r.value.0[j])
  {
    var n := LabelRun(s);
    if n < |s| && s[n] == ':' then Some((s[..n], s[n + 1..])) else None
  }

  /** ParseLabel finds nothing exactly when every colon is preceded by a
      space or NUL. */
  lemma ParseLabelNone(s: string)
    ensures ParseLabel(s).None? <==>
              forall i :: 0 <= i < |s| && s[i] == ':' ==>
                exists j :: 0 <= j < i && (s[j] == ' ' || s[j] == '\0')
  {
    var n := LabelRun(s);
    if ParseLabel(s).None? {
      forall i | 0 <= i < |s| && s[i] == ':'
        ensures exists j :: 0 <= j < i && (s[j] == ' ' || s[j] == '\0')
      {
        assert n <= i;
        if n == i {
          assert false;
        }
        assert s[n] == ' ' || s[n] == '\0';
      }
    } else {
      assert s[n] == ':';
      forall j | 0 <= j < n
        ensures !(s[j] == ' ' || s[j] == '\0')
      {
      }
    }
  }

  // ---------------------------------------------------------------------
  // The reader's environment and its output
  // ---------------------------------------------------------------------

  datatype ArgType = ANone | AReference | AValue

  datatype CommandDesc = CommandDesc(id: nat, argType: ArgType)

  /** Collaborators: the symbol-name hash, the value parser (given the type
      already set on the value), the command set's mnemonic table and the
      default type specifier. */
  datatype AsmEnv = AsmEnv(
    hash: string -> Hash,
    parseValue: (ValueType, string) -> Result<Value>,
    mnemonic: string -> Option<CommandDesc>,
    defaultSpec: char)

  datatype DecodeKind = DecNothing | DecData | DecCommand

  /** What decoding a line produces: its kind, the command or data entry,
      and the symbols the line mentions. */
  datatype DecodeResult = DecodeResult(kind: DecodeKind, command: Command, data: Value,
                                       mentioned: SymbolMap)

  /** A `std::map::insert`: adds `Symbol(h, resolved, ref)` under `h` unless
      `h` is already present, in which case nothing changes. */
  function Mention(t: SymbolMap, h: Hash, resolved: bool, ref: Reference): (r: SymbolMap)
    ensures r.Keys == t.Keys + {h}
    ensures h in t ==> r == t
    ensures h !in t ==> r[h] == Symbol(h, resolved, ref)
    ensures forall k :: k in t ==> r[k] == t[k]
  {
    if h in t then t else t[h := Symbol(h, resolved, ref)]
  }

  /** `t` is `u` with entries possibly added and none changed. */
  predicate Extends(u: SymbolMap, t: SymbolMap)
  {
    forall k :: k in t ==> k in u && u[k] == t[k]
  }

  /** The symbol a label defines: resolved, in CODE, address to be placed. */
  const LabelRef: Reference := Direct(Code, Auto)

  /** Reads the leading labels: each becomes a resolved CODE symbol at the
      AUTO address, and whitespace after each label is skipped. Returns the
      remaining text. */
  function ReadLabels(env: AsmEnv, s: string, mentioned: SymbolMap): (r: (string, SymbolMap))
    ensures ParseLabel(r.0).None?
    ensures Extends(r.1, mentioned)
    ensures |r.0| <= |s|
    decreases |s|
  {
    match ParseLabel(s)
    case None => (s, mentioned)
    case Some(p) =>
      ReadLabels(env, p.1[SpaceRun(p.1)..], Mention(mentioned, env.hash(p.0), true, LabelRef))
  }

  /** What ReadLabels leaves is a tail of the text: the whole text when it
      starts with no label, and otherwise a tail not starting with
      whitespace. Every symbol it adds is a label: resolved, in CODE, to be
      placed. */
  lemma {:induction false} ReadLabelsShape(env: AsmEnv, s: string, mentioned: SymbolMap)
    ensures var r := ReadLabels(env, s, mentioned);
            && IsTail(r.0, s)
            && (ParseLabel(s).None? ==> r == (s, mentioned))
            && (r.0 != s ==> |r.0| == 0 || !IsSpace(r.0[0]))
            && forall k :: k in r.1 && k !in mentioned ==> r.1[k] == Symbol(k, true, LabelRef)
    decreases |s|
  {
    match ParseLabel(s)
    case None =>
      assert ReadLabels(env, s, mentioned) == (s, mentioned);
      assert s[0..] == s;
      assert IsTail(s, s);
    case Some(p) =>
      var n := SpaceRun(p.1);
      var rest := p.1[n..];
      var defined := Mention(mentioned, env.hash(p.0), true, LabelRef);
      var tail := ReadLabels(env, rest, defined);
      assert ReadLabels(env, s, mentioned) == tail;
      ReadLabelsShape(env, rest, defined);
      SkippedTail(s, p.0, p.1, n);
      TailOfTail(s, rest, tail.0);
      assert |rest| == 0 || rest[0] == p.1[n];
      forall k | k in tail.1 && k !in mentioned
        ensures tail.1[k] == Symbol(k, true, LabelRef)
      {
        if k in defined {
          assert k == env.hash(p.0);
        }
      }
  }

  /** `t` is a tail of `s`. */
  predicate IsTail(t: string, s: string)
  {
    |t| <= |s| && t == s[|s| - |t|..]
  }

  lemma SkippedTail(s: string, lbl: string, after: string, n: nat)
    requires s == lbl + [':'] + after && n <= |after|
    ensures IsTail(after[n..], s)
  {
    assert s == (lbl + [':']) + after;
  }

  lemma TailOfTail(s: string, t: string, u: string)
    requires IsTail(t, s) && IsTail(u, t)
    ensures IsTail(u, s)
  {
  }

  /** A leading label, the whitespace after it, then the rest: the label is
      defined and reading carries on with the rest. */
  lemma {:induction false} LabelThenRest(env: AsmEnv, lbl: string, ws: string, rest: string, mentioned: SymbolMap)
    requires forall j :: 0 <= j < |lbl| ==> !EndsLabel(lbl[j])
    requires forall j :: 0 <= j < |ws| ==> IsSpace(ws[j])
    requires |rest| == 0 || !IsSpace(rest[0])
    ensures ReadLabels(env, lbl + [':'] + ws + rest, mentioned)
            == ReadLabels(env, rest, Mention(mentioned, env.hash(lbl), true, LabelRef))
  {
    var s := lbl + [':'] + ws + rest;
    var after := ws + rest;
    assert s == lbl + ([':'] + after);
    assert ([':'] + after)[0] == ':';
    LabelRunPrefix(lbl, [':'] + after);
    assert s[..|lbl|] == lbl && s[|lbl| + 1..] == after;
    assert ParseLabel(s) == Some((lbl, after));
    SpaceRunPrefix(ws, rest);
    assert after[|ws|..] == rest;
  }

  lemma {:induction false} SpaceRunPrefix(ws: string, rest: string)
    requires forall j :: 0 <= j < |ws| ==> IsSpace(ws[j])
    requires |rest| == 0 || !IsSpace(rest[0])
    ensures SpaceRun(ws + rest) == |ws|
    decreases |ws|
  {
    if |ws| == 0 {
      assert ws + rest == rest;
    } else {
      assert (ws + rest)[1..] == ws[1..] + rest;
      SpaceRunPrefix(ws[1..], rest);
    }
  }

  /** A label at the head of the text is defined as a CODE label (unless its
      name was already mentioned), and its text is skipped. */
  lemma {:induction false} LabelDefined(env: AsmEnv, lbl: string, rest: string, mentioned: SymbolMap)
    requires forall j :: 0 <= j < |lbl| ==> !EndsLabel(lbl[j])
    requires env.hash(lbl) !in mentioned
    ensures var r := ReadLabels(env, lbl + [':'] + rest, mentioned);
            env.hash(lbl) in r.1 && r.1[env.hash(lbl)] == Symbol(env.hash(lbl), true, LabelRef)
  {
    var s := lbl + [':'] + rest;
    assert LabelRun(s) == |lbl| by {
      assert ([':'] + rest)[0] == ':';
      assert s == lbl + ([':'] + rest);
      LabelRunPrefix(lbl, [':'] + rest);
    }
    assert s[..|lbl|] == lbl;
    var m1 := Mention(mentioned, env.hash(lbl), true, LabelRef);
    var rest' := s[|lbl| + 1..][SpaceRun(s[|lbl| + 1..])..];
    assert ReadLabels(env, s, mentioned) == ReadLabels(env, rest', m1);
  }

  lemma {:induction false} LabelRunPrefix(lbl: string, tail: string)
    requires forall j :: 0 <= j < |lbl| ==> !EndsLabel(lbl[j])
    requires |tail| > 0 && EndsLabel(tail[0])
    ensures LabelRun(lbl + tail) == |lbl|
    decreases |lbl|
  {
    if |lbl| == 0 {
      assert (lbl + tail)[0] == tail[0];
    } else {
      assert (lbl + tail)[1..] == lbl[1..] + tail;
      LabelRunPrefix(lbl[1..], tail);
    }
  }

  // ---------------------------------------------------------------------
  // References
  // ---------------------------------------------------------------------

  predicate IsDigit(c: char)
  {
    '0' <= c <= '9'
  }

  function DigitRun(s: string): (n: nat)
    ensures n <= |s|
    ensures forall j :: 0 <= j < n ==> IsDigit(s[j])
    ensures n < |s| ==> !IsDigit(s[n])
  {
    if |s| == 0 || !IsDigit(s[0]) then 0 else 1 + DigitRun(s[1..])
  }

  function DigitValue(c: char): nat
    requires IsDigit(c)
  {
    c as int - '0' as int
  }

  /** The value of a string of decimal digits. */
  function DecimalValue(s: string): nat
    requires forall j :: 0 <= j < |s| ==> IsDigit(s[j])
  {
    if |s| == 0 then 0 else 10 * DecimalValue(s[..|s| - 1]) + DigitValue(s[|s| - 1])
  }

  /** The decimal digits of `n`, most significant first. */
  function DecimalString(n: nat): (s: string)
    ensures |s| > 0
    ensures forall j :: 0 <= j < |s| ==> IsDigit(s[j])
  {
    var d := [('0' as int + n % 10) as char];
    if n < 10 then d else DecimalString(n / 10) + d
  }

  lemma {:induction false} DecimalRoundTrip(n: nat)
    ensures DecimalValue(DecimalString(n)) == n
  {
    var s := DecimalString(n);
    if n >= 10 {
      DecimalRoundTrip(n / 10);
      assert s[..|s| - 1] == DecimalString(n / 10);
    }
  }

  /** `sscanf(arg, "%c:%zu")` matching both fields: a specifier character,
      a colon, optional whitespace, an optional `+`, and at least one digit
      (digits after the first non-digit are ignored). */
  function ScanDirect(arg: string): (r: Option<(char, nat)>)
  {
    if |arg| < 2 || arg[1] != ':' then None
    else
      var t := arg[2..][SpaceRun(arg[2..])..];
      var u := if |t| > 0 && t[0] == '+' then t[1..] else t;
      var n := DigitRun(u);
      if n == 0 then None else Some((arg[0], DecimalValue(u[..n])))
  }

  /** The section a direct-address specifier letter names. */
  function SpecifierSection(c: char): (s: Section)
    ensures s != NoSection <==> c in "cdfpr"
  {
    match c
    case 'c' => Code
    case 'd' => Data
    case 'f' => Frame
    case 'p' => FrameBack
    case 'r' => Register
    case _ => NoSection
  }

  /** Parses an operand: `x:N` is a direct address in the section letter x
      names (a register number must be below the register count); `$name`
      is a register by name; anything else names a symbol, which is added
      to the mentioned symbols as an unresolved usage. */
  function ParseReference(env: AsmEnv, symbols: SymbolMap, arg: string): (r: Result<(Reference, SymbolMap)>)
    ensures ScanDirect(arg).Some? ==>
              var id := ScanDirect(arg).value.0;
              var n := ScanDirect(arg).value.1;
              && (r.Ok? <==> id in "cdfpr" && (id == 'r' ==> n < RegisterCount))
              && (r.Ok? ==> r.value == (Direct(SpecifierSection(id), At(n)), symbols))
    ensures ScanDirect(arg).None? && |arg| > 0 && arg[0] == '$' ==>
              && (r.Ok? <==> Logic.DecodeRegister(arg[1..]).Ok?)
              && (r.Ok? ==> r.value == (Direct(Register, At(Logic.DecodeRegister(arg[1..]).value)), symbols))
    ensures ScanDirect(arg).None? && (|arg| == 0 || arg[0] != '$') ==>
              r == Ok((Alias(env.hash(arg)), Mention(symbols, env.hash(arg), false, BlankRef)))
    ensures r.Ok? ==> Extends(r.value.1, symbols)
  {
    match ScanDirect(arg)
    case Some(p) =>
      var sec := SpecifierSection(p.0);
      if sec == NoSection then Err(BadSpecifier(p.0))
      else if sec == Register && p.1 >= RegisterCount then Err(BadRegisterId(p.1))
      else Ok((Direct(sec, At(p.1)), symbols))
    case None =>
      if |arg| > 0 && arg[0] == '$' then
        var id :- Logic.DecodeRegister(arg[1..]);
        Ok((Direct(Register, At(id)), symbols))
      else
        var h := env.hash(arg);
        Ok((Alias(h), Mention(symbols, h, false, BlankRef)))
  }

  /** The specifier letter of a section that has one. */
  function SpecifierOf(s: Section): char
    requires s in {Code, Data, Frame, FrameBack, Register}
  {
    match s
    case Code => 'c'
    case Data => 'd'
    case Frame => 'f'
    case FrameBack => 'p'
    case Register => 'r'
  }

  /** Writing a direct address as `x:N` and parsing it gives it back. */
  lemma ParseFormattedDirect(env: AsmEnv, symbols: SymbolMap, s: Section, n: nat)
    requires s in {Code, Data, Frame, FrameBack} || (s == Register && n < RegisterCount)
    ensures ParseReference(env, symbols, [SpecifierOf(s), ':'] + DecimalString(n))
            == Ok((Direct(s, At(n)), symbols))
  {
    var arg := [SpecifierOf(s), ':'] + DecimalString(n);
    var digits := DecimalString(n);
    assert arg[2..] == digits;
    assert SpaceRun(digits) == 0;
    assert DigitRun(digits) == |digits| by {
      DigitRunAll(digits);
    }
    assert digits[..|digits|] == digits;
    DecimalRoundTrip(n);
    assert ScanDirect(arg) == Some((SpecifierOf(s), n));
  }

  lemma {:induction false} DigitRunAll(s: string)
    requires forall j :: 0 <= j < |s| ==> IsDigit(s[j])
    ensures DigitRun(s) == |s|
  {
    if |s| > 0 {
      DigitRunAll(s[1..]);
    }
  }

  /** `$` followed by a register's name parses to that register. */
  lemma ParseRegisterName(env: AsmEnv, symbols: SymbolMap, id: nat)
    requires id < RegisterCount
    ensures ParseReference(env, symbols, "$" + Logic.RegisterNames[id])
            == Ok((Direct(Register, At(id)), symbols))
  {
    var arg := "$" + Logic.RegisterNames[id];
    assert arg[1..] == Logic.RegisterNames[id];
    Logic.EncodeDecodeRegister(id);
  }

  // ---------------------------------------------------------------------
  // Declarations
  // ---------------------------------------------------------------------

  /** The outcome of `sscanf(decl, "%s %c %s")`: how many fields matched,
      with their values. */
  datatype DeclScan = Scan0 | Scan1(name: string) | Scan2(name: string, sep: char)
                    | Scan3(name: string, sep: char, init: string)

  function ScanDeclaration(s: string): (r: DeclScan)
    ensures !r.Scan0? ==> |r.name| > 0 && forall j :: 0 <= j < |r.name| ==> !IsSpace(r.name[j])
    ensures r.Scan3? ==> |r.init| > 0 && !IsSpace(r.sep)
    ensures r.Scan0? <==> forall j :: 0 <= j < |s| ==> IsSpace(s[j])
  {
    var a := SpaceRun(s);
    if a == |s| then Scan0
    else
      var t := s[a..];
      ScanAfterName(t[..WordRun(t)], t[WordRun(t)..])
  }

  /** The `%c %s` part, after a non-empty name. */
  function ScanAfterName(name: string, u: string): (r: DeclScan)
    ensures r.Scan1? || r.Scan2? || r.Scan3?
    ensures r.name == name
    ensures r.Scan3? ==> |r.init| > 0 && !IsSpace(r.sep)
  {
    var b := SpaceRun(u);
    if b == |u| then Scan1(name)
    else
      var v := u[b + 1..];
      var w := v[SpaceRun(v)..];
      if |w| == 0 then Scan2(name, u[b]) else Scan3(name, u[b], w[..WordRun(w)])
  }

  /** The symbol a data declaration defines: resolved, in DATA, address to
      be placed. */
  const DataRef: Reference := Direct(Data, Auto)

  /** Decodes a declaration: `name = v` defines a DATA entry at AUTO holding
      the parsed value; `name : ref` defines `name` as an alias of `ref` and
      yields nothing to place; a bare `name` defines an uninitialised DATA
      entry at AUTO; any other shape is a parse error. */
  function ReadSingleDeclaration(env: AsmEnv, decl: string, out: DecodeResult): (r: Result<DecodeResult>)
    ensures var sc := ScanDeclaration(decl);
            r.Ok? <==> sc.Scan1?
                       || (sc.Scan3? && sc.sep == '=' && env.parseValue(out.data.vtype, sc.init).Ok?)
                       || (sc.Scan3? && sc.sep == ':' && ParseReference(env, out.mentioned, sc.init).Ok?)
    ensures r.Ok? ==> r.value.command == out.command && Extends(r.value.mentioned, out.mentioned)
    ensures var sc := ScanDeclaration(decl);
            r.Ok? && sc.Scan1? ==>
              r.value.kind == DecData && r.value.data == Uninitialised
              && r.value.mentioned == Mention(out.mentioned, env.hash(sc.name), true, DataRef)
    ensures var sc := ScanDeclaration(decl);
            r.Ok? && sc.Scan3? && sc.sep == '=' ==>
              r.value.kind == DecData
              && Ok(r.value.data) == env.parseValue(out.data.vtype, sc.init)
              && r.value.mentioned == Mention(out.mentioned, env.hash(sc.name), true, DataRef)
    ensures var sc := ScanDeclaration(decl);
            r.Ok? && sc.Scan3? && sc.sep == ':' ==>
              var p := ParseReference(env, out.mentioned, sc.init).value;
              r.value.kind == DecNothing && r.value.data == out.data
              && r.value.mentioned == Mention(p.1, env.hash(sc.name), true, p.0)
  {
    match ScanDeclaration(decl)
    case Scan3(name, sep, init) =>
      if sep == '=' then
        var v :- env.parseValue(out.data.vtype, init);
        Ok(out.(kind := DecData, data := v,
                mentioned := Mention(out.mentioned, env.hash(name), true, DataRef)))
      else if sep == ':' then
        var p :- ParseReference(env, out.mentioned, init);
        Ok(out.(kind := DecNothing, mentioned := Mention(p.1, env.hash(name), true, p.0)))
      else Err(ParseError)
    case Scan1(name) =>
      Ok(out.(kind := DecData, data := Uninitialised,
              mentioned := Mention(out.mentioned, env.hash(name), true, DataRef)))
    case _ => Err(ParseError)
  }

  /** A declaration argument without whitespace is always the bare form:
      `%s` takes the whole of it. */
  lemma {:induction false} SingleWordIsBareDeclaration(w: string)
    requires |w| > 0 && forall j :: 0 <= j < |w| ==> !IsSpace(w[j])
    ensures ScanDeclaration(w) == Scan1(w)
  {
    assert SpaceRun(w) == 0;
    WordRunAll(w);
    assert w[0..] == w && w[..|w|] == w;
  }

  lemma {:induction false} WordRunAll(s: string)
    requires forall j :: 0 <= j < |s| ==> !IsSpace(s[j])
    ensures WordRun(s) == |s|
  {
    if |s| > 0 {
      WordRunAll(s[1..]);
    }
  }

  // ---------------------------------------------------------------------
  // Commands
  // ---------------------------------------------------------------------

  /** Decodes a command: the mnemonic gives the opcode; an argument must be
      present exactly when the opcode takes one, and is parsed as a
      reference or as a value according to the opcode. */
  function ReadSingleCommand(env: AsmEnv, mnemonic: string, argument: Option<string>,
                             out: DecodeResult): (r: Result<DecodeResult>)
    ensures env.mnemonic(mnemonic).None? ==> r == Err(UnknownMnemonic)
    ensures r.Ok? <==> env.mnemonic(mnemonic).Some?
                       && ArgumentAccepted(env, env.mnemonic(mnemonic).value.argType, argument, out)
    ensures r.Ok? ==> env.mnemonic(mnemonic).Some? && r.value.command.id == env.mnemonic(mnemonic).value.id
    ensures r.Ok? ==> (argument.None? <==> env.mnemonic(mnemonic).value.argType == ANone)
    ensures r.Ok? ==> r.value.kind == out.kind && r.value.data == out.data
                      && r.value.command.ctype == out.command.ctype
                      && Extends(r.value.mentioned, out.mentioned)
    ensures r.Ok? && argument.None? ==> r.value.command.arg == out.command.arg
    ensures r.Ok? && argument.Some? && env.mnemonic(mnemonic).value.argType == AReference ==>
              var p := ParseReference(env, out.mentioned, argument.value);
              p.Ok? && r.value.command.arg == RefArg(p.value.0) && r.value.mentioned == p.value.1
    ensures r.Ok? && argument.Some? && env.mnemonic(mnemonic).value.argType == AValue ==>
              r.value.command.arg.ValueArg?
              && Ok(r.value.command.arg.value) == env.parseValue(out.command.ctype, argument.value)
  {
    match env.mnemonic(mnemonic)
    case None => Err(UnknownMnemonic)
    case Some(desc) =>
      var out1 := out.(command := out.command.(id := desc.id));
      match argument
      case None =>
        if desc.argType == ANone then Ok(out1) else Err(ArgumentMismatch)
      case Some(a) =>
        match desc.argType
        case ANone => Err(ArgumentMismatch)
        case AReference =>
          var p :- ParseReference(env, out1.mentioned, a);
          Ok(out1.(command := out1.command.(arg := RefArg(p.0)), mentioned := p.1))
        case AValue =>
          var v :- env.parseValue(out1.command.ctype, a);
          Ok(out1.(command := out1.command.(arg := ValueArg(v))))
  }

  /** Whether an opcode taking `argType` accepts the argument word: none
      exactly when it takes none, otherwise a parsable reference or value. */
  predicate ArgumentAccepted(env: AsmEnv, argType: ArgType, argument: Option<string>, out: DecodeResult)
  {
    match argument
    case None => argType == ANone
    case Some(a) =>
      || (argType == AReference && ParseReference(env, out.mentioned, a).Ok?)
      || (argType == AValue && env.parseValue(out.command.ctype, a).Ok?)
  }

  // ---------------------------------------------------------------------
  // Statements
  // ---------------------------------------------------------------------

  predicate IsDelimiter(c: char)
  {
    c == ' ' || c == '\t'
  }

  function DelimiterRun(s: string): (n: nat)
    ensures n <= |s|
    ensures forall j :: 0 <= j < n ==> IsDelimiter(s[j])
    ensures n < |s| ==> !IsDelimiter(s[n])
  {
    if |s| == 0 || !IsDelimiter(s[0]) then 0 else 1 + DelimiterRun(s[1..])
  }

  function TokenRun(s: string): (n: nat)
    ensures n <= |s|
    ensures forall j :: 0 <= j < n ==> !IsDelimiter(s[j])
    ensures n < |s| ==> IsDelimiter(s[n])
  {
    if |s| == 0 || IsDelimiter(s[0]) then 0 else 1 + TokenRun(s[1..])
  }

  /** One `strtok(…, " \t")` step: the next token, and the text after the
      delimiter that ends it. */
  function NextToken(s: string): (r: Option<(string, string)>)
    ensures r.None? <==> forall j :: 0 <= j < |s| ==> IsDelimiter(s[j])
    ensures r.Some? ==> |r.value.0| > 0 && forall j :: 0 <= j < |r.value.0| ==> !IsDelimiter(r.value.0[j])
    ensures r.Some? ==> |r.value.1| < |s|
  {
    var a := DelimiterRun(s);
    if a == |s| then None
    else
      var t := s[a..];
      var n := TokenRun(t);
      Some((t[..n], if n < |t| then t[n + 1..] else []))
  }

  /** Splits `mnemonic.x` at the first dot into the mnemonic and the type
      specifier after it (NUL when the dot ends the word); without a dot the
      default specifier applies. */
  function SplitTypeSpec(word: string, default: char): (r: (string, char))
    ensures '.' !in r.0
    ensures '.' !in word ==> r == (word, default)
    ensures '.' in word ==> |r.0| < |word| && word[..|r.0| + 1] == r.0 + "."
  {
    if '.' !in word then (word, default)
    else
      var i := DotIndex(word);
      (word[..i], if i + 1 < |word| then word[i + 1] else '\0')
  }

  function DotIndex(s: string): (i: nat)
    requires '.' in s
    ensures i < |s| && s[i] == '.' && '.' !in s[..i]
  {
    if s[0] == '.' then 0
    else
      assert '.' in s[1..] by {
        var k :| 0 <= k < |s| && s[k] == '.';
        assert s[1..][k - 1] == '.';
      }
      var j := DotIndex(s[1..]);
      assert s[..j + 1] == [s[0]] + s[1..][..j];
      j + 1
  }

  /** The statement type a specifier selects: `f` float, `d` or `i`
      integer (either case); anything else is an error. */
  function DecodeTypeSpec(c: char): (r: Result<ValueType>)
    ensures r == Ok(Float) <==> ToLower(c) == 'f'
    ensures r == Ok(Integer) <==> ToLower(c) in "di"
    ensures r.Err? <==> ToLower(c) !in "fdi"
  {
    match ToLower(c)
    case 'f' => Ok(Float)
    case 'd' => Ok(Integer)
    case 'i' => Ok(Integer)
    case _ => Err(BadTypeSpec(c))
  }

  /** The specifier switch at AssemblyIO.cpp:398-409 as written: no case
      ends with `break`, so `f` falls into `d`/`i`, which falls into the
      error of the default case. Every specifier is rejected. */
  function DecodeTypeSpecAsWritten(c: char): (r: Result<ValueType>)
    ensures r == Err(BadTypeSpec(c))
  {
    // 'f' assigns float and continues into 'd'/'i', which assign integer
    // and continue into the default's error.
    Err(BadTypeSpec(c))
  }

  /** The word `strtok` returns after the command word, if any. */
  function ArgumentToken(after: string): (a: Option<string>)
    ensures a.None? <==> NextToken(after).None?
    ensures a.Some? ==> a.value == NextToken(after).value.0
  {
    match NextToken(after)
    case None => None
    case Some(t) => Some(t.0)
  }

  /** Decodes one source line: labels first, then a command word with an
      optional `.type` suffix and the text after it. `decl` starts a
      declaration; any other word is a command taking at most one argument
      word. Empty lines and lines holding only labels decode to nothing
      more. `fallThrough` selects the specifier switch as written;
      `secondTokenOnly` hands a declaration only the word after `decl`, as
      written, instead of the rest of the line. */
  function Statement(env: AsmEnv, line: string, out: DecodeResult,
                     fallThrough: bool, secondTokenOnly: bool): Result<DecodeResult>
  {
    match PrepLine(line)
    case None => Ok(out)
    case Some(text) =>
      var labelled := ReadLabels(env, text, out.mentioned);
      var out1 := out.(mentioned := labelled.1);
      match NextToken(labelled.0)
      case None => Ok(out1)
      case Some(cmd) =>
        var argument := ArgumentToken(cmd.1);
        var split := SplitTypeSpec(cmd.0, env.defaultSpec);
        var t :- if fallThrough then DecodeTypeSpecAsWritten(split.1) else DecodeTypeSpec(split.1);
        if split.0 == "decl" then
          match argument
          case None => Err(EmptyDeclaration)
          case Some(a) =>
            ReadSingleDeclaration(env, if secondTokenOnly then a else cmd.1,
                                  out1.(kind := DecData, data := out1.data.(vtype := t)))
        else
          ReadSingleCommand(env, split.0, argument, out1.(kind := DecCommand, command := out1.command.(ctype := t)))
  }

  /** Decodes one source line with the intended specifier switch, handing a
      declaration the whole text after `decl`. */
  function ReadSingleStatement(env: AsmEnv, line: string, out: DecodeResult): (r: Result<DecodeResult>)
    ensures PrepLine(line).None? ==> r == Ok(out)
    ensures r.Ok? ==> Extends(r.value.mentioned, out.mentioned)
    ensures r.Ok? && PrepLine(line).Some? ==>
              Extends(r.value.mentioned, ReadLabels(env, PrepLine(line).value, out.mentioned).1)
    ensures PrepLine(line).Some? ==>
              var labelled := ReadLabels(env, PrepLine(line).value, out.mentioned);
              var out1 := out.(mentioned := labelled.1);
              && (NextToken(labelled.0).None? ==> r == Ok(out1))
              && (NextToken(labelled.0).Some? ==>
                    var cmd := NextToken(labelled.0).value;
                    var split := SplitTypeSpec(cmd.0, env.defaultSpec);
                    var argument := ArgumentToken(cmd.1);
                    && (DecodeTypeSpec(split.1).Err? ==> r == Err(BadTypeSpec(split.1)))
                    && (DecodeTypeSpec(split.1).Ok? ==>
                          var t := DecodeTypeSpec(split.1).value;
                          && (split.0 == "decl" && argument.None? ==> r == Err(EmptyDeclaration))
                          && (split.0 == "decl" && argument.Some? ==>
                                r == ReadSingleDeclaration(env, cmd.1,
                                       out1.(kind := DecData, data := out1.data.(vtype := t))))
                          && (split.0 != "decl" ==>
                                r == ReadSingleCommand(env, split.0, argument,
                                       out1.(kind := DecCommand, command := out1.command.(ctype := t))))))
  {
    Statement(env, line, out, false, false)
  }

  /** The statement decoder as written: the specifier switch falls through
      to its error, and a declaration gets only the word after `decl`. */
  function ReadSingleStatementAsWritten(env: AsmEnv, line: string, out: DecodeResult): (r: Result<DecodeResult>)
    ensures r.Ok? ==> r.value.kind == out.kind && r.value.command == out.command && r.value.data == out.data
  {
    Statement(env, line, out, true, true)
  }

  /** The decoder with the specifier switch corrected but, as written, a
      declaration handed only the word after `decl`. */
  function ReadStatementSecondTokenOnly(env: AsmEnv, line: string, out: DecodeResult): Result<DecodeResult>
  {
    Statement(env, line, out, false, true)
  }

  /** Handed only the word after `decl`, a declaration whose word holds no
      whitespace character can only declare an uninitialised DATA entry:
      the `name = value` and `name : ref` forms never arrive. */
  lemma InitialiserNeverArrives(env: AsmEnv, line: string, out: DecodeResult)
    requires PrepLine(line).Some?
    requires var rest := ReadLabels(env, PrepLine(line).value, out.mentioned).0;
             && NextToken(rest).Some?
             && SplitTypeSpec(NextToken(rest).value.0, env.defaultSpec).0 == "decl"
             && ArgumentToken(NextToken(rest).value.1).Some?
             && var a := ArgumentToken(NextToken(rest).value.1).value;
                forall j :: 0 <= j < |a| ==> !IsSpace(a[j])
    requires ReadStatementSecondTokenOnly(env, line, out).Ok?
    ensures ReadStatementSecondTokenOnly(env, line, out).value.kind == DecData
    ensures ReadStatementSecondTokenOnly(env, line, out).value.data == Uninitialised
  {
    var rest := ReadLabels(env, PrepLine(line).value, out.mentioned).0;
    SingleWordIsBareDeclaration(ArgumentToken(NextToken(rest).value.1).value);
  }

  lemma {:induction false} LineRunAll(s: string)
    requires forall j :: 0 <= j < |s| ==> !EndsLine(s[j])
    ensures LineRun(s) == |s|
  {
    if |s| > 0 {
      LineRunAll(s[1..]);
    }
  }

  lemma {:induction false} TokenRunPrefix(tok: string, tail: string)
    requires forall j :: 0 <= j < |tok| ==> !IsDelimiter(tok[j])
    requires |tail| == 0 || IsDelimiter(tail[0])
    ensures TokenRun(tok + tail) == |tok|
    decreases |tok|
  {
    if |tok| == 0 {
      assert tok + tail == tail;
    } else {
      assert (tok + tail)[1..] == tok[1..] + tail;
      TokenRunPrefix(tok[1..], tail);
    }
  }

  lemma LowerIdentity(s: string)
    requires forall j :: 0 <= j < |s| ==> !('A' <= s[j] <= 'Z')
    ensures Lower(s) == s
  {
  }

  // How `decl.i x` is taken apart: no comment, no label, the word
  // `decl.i` with specifier `i`, and the argument `x`.

  lemma DeclLinePrepared()
    ensures PrepLine("decl.i x") == Some("decl.i x")
  {
    var line := "decl.i x";
    assert SpaceRun(line) == 0;
    LineRunAll(line);
    assert line[0..] == line && line[..|line|] == line;
    LowerIdentity(line);
  }

  lemma DeclLineUnlabelled(env: AsmEnv, m: SymbolMap)
    ensures ReadLabels(env, "decl.i x", m) == ("decl.i x", m)
  {
    var line := "decl.i x";
    assert line == "decl.i" + " x";
    LabelRunPrefix("decl.i", " x");
    assert ParseLabel(line) == None;
  }

  lemma DeclLineTokens()
    ensures NextToken("decl.i x") == Some(("decl.i", "x"))
    ensures NextToken("x") == Some(("x", []))
  {
    var line := "decl.i x";
    assert line == "decl.i" + " x";
    assert DelimiterRun(line) == 0;
    assert line[0..] == line;
    TokenRunPrefix("decl.i", " x");
    assert line[..6] == "decl.i" && line[7..] == "x";
    assert DelimiterRun("x") == 0;
    assert "x" + [] == "x";
    TokenRunPrefix("x", []);
    assert "x"[0..] == "x" && "x"[..1] == "x";
  }

  lemma DeclWordSplit(default: char)
    ensures SplitTypeSpec("decl.i", default) == ("decl", 'i')
  {
    assert '.' in "decl.i" by {
      assert "decl.i"[4] == '.';
    }
    assert DotIndex("decl.i") == 4 by {
      assert "decl.i"[1..] == "ecl.i";
      assert "ecl.i"[1..] == "cl.i";
      assert "cl.i"[1..] == "l.i";
      assert "l.i"[1..] == ".i";
    }
    assert "decl.i"[..4] == "decl";
  }

  /** `decl.i x` reaches the specifier switch with `i` and, past it, a
      declaration of the single word `x`. */
  lemma DeclLineSteps(env: AsmEnv, out: DecodeResult, asWritten: bool)
    ensures Statement(env, "decl.i x", out, asWritten, asWritten)
            == if asWritten then Err(BadTypeSpec('i'))
               else ReadSingleDeclaration(env, "x", out.(kind := DecData, data := out.data.(vtype := Integer)))
  {
    var line := "decl.i x";
    DeclLinePrepared();
    DeclLineUnlabelled(env, out.mentioned);
    DeclLineTokens();
    DeclWordSplit(env.defaultSpec);
    var split := SplitTypeSpec("decl.i", env.defaultSpec);
    assert split == ("decl", 'i');
    assert DecodeTypeSpec('i') == Ok(Integer);
  }

  /** With the intended specifier switch, `decl.i x` declares `x` as an
      uninitialised DATA entry. */
  lemma DeclarationAccepted(env: AsmEnv, out: DecodeResult)
    ensures ReadSingleStatement(env, "decl.i x", out).Ok?
    ensures ReadSingleStatement(env, "decl.i x", out).value.kind == DecData
    ensures ReadSingleStatement(env, "decl.i x", out).value.data == Uninitialised
    ensures env.hash("x") in ReadSingleStatement(env, "decl.i x", out).value.mentioned
  {
    DeclLineSteps(env, out, false);
    SingleWordIsBareDeclaration("x");
  }

  /** As written, the specifier switch rejects the same line. */
  lemma DeclarationRejectedAsWritten(env: AsmEnv, out: DecodeResult)
    ensures ReadSingleStatementAsWritten(env, "decl.i x", out) == Err(BadTypeSpec('i'))
  {
    DeclLineSteps(env, out, true);
  }

  /** A line already in prepared form is kept as it is. */
  lemma PlainLinePrepared(line: string)
    requires |line| > 0 && !IsSpace(line[0]) && line[0] != '\0'
    requires forall j :: 0 <= j < |line| ==> !EndsLine(line[j]) && !('A' <= line[j] <= 'Z')
    ensures PrepLine(line) == Some(line)
  {
    assert SpaceRun(line) == 0;
    LineRunAll(line);
    assert line[0..] == line && line[..|line|] == line;
    LowerIdentity(line);
  }

  /** A word followed by a space and more text is the next token, and
      reading continues after the space. */
  lemma NextTokenOfWord(tok: string, rest: string)
    requires |tok| > 0 && forall j :: 0 <= j < |tok| ==> !IsDelimiter(tok[j])
    ensures NextToken(tok + " " + rest) == Some((tok, rest))
  {
    var s := tok + " " + rest;
    assert s == tok + (" " + rest);
    assert DelimiterRun(s) == 0 by {
      assert s[0] == tok[0];
    }
    assert s[0..] == s;
    TokenRunPrefix(tok, " " + rest);
    assert s[..|tok|] == tok && s[|tok| + 1..] == rest;
  }

  // How `decl a = 5` is taken apart: no comment, no label, the word `decl`
  // with the default specifier, the argument word `a`, and the rest of the
  // line `a = 5`.

  lemma InitLinePrepared()
    ensures PrepLine("decl a = 5") == Some("decl a = 5")
  {
    PlainLinePrepared("decl a = 5");
  }

  lemma InitLineUnlabelled(env: AsmEnv, m: SymbolMap)
    ensures ReadLabels(env, "decl a = 5", m) == ("decl a = 5", m)
  {
    assert "decl a = 5" == "decl" + " a = 5";
    LabelRunPrefix("decl", " a = 5");
    assert ParseLabel("decl a = 5") == None;
  }

  lemma InitLineTokens()
    ensures NextToken("decl a = 5") == Some(("decl", "a = 5"))
    ensures ArgumentToken("a = 5") == Some("a")
  {
    NextTokenOfWord("decl", "a = 5");
    assert "decl" + " " + "a = 5" == "decl a = 5";
    NextTokenOfWord("a", "= 5");
    assert "a" + " " + "= 5" == "a = 5";
  }

  lemma InitWordSplit(default: char)
    ensures SplitTypeSpec("decl", default) == ("decl", default)
  {
    assert '.' !in "decl";
  }

  lemma InitScan()
    ensures ScanDeclaration("a = 5") == Scan3("a", '=', "5")
  {
    var s := "a = 5";
    assert SpaceRun(s) == 0;
    assert s[0..] == s;
    assert WordRun(s) == 1 by {
      assert s[1..] == " = 5";
    }
    assert s[..1] == "a" && s[1..] == " = 5";
    var u := " = 5";
    assert SpaceRun(u) == 1 by {
      assert u[1..] == "= 5";
    }
    assert u[2..] == " 5";
    var v := " 5";
    assert SpaceRun(v) == 1 by {
      assert v[1..] == "5";
    }
    assert v[1..] == "5";
    assert WordRun("5") == 1 by {
      assert "5"[1..] == [];
    }
    assert "5"[..1] == "5";
  }

  /** `decl a = 5` initialises `a` with the parsed value when the
      declaration gets the rest of the line; handed only the word `a`, the
      entry stays uninitialised. */
  lemma InitialisedDeclaration(env: AsmEnv, out: DecodeResult, t: ValueType, v: Value)
    requires DecodeTypeSpec(env.defaultSpec) == Ok(t)
    requires env.parseValue(t, "5") == Ok(v)
    ensures ReadSingleStatement(env, "decl a = 5", out).Ok?
    ensures ReadSingleStatement(env, "decl a = 5", out).value.kind == DecData
    ensures ReadSingleStatement(env, "decl a = 5", out).value.data == v
    ensures ReadStatementSecondTokenOnly(env, "decl a = 5", out).Ok?
    ensures ReadStatementSecondTokenOnly(env, "decl a = 5", out).value.data == Uninitialised
  {
    InitLinePrepared();
    InitLineUnlabelled(env, out.mentioned);
    InitLineTokens();
    InitWordSplit(env.defaultSpec);
    InitScan();
    SingleWordIsBareDeclaration("a");
  }

  // ---------------------------------------------------------------------
  // The reader's file description
  // ---------------------------------------------------------------------

  datatype FileSectionType = SecCodeImage | SecDataImage | SecBytepoolImage | SecSymbolMap
                           | SecNonUniform | SecStub

  /** The open file's description: a queue of (section type, records). */
  datatype FileProperties = FileProperties(description: seq<(FileSectionType, nat)>)

  /** An assembly file is always described as a stub followed by one
      non-uniform (stream) section. */
  function RdSetup(): (p: FileProperties)
    ensures |p.description| == 2 && p.description[0].0 == SecStub && p.description[1].0 == SecNonUniform
  {
    FileProperties([(SecStub, 0), (SecNonUniform, 0)])
  }

  /** Advances to the next section: the stub at the front is popped and the
      next section's type reported with 1; when the front is not a stub
      there are no more sections and the result is 0. */
  function NextSection(p: FileProperties): (r: (nat, Option<FileSectionType>, FileProperties))
    requires |p.description| > 0
    requires p.description[0].0 == SecStub ==> |p.description| >= 2
    ensures r.0 == 1 <==> p.description[0].0 == SecStub
    ensures r.0 == 0 ==> r.1.None? && r.2 == p
    ensures r.0 == 1 ==> r.2.description == p.description[1..] && r.1 == Some(p.description[1].0)
    ensures r.0 <= 1
  {
    if p.description[0].0 != SecStub then (0, None, p)
    else (1, Some(p.description[1].0), FileProperties(p.description[1..]))
  }

  /** After RdSetup the first NextSection reports the stream section, and
      every later one reports nothing and changes nothing. */
  lemma NextSectionSequence(k: nat)
    ensures var first := NextSection(RdSetup());
            first.0 == 1 && first.1 == Some(SecNonUniform)
            && NextSectionIterate(first.2, k) == (0, first.2)
  {
    var first := NextSection(RdSetup());
    NextSectionStays(first.2, k);
  }

  /** The result of the last of `k + 1` further calls, and the description
      they leave. */
  function NextSectionIterate(p: FileProperties, k: nat): (nat, FileProperties)
    requires |p.description| > 0 && p.description[0].0 != SecStub
  {
    var r := NextSection(p);
    if k == 0 then (r.0, r.2) else NextSectionIterate(r.2, k - 1)
  }

  lemma {:induction false} NextSectionStays(p: FileProperties, k: nat)
    requires |p.description| > 0 && p.description[0].0 != SecStub
    ensures NextSectionIterate(p, k) == (0, p)
  {
    if k > 0 {
      NextSectionStays(p, k - 1);
    }
  }
}
