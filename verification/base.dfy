/** Failure-compatible wrappers and the error taxonomy shared by every part
    of the virtual machine model: structural, decode, link, execution and
    backend errors, each constructor naming the check that failed. */
module Base {

  datatype Option<+T> = None | Some(value: T)

  datatype Error =
    // Linker (LinkError)
    | InputInconsistent(key: nat)
    | AliasTargetNotInBatch(target: nat)
    | AutoPlacementForbidden(key: nat)
    | InvalidSection
    | Redefinition(key: nat)
    | Unresolved(key: nat)
    | AliasTargetMissing(target: nat)
    | CircularAlias(target: nat)
    | StubAddress
    | BeyondText(address: nat)
    | BeyondData(address: nat)
    | SymbolNotFound(hash: nat)
    | NonTerminating(hash: nat)
    // Interpreter (ExecutionError)
    | WriteToCode
    | ReadFromCode
    | TypeChangeForbidden
    | UninitialisedValue
    | JumpOutsideCode
    | NotInteger
    | UnknownCommand(id: nat)
    | NoExecutor
    | NoBuffer
    | OutOfRange
    | ContextStackEmpty
    | OutOfFuel
    // Decoding (DecodeError)
    | UnknownRegister
    | BadRegisterId(id: nat)
    | BadSpecifier(c: char)
    | BadTypeSpec(c: char)
    | ParseError
    | EmptyDeclaration
    | ArgumentMismatch
    | UnknownMnemonic
    // Structural and engine errors
    | InvalidFile
    | NotImplemented
    | SymbolMapSize
    | DeleteBaseBuffer
    | BackendMissing
    | ReaderMissing
    | NonQwordRegister
    | CompileFailed

  datatype Result<+T> = Ok(value: T) | Err(error: Error) {

    predicate IsFailure() {
      Err?
    }

    function PropagateFailure<U>(): Result<U>
      requires Err?
    {
      Err(error)
    }

    function Extract(): T
      requires Ok?
    {
      value
    }
  }

  /** Pass/Fail for checks that produce no value. */
  datatype Outcome = Pass | Fail(error: Error) {

    predicate IsFailure() {
      Fail?
    }

    function PropagateFailure<U>(): Result<U>
      requires Fail?
    {
      Err(error)
    }
  }

  function Need(condition: bool, error: Error): (r: Outcome)
  {
    if condition then Pass else Fail(error)
  }

  /** `k` is the least element of `s`. */
  predicate IsLeast(k: nat, s: set<nat>)
  {
    k in s && forall j :: j in s ==> k <= j
  }

  /** The least element of a non-empty finite set of naturals: the order in
      which an ascending ordered map visits its keys. */
  function MinKey(s: set<nat>): (k: nat)
    requires s != {}
    ensures k in s
    ensures forall j :: j in s ==> k <= j
  {
    MinExists(s);
    var k :| IsLeast(k, s);
    k
  }

  lemma {:induction false} MinExists(s: set<nat>)
    requires s != {}
    ensures exists k :: IsLeast(k, s)
    decreases |s|
  {
    var x :| x in s;
    var rest := s - {x};
    if rest == {} {
      assert IsLeast(x, s) by {
        forall j | j in s
          ensures x <= j
        {
          assert j !in rest;
        }
      }
    } else {
      MinExists(rest);
      var m :| IsLeast(m, rest);
      var k := if x < m then x else m;
      assert IsLeast(k, s) by {
        forall j | j in s
          ensures k <= j
        {
          if j != x {
            assert j in rest;
          }
        }
      }
    }
  }
}
