// The Cloud program and the runner that interprets it: one straight-line SSA
// node list over a table of ciphertexts. Exceptions of the runner are failures.
module CloudProgram {
  import opened Modular
  import opened Lanes
  import opened Outcomes

  datatype Node =
    | MultiplyCiphertexts(resultId: string, leftId: string, rightId: string)
    | Relinearize(resultId: string, ciphertextId: string)
    | Rotate(resultId: string, ciphertextId: string, logicalShift: int, openfheIndex: int)
    | MultiplyPlaintextMask(resultId: string, ciphertextId: string, maskId: string)
    | AddCiphertexts(resultId: string, leftId: string, rightId: string)
    | AddF1MMask(resultId: string, ciphertextId: string, maskCiphertextId: string, maskRole: string)
    | ReturnResult(resultId: string, ciphertextId: string)

  datatype Fault =
    | EmptyProgram
    | UndefinedCiphertext
    | NotUnrelinearized
    | RotationOutsideCatalog
    | MissingRotationKey
    | UndefinedMask
    | MaskRoleChanged
    | SsaIdentity

  datatype Counts = Counts(
    addF1MMask: nat, evalAddCiphertext: nat, evalMultPlaintextMask: nat,
    multiplyCiphertexts: nat, evalRotate: nat, relinearize: nat, returnResult: nat)

  const NO_OPERATIONS := Counts(0, 0, 0, 0, 0, 0, 0)
  const OPAQUE_ZERO_SUM := "opaque-zero-sum"

  predicate InInt32(x: int) { -0x8000_0000 <= x <= 0x7fff_ffff }

  // What the context and the checked request fix before the run: the batch
  // shape, the rotation catalog, the generated rotation keys and the masks.
  datatype Env = Env(
    rowSize: nat, modulus: Positive,
    rotations: map<int, int>, keys: set<int>, masks: map<string, Packed>)

  datatype State = State(
    ciphertexts: map<string, Ciphertext>, identifiers: set<string>,
    returned: seq<string>, counts: Counts)

  predicate PrintableIdentifier(value: string) {
    && 0 < |value| <= 512
    && forall i | 0 <= i < |value| :: '!' <= value[i] <= '~'
  }

  // ----- specification of one node and of a run -----

  function Define(st: State, id: string, ciphertext: Ciphertext): Result<State, Fault> {
    if !PrintableIdentifier(id) || id in st.identifiers || id in st.ciphertexts then
      Failure(SsaIdentity)
    else
      Success(st.(ciphertexts := st.ciphertexts[id := ciphertext],
                  identifiers := st.identifiers + {id}))
  }

  // The ciphertext a node computes from the ones already defined.
  function Evaluate(env: Env, cts: map<string, Ciphertext>, node: Node): Result<Ciphertext, Fault>
  {
    match node
    case MultiplyCiphertexts(_, left, right) =>
      if left !in cts || right !in cts then Failure(UndefinedCiphertext)
      else
        var product := EvalMultNoRelin(cts[left], cts[right], env.rowSize, env.modulus);
        if product.elements <= 2 then Failure(NotUnrelinearized) else Success(product)
    case Relinearize(_, source) =>
      if source !in cts then Failure(UndefinedCiphertext)
      else if cts[source].elements <= 2 then Failure(NotUnrelinearized)
      else Success(Relinearized(cts[source]))
    case Rotate(_, source, logical, index) =>
      if logical !in env.rotations || env.rotations[logical] != index || !InInt32(index) then
        Failure(RotationOutsideCatalog)
      else if source !in cts then Failure(UndefinedCiphertext)
      else if index !in env.keys then Failure(MissingRotationKey)
      else Success(EvalRotate(cts[source], index, env.rowSize))
    case MultiplyPlaintextMask(_, source, maskId) =>
      if maskId !in env.masks then Failure(UndefinedMask)
      else if source !in cts then Failure(UndefinedCiphertext)
      else Success(EvalMultPlain(cts[source], env.masks[maskId], env.rowSize, env.modulus))
    case AddCiphertexts(_, left, right) =>
      if left !in cts || right !in cts then Failure(UndefinedCiphertext)
      else Success(EvalAdd(cts[left], cts[right], env.rowSize, env.modulus))
    case AddF1MMask(_, source, mask, role) =>
      if role != OPAQUE_ZERO_SUM then Failure(MaskRoleChanged)
      else if source !in cts || mask !in cts then Failure(UndefinedCiphertext)
      else Success(EvalAdd(cts[source], cts[mask], env.rowSize, env.modulus))
    case ReturnResult(_, source) =>
      if source !in cts then Failure(UndefinedCiphertext) else Success(cts[source])
  }

  function Count(counts: Counts, node: Node): Counts {
    match node
    case MultiplyCiphertexts(_, _, _) => counts.(multiplyCiphertexts := counts.multiplyCiphertexts + 1)
    case Relinearize(_, _) => counts.(relinearize := counts.relinearize + 1)
    case Rotate(_, _, _, _) => counts.(evalRotate := counts.evalRotate + 1)
    case MultiplyPlaintextMask(_, _, _) => counts.(evalMultPlaintextMask := counts.evalMultPlaintextMask + 1)
    case AddCiphertexts(_, _, _) => counts.(evalAddCiphertext := counts.evalAddCiphertext + 1)
    case AddF1MMask(_, _, _, _) => counts.(addF1MMask := counts.addF1MMask + 1)
    case ReturnResult(_, _) => counts.(returnResult := counts.returnResult + 1)
  }

  function Record(st: State, node: Node): State {
    st.(returned := if node.ReturnResult? then st.returned + [node.resultId] else st.returned,
        counts := Count(st.counts, node))
  }

  function Step(env: Env, st: State, node: Node): Result<State, Fault>
  {
    match Evaluate(env, st.ciphertexts, node)
    case Failure(e) => Failure(e)
    case Success(ciphertext) =>
      match Define(st, node.resultId, ciphertext)
      case Failure(e) => Failure(e)
      case Success(defined) => Success(Record(defined, node))
  }

  function Run(env: Env, st: State, nodes: seq<Node>): Result<State, Fault>
    decreases |nodes|
  {
    if nodes == [] then Success(st)
    else
      match Step(env, st, nodes[0])
      case Failure(e) => Failure(e)
      case Success(next) => Run(env, next, nodes[1..])
  }

  function Execute(env: Env, st: State, nodes: seq<Node>): Result<State, Fault>
  {
    if nodes == [] then Failure(EmptyProgram) else Run(env, st, nodes)
  }

  lemma {:induction false} RunAppend(env: Env, st: State, a: seq<Node>, b: seq<Node>)
    ensures Run(env, st, a + b)
         == match Run(env, st, a) { case Failure(e) => Failure(e) case Success(mid) => Run(env, mid, b) }
    decreases |a|
  {
    if a == [] {
      assert a + b == b;
    } else {
      assert (a + b)[1..] == a[1..] + b;
      var r := Step(env, st, a[0]);
      if r.Success? {
        RunAppend(env, r.value, a[1..], b);
      }
    }
  }

  // ----- the runner itself -----

  class Runner {
    var ciphertexts: map<string, Ciphertext>
    var identifiers: set<string>
    var counts: Counts

    constructor (inputs: map<string, Ciphertext>)
      ensures ciphertexts == inputs && identifiers == inputs.Keys && counts == NO_OPERATIONS
    {
      ciphertexts := inputs;
      identifiers := inputs.Keys;
      counts := NO_OPERATIONS;
    }

    // The abstract state, given the results returned so far.
    ghost function Abstract(returned: seq<string>): State
      reads this
    {
      State(ciphertexts, identifiers, returned, counts)
    }

    method DefineCiphertext(id: string, ciphertext: Ciphertext) returns (ok: bool)
      modifies this`ciphertexts, this`identifiers
      ensures forall returned ::
        (Define(old(Abstract(returned)), id, ciphertext)
         == if ok then Success(Abstract(returned)) else Failure(SsaIdentity))
      ensures !ok ==> unchanged(this)
    {
      if !PrintableIdentifier(id) || id in identifiers || id in ciphertexts {
        return false;
      }
      identifiers := identifiers + {id};
      ciphertexts := ciphertexts[id := ciphertext];
      return true;
    }

    method ExecuteNode(env: Env, returned: seq<string>, node: Node) returns (r: Result<seq<string>, Fault>)
      modifies this
      ensures r.Success? ==> Step(env, old(Abstract(returned)), node) == Success(Abstract(r.value))
      ensures r.Failure? ==> Step(env, old(Abstract(returned)), node) == Failure(r.error)
    {
      match node
      case MultiplyCiphertexts(id, left, right) =>
        if left !in ciphertexts || right !in ciphertexts {
          return Failure(UndefinedCiphertext);
        }
        var product := EvalMultNoRelin(ciphertexts[left], ciphertexts[right], env.rowSize, env.modulus);
        if product.elements <= 2 {
          return Failure(NotUnrelinearized);
        }
        var ok := DefineCiphertext(id, product);
        if !ok { return Failure(SsaIdentity); }
        counts := counts.(multiplyCiphertexts := counts.multiplyCiphertexts + 1);
        return Success(returned);
      case Relinearize(id, source) =>
        if source !in ciphertexts {
          return Failure(UndefinedCiphertext);
        }
        if ciphertexts[source].elements <= 2 {
          return Failure(NotUnrelinearized);
        }
        var ok := DefineCiphertext(id, Relinearized(ciphertexts[source]));
        if !ok { return Failure(SsaIdentity); }
        counts := counts.(relinearize := counts.relinearize + 1);
        return Success(returned);
      case Rotate(id, source, logical, index) =>
        if logical !in env.rotations || env.rotations[logical] != index || !InInt32(index) {
          return Failure(RotationOutsideCatalog);
        }
        if source !in ciphertexts {
          return Failure(UndefinedCiphertext);
        }
        if index !in env.keys {
          return Failure(MissingRotationKey);
        }
        var ok := DefineCiphertext(id, EvalRotate(ciphertexts[source], index, env.rowSize));
        if !ok { return Failure(SsaIdentity); }
        counts := counts.(evalRotate := counts.evalRotate + 1);
        return Success(returned);
      case MultiplyPlaintextMask(id, source, maskId) =>
        if maskId !in env.masks {
          return Failure(UndefinedMask);
        }
        if source !in ciphertexts {
          return Failure(UndefinedCiphertext);
        }
        var ok := DefineCiphertext(
          id, EvalMultPlain(ciphertexts[source], env.masks[maskId], env.rowSize, env.modulus));
        if !ok { return Failure(SsaIdentity); }
        counts := counts.(evalMultPlaintextMask := counts.evalMultPlaintextMask + 1);
        return Success(returned);
      case AddCiphertexts(id, left, right) =>
        if left !in ciphertexts || right !in ciphertexts {
          return Failure(UndefinedCiphertext);
        }
        var ok := DefineCiphertext(
          id, EvalAdd(ciphertexts[left], ciphertexts[right], env.rowSize, env.modulus));
        if !ok { return Failure(SsaIdentity); }
        counts := counts.(evalAddCiphertext := counts.evalAddCiphertext + 1);
        return Success(returned);
      case AddF1MMask(id, source, mask, role) =>
        if role != OPAQUE_ZERO_SUM {
          return Failure(MaskRoleChanged);
        }
        if source !in ciphertexts || mask !in ciphertexts {
          return Failure(UndefinedCiphertext);
        }
        var ok := DefineCiphertext(
          id, EvalAdd(ciphertexts[source], ciphertexts[mask], env.rowSize, env.modulus));
        if !ok { return Failure(SsaIdentity); }
        counts := counts.(addF1MMask := counts.addF1MMask + 1);
        return Success(returned);
      case ReturnResult(id, source) =>
        if source !in ciphertexts {
          return Failure(UndefinedCiphertext);
        }
        var ok := DefineCiphertext(id, ciphertexts[source]);
        if !ok { return Failure(SsaIdentity); }
        counts := counts.(returnResult := counts.returnResult + 1);
        return Success(returned + [id]);
    }

    method ExecuteProgram(env: Env, nodes: seq<Node>) returns (r: Result<seq<string>, Fault>)
      modifies this
      ensures r.Success? ==> Execute(env, old(Abstract([])), nodes) == Success(Abstract(r.value))
      ensures r.Failure? ==> Execute(env, old(Abstract([])), nodes) == Failure(r.error)
    {
      if nodes == [] {
        return Failure(EmptyProgram);
      }
      var returned: seq<string> := [];
      for i := 0 to |nodes|
        invariant Run(env, old(Abstract([])), nodes) == Run(env, Abstract(returned), nodes[i..])
      {
        assert nodes[i..][0] == nodes[i] && nodes[i..][1..] == nodes[i + 1..];
        var stepped := ExecuteNode(env, returned, nodes[i]);
        if stepped.Failure? {
          return stepped;
        }
        returned := stepped.value;
      }
      return Success(returned);
    }
  }
}
