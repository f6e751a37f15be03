// Who reads whom in an accepted program, and the counts that follow: every
// product pairs one value input with one query input, every F1-M operand blinds
// one result, and every blinded result is returned once.
module ProgramCounts {
  import opened Outcomes
  import opened CloudProgram
  import opened ProgramRules

  // ----- pairings of finite sets -----

  // Every member of either set has exactly one partner in the other.
  ghost predicate PairsUp(a: set<nat>, b: set<nat>, r: (nat, nat) -> bool) {
    && (forall x | x in a :: exists y | y in b :: r(x, y))
    && (forall y | y in b :: exists x | x in a :: r(x, y))
    && (forall x, y, z | x in a && y in b && z in b && r(x, y) && r(x, z) :: y == z)
    && (forall x, y, z | x in a && z in a && y in b && r(x, y) && r(z, y) :: x == z)
  }

  lemma {:induction false} PairsAreEqual(a: set<nat>, b: set<nat>, r: (nat, nat) -> bool)
    requires PairsUp(a, b, r)
    ensures |a| == |b|
  {
    if x :| x in a {
      var y :| y in b && r(x, y);
      PairsAreEqual(a - {x}, b - {y}, r);
      assert |a| == |a - {x}| + 1 && |b| == |b - {y}| + 1;
    } else {
      assert a == {};
      assert b == {};
    }
  }

  // ----- the parts of a program -----

  ghost function InputsOf(program: Program, role: string): set<nat> {
    set i: nat | i < |program.inputs| && program.inputs[i].role == role
  }

  ghost function Multiplications(program: Program): set<nat> {
    set k: nat | k < |program.nodes| && program.nodes[k].MultiplyCiphertexts?
  }

  ghost function Relinearizations(program: Program): set<nat> {
    set k: nat | k < |program.nodes| && program.nodes[k].Relinearize?
  }

  ghost function Blindings(program: Program): set<nat> {
    set k: nat | k < |program.nodes| && program.nodes[k].AddF1MMask?
  }

  // The returns whose result has to be blinded: all of them when nothing says which.
  ghost function BlindedReturns(program: Program, required: Option<set<string>>): set<nat> {
    set k: nat | k < |program.nodes| && program.nodes[k].ReturnResult?
      && (required.Some? ==> program.nodes[k].resultId in required.value)
  }

  // Node k multiplies input i, from either side.
  ghost predicate Multiplies(program: Program, k: nat, i: nat) {
    && k < |program.nodes| && i < |program.inputs| && program.nodes[k].MultiplyCiphertexts?
    && (program.nodes[k].leftId == program.inputs[i].inputId || program.nodes[k].rightId == program.inputs[i].inputId)
  }

  ghost predicate Relinearizes(program: Program, k: nat, j: nat) {
    && j < k < |program.nodes| && program.nodes[k].Relinearize?
    && program.nodes[k].ciphertextId == program.nodes[j].resultId
  }

  ghost predicate BlindsWith(program: Program, k: nat, i: nat) {
    && k < |program.nodes| && i < |program.inputs| && program.nodes[k].AddF1MMask?
    && program.nodes[k].maskCiphertextId == program.inputs[i].inputId
  }

  ghost predicate Returns(program: Program, k: nat, j: nat) {
    && j < k < |program.nodes| && program.nodes[k].ReturnResult?
    && program.nodes[k].ciphertextId == program.nodes[j].resultId
  }

  // ----- one reader each -----

  lemma {:induction false} TwoReaders(nodes: seq<Node>, j: nat, k: nat, id: string)
    requires j < k < |nodes| && id in Dependencies(nodes[j]) && id in Dependencies(nodes[k])
    ensures |Consumers(nodes, id)| >= 2
  {
    hide Readings, Dependencies;
    var n := |nodes| - 1;
    if k < n {
      TwoReaders(nodes[..n], j, k, id);
    } else {
      ReadersConsume(nodes[..n], j, id);
      ReaderIsReading(nodes[n], id);
    }
  }

  // Whatever has one consumer has one reader, which is that consumer.
  lemma {:induction false} OneReader(nodes: seq<Node>, id: string)
    requires |Consumers(nodes, id)| == 1
    ensures forall k | 0 <= k < |nodes| && id in Dependencies(nodes[k]) :: nodes[k] == Consumers(nodes, id)[0]
    ensures forall j, k | 0 <= j < |nodes| && 0 <= k < |nodes|
              && id in Dependencies(nodes[j]) && id in Dependencies(nodes[k]) :: j == k
  {
    hide Dependencies, Consumers;
    forall k | 0 <= k < |nodes| && id in Dependencies(nodes[k]) ensures nodes[k] == Consumers(nodes, id)[0] {
      ReadersConsume(nodes, k, id);
    }
    forall j, k | 0 <= j < |nodes| && 0 <= k < |nodes| && id in Dependencies(nodes[j]) && id in Dependencies(nodes[k])
      ensures j == k
    {
      if j < k {
        TwoReaders(nodes, j, k, id);
      } else if k < j {
        TwoReaders(nodes, k, j, id);
      }
    }
  }

  lemma {:induction false} InputIdsDiffer(program: Program, i: nat, j: nat)
    requires OperandsOk(program) && i < |program.inputs| && j < |program.inputs|
    requires program.inputs[i].inputId == program.inputs[j].inputId
    ensures i == j
  {
    var ids := DeclaredIds(program.inputs, program.masks);
    assert ids[i] == program.inputs[i].inputId && ids[j] == program.inputs[j].inputId;
  }

  // An input is read by exactly one node.
  lemma {:induction false} ReadOnce(program: Program, required: Option<set<string>>, i: nat) returns (k: nat)
    requires Admitted(program, required) && i < |program.inputs|
    ensures k < |program.nodes| && program.inputs[i].inputId in Dependencies(program.nodes[k])
    ensures program.nodes[k] == Consumers(program.nodes, program.inputs[i].inputId)[0]
    ensures ConsumedAs(program.inputs[i], Consumers(program.nodes, program.inputs[i].inputId))
    ensures forall j | 0 <= j < |program.nodes| && program.inputs[i].inputId in Dependencies(program.nodes[j]) :: j == k
  {
    hide MasksScheduled, OperandsOk, PublicCatalogOk, NodeOk, Contributes, Consumers, Dependencies;
    var id := program.inputs[i].inputId;
    InputIsOperand(program, id);
    k :| 0 <= k < |program.nodes| && id in Dependencies(program.nodes[k]);
    OneReader(program.nodes, id);
  }

  // ----- the pairings -----

  lemma {:induction false} ProductReadsRoles(program: Program, required: Option<set<string>>, k: nat)
    returns (i: nat, j: nat)
    requires Admitted(program, required) && k in Multiplications(program)
    ensures i in InputsOf(program, "value") && j in InputsOf(program, "query")
    ensures var left, right := program.nodes[k].leftId, program.nodes[k].rightId;
      || (left == program.inputs[i].inputId && right == program.inputs[j].inputId)
      || (left == program.inputs[j].inputId && right == program.inputs[i].inputId)
  {
    hide MasksScheduled, OperandsOk, PublicCatalogOk, ConsumersOk, NothingDead, NewId;
    assert NodeOk(program, required, k);
    var left, right := program.nodes[k].leftId, program.nodes[k].rightId;
    if InputWith(program.inputs, left, VALUE_ROLE) && InputWith(program.inputs, right, QUERY_ROLE) {
      i := InputAt(program, left, VALUE_ROLE);
      j := InputAt(program, right, QUERY_ROLE);
    } else {
      i := InputAt(program, right, VALUE_ROLE);
      j := InputAt(program, left, QUERY_ROLE);
    }
  }

  lemma {:induction false} InputAt(program: Program, id: string, role: string) returns (i: nat)
    requires InputWith(program.inputs, id, role)
    ensures i in InputsOf(program, role) && program.inputs[i].inputId == id
  {
    i :| 0 <= i < |program.inputs| && program.inputs[i].inputId == id && program.inputs[i].role == role;
  }

  // Each product has one value input and one query input, each of which has one product.
  lemma {:induction false} ProductsPairRoles(program: Program, required: Option<set<string>>, role: string)
    requires Admitted(program, required) && role in {"value", "query"}
    ensures PairsUp(Multiplications(program), InputsOf(program, role), (k: nat, i: nat) => Multiplies(program, k, i))
  {
    hide Admitted, Consumers;
    var products, inputs := Multiplications(program), InputsOf(program, role);
    forall k | k in products
      ensures exists i | i in inputs :: Multiplies(program, k, i)
      ensures forall i, j | i in inputs && j in inputs && Multiplies(program, k, i) && Multiplies(program, k, j) :: i == j
    {
      OneOfRole(program, required, k, role);
    }
    forall i | i in inputs
      ensures exists k | k in products :: Multiplies(program, k, i)
      ensures forall j, k | j in products && k in products && Multiplies(program, j, i) && Multiplies(program, k, i) :: j == k
    {
      var k := ReadOnce(program, required, i);
      assert Multiplies(program, k, i);
      assert k in products;
    }
  }

  lemma {:induction false} OneOfRole(program: Program, required: Option<set<string>>, k: nat, role: string)
    requires Admitted(program, required) && k in Multiplications(program) && role in {"value", "query"}
    ensures exists i | i in InputsOf(program, role) :: Multiplies(program, k, i)
    ensures forall i, j | i in InputsOf(program, role) && j in InputsOf(program, role)
              && Multiplies(program, k, i) && Multiplies(program, k, j) :: i == j
  {
    var v, q := ProductReadsRoles(program, required, k);
    hide Admitted;
    assert Multiplies(program, k, v) && Multiplies(program, k, q);
    var x := if role == "value" then v else q;
    forall i | i in InputsOf(program, role) && Multiplies(program, k, i) ensures i == x {
      assert OperandsOk(program) by { AdmittedOperands(program, required); }
      if program.inputs[i].inputId == program.inputs[v].inputId {
        InputIdsDiffer(program, i, v);
      } else {
        InputIdsDiffer(program, i, q);
      }
    }
  }

  lemma {:induction false} AdmittedOperands(program: Program, required: Option<set<string>>)
    requires Admitted(program, required)
    ensures OperandsOk(program)
  {
    hide OperandsOk;
  }

  lemma {:induction false} ConsumerReads(nodes: seq<Node>, id: string) returns (k: nat)
    requires Consumers(nodes, id) != []
    ensures k < |nodes| && nodes[k] == Consumers(nodes, id)[0] && id in Dependencies(nodes[k])
  {
    var n := |nodes| - 1;
    if Consumers(nodes[..n], id) != [] {
      k := ConsumerReads(nodes[..n], id);
    } else {
      k := n;
    }
  }

  lemma {:induction false} ComputedOnce(program: Program, required: Option<set<string>>, i: nat, j: nat)
    requires Admitted(program, required) && i < |program.nodes| && j < |program.nodes|
    requires program.nodes[i].resultId == program.nodes[j].resultId
    ensures i == j
  {
    hide UsesOk, MasksScheduled, OperandsOk, PublicCatalogOk, ConsumersOk, NothingDead;
    assert NodeOk(program, required, i) && NodeOk(program, required, j);
  }

  // Each product is relinearised once, and nothing else is.
  lemma {:induction false} ProductsAreRelinearized(program: Program, required: Option<set<string>>)
    requires Admitted(program, required)
    ensures PairsUp(Relinearizations(program), Multiplications(program), (k: nat, j: nat) => Relinearizes(program, k, j))
  {
    hide Admitted;
    var relinearizations, products := Relinearizations(program), Multiplications(program);
    forall k | k in relinearizations
      ensures exists j | j in products :: Relinearizes(program, k, j)
    {
      RelinearizesProduct(program, required, k);
    }
    forall i, j, k | i in products && j in products && Relinearizes(program, k, i) && Relinearizes(program, k, j)
      ensures i == j
    {
      ComputedOnce(program, required, i, j);
    }
    forall j | j in products
      ensures exists k | k in relinearizations :: Relinearizes(program, k, j)
      ensures forall i, k | i in relinearizations && k in relinearizations
                && Relinearizes(program, i, j) && Relinearizes(program, k, j) :: i == k
    {
      RelinearizedOnce(program, required, j);
    }
  }

  lemma {:induction false} RelinearizesProduct(program: Program, required: Option<set<string>>, k: nat)
    requires Admitted(program, required) && k in Relinearizations(program)
    ensures exists j | j in Multiplications(program) :: Relinearizes(program, k, j)
  {
    hide MasksScheduled, OperandsOk, PublicCatalogOk, ConsumersOk, NothingDead, NewId;
    assert NodeOk(program, required, k);
    var j :| 0 <= j < k && Computes(program.nodes, j, program.nodes[k].ciphertextId)
      && program.nodes[j].MultiplyCiphertexts?;
    assert j in Multiplications(program) && Relinearizes(program, k, j);
  }

  lemma {:induction false} RelinearizedOnce(program: Program, required: Option<set<string>>, j: nat)
    requires Admitted(program, required) && j in Multiplications(program)
    ensures exists k | k in Relinearizations(program) :: Relinearizes(program, k, j)
    ensures forall i, k | i in Relinearizations(program) && k in Relinearizations(program)
              && Relinearizes(program, i, j) && Relinearizes(program, k, j) :: i == k
  {
    hide Admitted, Consumers;
    var id := program.nodes[j].resultId;
    assert OneRelinearize(Consumers(program.nodes, id)) by { AdmittedProducts(program, required, j); }
    OneReader(program.nodes, id);
    var k := ConsumerReads(program.nodes, id);
    RelinearizesProduct(program, required, k);
    var source :| source in Multiplications(program) && Relinearizes(program, k, source);
    ComputedOnce(program, required, source, j);
  }

  lemma {:induction false} AdmittedProducts(program: Program, required: Option<set<string>>, j: nat)
    requires Admitted(program, required) && j in Multiplications(program)
    ensures OneRelinearize(Consumers(program.nodes, program.nodes[j].resultId))
  {
    hide MasksScheduled, OperandsOk, PublicCatalogOk, NodeOk, NothingDead, OneRelinearize, Consumers;
  }

  // Each F1-M operand blinds one result, and each blinding has one operand.
  lemma {:induction false} BlindingsPairOperands(program: Program, required: Option<set<string>>)
    requires Admitted(program, required)
    ensures PairsUp(Blindings(program), InputsOf(program, "f1m-mask"), (k: nat, i: nat) => BlindsWith(program, k, i))
  {
    hide Admitted, Consumers;
    var blindings, masks := Blindings(program), InputsOf(program, "f1m-mask");
    forall k | k in blindings ensures exists i | i in masks :: BlindsWith(program, k, i) {
      BlindsWithOperand(program, required, k);
    }
    forall i, j, k | i in masks && j in masks && BlindsWith(program, k, i) && BlindsWith(program, k, j) ensures i == j {
      AdmittedOperands(program, required);
      InputIdsDiffer(program, i, j);
    }
    forall i | i in masks
      ensures exists k | k in blindings :: BlindsWith(program, k, i)
      ensures forall j, k | j in blindings && k in blindings && BlindsWith(program, j, i) && BlindsWith(program, k, i) :: j == k
    {
      var k := ReadOnce(program, required, i);
      assert BlindsWith(program, k, i);
      assert k in blindings;
    }
  }

  lemma {:induction false} BlindsWithOperand(program: Program, required: Option<set<string>>, k: nat)
    requires Admitted(program, required) && k in Blindings(program)
    ensures exists i | i in InputsOf(program, "f1m-mask") :: BlindsWith(program, k, i)
  {
    hide MasksScheduled, OperandsOk, PublicCatalogOk, ConsumersOk, NothingDead, NewId;
    assert NodeOk(program, required, k);
    var i := InputAt(program, program.nodes[k].maskCiphertextId, "f1m-mask");
    assert BlindsWith(program, k, i);
  }

  // ----- the returns -----

  lemma {:induction false} ReturnIsCounted(nodes: seq<Node>, k: nat)
    requires k < |nodes| && nodes[k].ReturnResult?
    ensures ReturnedSources(nodes)[nodes[k].ciphertextId] >= 1
  {
    if k < |nodes| - 1 {
      ReturnIsCounted(nodes[..|nodes| - 1], k);
    }
  }

  lemma {:induction false} TwoReturnsCount(nodes: seq<Node>, j: nat, k: nat)
    requires j < k < |nodes| && nodes[j].ReturnResult? && nodes[k].ReturnResult?
    requires nodes[j].ciphertextId == nodes[k].ciphertextId
    ensures ReturnedSources(nodes)[nodes[k].ciphertextId] >= 2
  {
    if k < |nodes| - 1 {
      TwoReturnsCount(nodes[..|nodes| - 1], j, k);
    } else {
      ReturnIsCounted(nodes[..k], j);
    }
  }

  lemma {:induction false} CountedIsReturned(nodes: seq<Node>, id: string) returns (k: nat)
    requires ReturnedSources(nodes)[id] >= 1
    ensures k < |nodes| && nodes[k].ReturnResult? && nodes[k].ciphertextId == id
  {
    var n := |nodes| - 1;
    if nodes[n].ReturnResult? && nodes[n].ciphertextId == id {
      k := n;
    } else {
      k := CountedIsReturned(nodes[..n], id);
    }
  }

  // Each result that has to be blinded returns one blinding, each of which is returned once.
  lemma {:induction false} BlindingsAreReturned(program: Program, required: Option<set<string>>)
    requires Admitted(program, required)
    ensures PairsUp(BlindedReturns(program, required), Blindings(program), (k: nat, j: nat) => Returns(program, k, j))
  {
    hide Admitted;
    var returns_, blindings := BlindedReturns(program, required), Blindings(program);
    forall k | k in returns_ ensures exists j | j in blindings :: Returns(program, k, j) {
      var j := ReturnedProducer(program, required, k);
    }
    forall i, j, k | i in blindings && j in blindings && Returns(program, k, i) && Returns(program, k, j) ensures i == j {
      ComputedOnce(program, required, i, j);
    }
    forall j | j in blindings
      ensures exists k | k in returns_ :: Returns(program, k, j)
      ensures forall i, k | i in returns_ && k in returns_ && Returns(program, i, j) && Returns(program, k, j) :: i == k
    {
      ReturnedOnce(program, required, j);
    }
  }

  lemma {:induction false} ReturnedProducer(program: Program, required: Option<set<string>>, k: nat) returns (j: nat)
    requires Admitted(program, required) && k < |program.nodes| && program.nodes[k].ReturnResult?
    ensures Returns(program, k, j)
    ensures k in BlindedReturns(program, required) <==> j in Blindings(program)
  {
    hide MasksScheduled, OperandsOk, PublicCatalogOk, ConsumersOk, NothingDead, NewId;
    assert NodeOk(program, required, k);
    var node := program.nodes[k];
    j :| 0 <= j < k && Computes(program.nodes, j, node.ciphertextId)
      && Returnable(program.nodes[j], MaskRequired(required, node.resultId));
  }

  lemma {:induction false} ReturnedOnce(program: Program, required: Option<set<string>>, j: nat)
    requires Admitted(program, required) && j in Blindings(program)
    ensures exists k | k in BlindedReturns(program, required) :: Returns(program, k, j)
    ensures forall i, k | 0 <= i <= k && Returns(program, i, j) && Returns(program, k, j) :: i == k
  {
    hide Admitted, ReturnedSources;
    assert ReturnedSources(program.nodes)[program.nodes[j].resultId] == 1 by {
      AdmittedBlinding(program, required, j);
    }
    var k := CountedIsReturned(program.nodes, program.nodes[j].resultId);
    var producer := ReturnedProducer(program, required, k);
    ComputedOnce(program, required, producer, j);
    forall i, k | 0 <= i <= k && Returns(program, i, j) && Returns(program, k, j) ensures i == k {
      if i < k {
        TwoReturnsCount(program.nodes, i, k);
      }
    }
  }

  lemma {:induction false} AdmittedBlinding(program: Program, required: Option<set<string>>, j: nat)
    requires Admitted(program, required) && j in Blindings(program)
    ensures ReturnedSources(program.nodes)[program.nodes[j].resultId] == 1
  {
    hide ReturnedSources, OperandsOk, PublicCatalogOk, NodeOk, NothingDead, ConsumersOk, MaskUses;
  }

  // ----- the counts -----

  // An accepted program has as many value inputs as query inputs as products as
  // relinearisations, and as many F1-M operands as blindings as blinded results.
  lemma {:induction false} AcceptedCountsAgree(program: Program, required: Option<set<string>>)
    requires Admitted(program, required)
    ensures |InputsOf(program, "value")| == |InputsOf(program, "query")| == |Multiplications(program)|
         == |Relinearizations(program)|
    ensures |InputsOf(program, "f1m-mask")| == |Blindings(program)| == |BlindedReturns(program, required)|
  {
    hide Admitted, PairsUp;
    ProductsPairRoles(program, required, "value");
    PairsAreEqual(Multiplications(program), InputsOf(program, "value"), (k: nat, i: nat) => Multiplies(program, k, i));
    ProductsPairRoles(program, required, "query");
    PairsAreEqual(Multiplications(program), InputsOf(program, "query"), (k: nat, i: nat) => Multiplies(program, k, i));
    ProductsAreRelinearized(program, required);
    PairsAreEqual(Relinearizations(program), Multiplications(program), (k: nat, j: nat) => Relinearizes(program, k, j));
    BlindingsPairOperands(program, required);
    PairsAreEqual(Blindings(program), InputsOf(program, "f1m-mask"), (k: nat, i: nat) => BlindsWith(program, k, i));
    BlindingsAreReturned(program, required);
    PairsAreEqual(BlindedReturns(program, required), Blindings(program), (k: nat, j: nat) => Returns(program, k, j));
  }
}
