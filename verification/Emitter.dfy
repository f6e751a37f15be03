// The emitter of the packed-COO program.
module Emitter {
  import opened Reduction
  import opened Naming
  import opened CloudProgram

  const SEGMENT_STARTS := "segment-starts"

  // ----- the emitted program -----

  function Rung(name: Suffix -> string, reduced: Suffix, span: nat, r: nat): seq<Node> {
    [Rotate(name(Rotated(r)), name(reduced), r, r),
     AddCiphertexts(name(Sum(span + r)), name(reduced), name(Rotated(r)))]
  }

  // One rotate and one add per rotation; each sum is named by the span it covers.
  function LadderNodes(name: Suffix -> string, reduced: Suffix, span: nat, rotations: seq<nat>): seq<Node>
    decreases |rotations|
  {
    if rotations == [] then []
    else
      var r := rotations[0];
      Rung(name, reduced, span, r) + LadderNodes(name, Sum(span + r), span + r, rotations[1..])
  }

  function Total(rotations: seq<nat>): nat
    decreases |rotations|
  {
    if rotations == [] then 0 else rotations[0] + Total(rotations[1..])
  }

  function LastReduced(reduced: Suffix, span: nat, rotations: seq<nat>): Suffix {
    if rotations == [] then reduced else Sum(span + Total(rotations))
  }

  function Prologue(name: Suffix -> string): seq<Node> {
    [MultiplyCiphertexts(name(Product), name(Values), name(Query)),
     Relinearize(name(Relin), name(Product))]
  }

  function Epilogue(name: Suffix -> string, reduced: Suffix): seq<Node> {
    [MultiplyPlaintextMask(name(Selected), name(reduced), SEGMENT_STARTS),
     AddF1MMask(name(Masked), name(Selected), name(F1MMask), OPAQUE_ZERO_SUM),
     ReturnResult(name(Page), name(Masked))]
  }

  function NodesOf(name: Suffix -> string, rotations: seq<nat>): seq<Node> {
    Prologue(name) + LadderNodes(name, Relin, 1, rotations)
    + Epilogue(name, LastReduced(Relin, 1, rotations))
  }

  function ProgramNodes(components: seq<string>, rotations: seq<nat>): seq<Node> {
    if components == [] then []
    else NodesOf(NamesOf(components[0]), rotations) + ProgramNodes(components[1..], rotations)
  }

  lemma {:induction false} PrologueText(c: string)
    ensures Prologue(NamesOf(c)) == [
      MultiplyCiphertexts(c + "-product", c + "-values", c + "-query"),
      Relinearize(c + "-relinearized", c + "-product")]
    ensures NamesOf(c)(Relin) == c + "-relinearized"
  {
    FixedNames(c);
  }

  lemma {:induction false} EpilogueText(c: string, reduced: Suffix)
    ensures Epilogue(NamesOf(c), reduced) == [
      MultiplyPlaintextMask(c + "-selected", NamesOf(c)(reduced), SEGMENT_STARTS),
      AddF1MMask(c + "-masked", c + "-selected", c + "-f1m-mask", OPAQUE_ZERO_SUM),
      ReturnResult(c + "-page-000000", c + "-masked")]
  {
    FixedNames(c);
  }

  // The ladder unfolds at its first rung, in nodes, span and last name.
  lemma {:induction false} RungText(c: string, reduced: Suffix, span: nat, rotations: seq<nat>, i: nat)
    requires i < |rotations|
    ensures var r, name := rotations[i], NamesOf(c);
      && LadderNodes(name, reduced, span, rotations[i..])
         == [Rotate(c + "-rotate-" + Decimal(r), name(reduced), r, r)]
            + [AddCiphertexts(c + "-sum-" + Decimal(span + r), name(reduced), c + "-rotate-" + Decimal(r))]
            + LadderNodes(name, Sum(span + r), span + r, rotations[i + 1..])
      && LastReduced(reduced, span, rotations[i..]) == LastReduced(Sum(span + r), span + r, rotations[i + 1..])
      && name(Sum(span + r)) == c + "-sum-" + Decimal(span + r)
  {
    hide Text, Decimal;
    assert rotations[i..][0] == rotations[i] && rotations[i..][1..] == rotations[i + 1..];
    assert Total(rotations[i..]) == rotations[i] + Total(rotations[i + 1..]);
    NumberedNames(c, rotations[i]);
    NumberedNames(c, span + rotations[i]);
  }

  method ComponentNodes(component: string, rotations: seq<nat>) returns (nodes: seq<Node>)
    ensures nodes == NodesOf(NamesOf(component), rotations)
  {
    hide Text, Decimal, NamesOf, Prologue, Epilogue, LadderNodes, LastReduced;
    ghost var name := NamesOf(component);
    PrologueText(component);
    nodes := [
      MultiplyCiphertexts(component + "-product", component + "-values", component + "-query"),
      Relinearize(component + "-relinearized", component + "-product")];
    var reducedId := component + "-relinearized";
    var span: nat := 1;
    ghost var reduced := Relin;
    assert rotations[0..] == rotations;
    for i := 0 to |rotations|
      invariant reducedId == name(reduced)
      invariant nodes + LadderNodes(name, reduced, span, rotations[i..])
             == Prologue(name) + LadderNodes(name, Relin, 1, rotations)
      invariant LastReduced(reduced, span, rotations[i..]) == LastReduced(Relin, 1, rotations)
    {
      RungText(component, reduced, span, rotations, i);
      var rotation := rotations[i];
      var rotatedId := component + "-rotate-" + Decimal(rotation);
      var summedId := component + "-sum-" + Decimal(span + rotation);
      nodes := nodes + [Rotate(rotatedId, reducedId, rotation, rotation)]
        + [AddCiphertexts(summedId, reducedId, rotatedId)];
      reducedId := summedId;
      span := span + rotation;
      reduced := Sum(span);
    }
    NoMoreRungs(name, reduced, span, rotations[|rotations|..]);
    EpilogueText(component, reduced);
    nodes := nodes + [
      MultiplyPlaintextMask(component + "-selected", reducedId, SEGMENT_STARTS),
      AddF1MMask(component + "-masked", component + "-selected", component + "-f1m-mask", OPAQUE_ZERO_SUM),
      ReturnResult(component + "-page-000000", component + "-masked")];
  }

  lemma {:induction false} NoMoreRungs(name: Suffix -> string, reduced: Suffix, span: nat, rotations: seq<nat>)
    requires rotations == []
    ensures LadderNodes(name, reduced, span, rotations) == [] && LastReduced(reduced, span, rotations) == reduced
  {
  }

  method ProgramOf(components: seq<string>, rotations: seq<nat>) returns (nodes: seq<Node>)
    ensures nodes == ProgramNodes(components, rotations)
  {
    nodes := [];
    for i := 0 to |components|
      invariant nodes + ProgramNodes(components[i..], rotations) == ProgramNodes(components, rotations)
    {
      var part := ComponentNodes(components[i], rotations);
      assert components[i..][0] == components[i] && components[i..][1..] == components[i + 1..];
      nodes := nodes + part;
    }
    assert components[|components|..] == [];
  }

  lemma {:induction false} SpanOfPowers(k: nat)
    ensures 1 + Total(PowersOfTwo(0, k)) == Pow2(k)
  {
    TotalOfPowers(0, k);
  }

  // The j-th rung of the power-of-two ladder rotates by 2^j, and its sum is
  // labelled with 2^(j+1), the width of the window it completes.
  lemma {:induction false} SumLabels(
    name: Suffix -> string, reduced: Suffix, from: nat, k: nat, j: nat)
    requires j < k
    ensures var nodes := LadderNodes(name, reduced, Pow2(from), PowersOfTwo(from, k));
      && |nodes| == 2 * k
      && nodes[2 * j].Rotate? && nodes[2 * j].resultId == name(Rotated(Pow2(from + j)))
      && nodes[2 * j].openfheIndex == Pow2(from + j)
      && nodes[2 * j + 1].AddCiphertexts? && nodes[2 * j + 1].resultId == name(Sum(Pow2(from + j + 1)))
    decreases k
  {
    hide LadderNodes, PowersOfTwo, Pow2;
    LadderUnrolls(name, reduced, from, k);
    LadderLength(name, reduced, Pow2(from), PowersOfTwo(from, k));
    if j > 0 {
      SumLabels(name, Sum(Pow2(from + 1)), from + 1, k - 1, j - 1);
      var nodes := LadderNodes(name, reduced, Pow2(from), PowersOfTwo(from, k));
      var tail := LadderNodes(name, Sum(Pow2(from + 1)), Pow2(from + 1), PowersOfTwo(from + 1, k - 1));
      assert nodes[2 * j] == tail[2 * (j - 1)] && nodes[2 * j + 1] == tail[2 * (j - 1) + 1];
    }
  }

  lemma {:induction false} LadderUnrolls(name: Suffix -> string, reduced: Suffix, from: nat, k: nat)
    requires 0 < k
    ensures LadderNodes(name, reduced, Pow2(from), PowersOfTwo(from, k))
         == Rung(name, reduced, Pow2(from), Pow2(from))
            + LadderNodes(name, Sum(Pow2(from + 1)), Pow2(from + 1), PowersOfTwo(from + 1, k - 1))
    ensures Rung(name, reduced, Pow2(from), Pow2(from))[1].resultId == name(Sum(Pow2(from + 1)))
  {
    assert PowersOfTwo(from, k)[1..] == PowersOfTwo(from + 1, k - 1) && PowersOfTwo(from, k)[0] == Pow2(from);
    assert Pow2(from) + Pow2(from) == Pow2(from + 1);
  }

  lemma {:induction false} LadderLength(name: Suffix -> string, reduced: Suffix, span: nat, rotations: seq<nat>)
    ensures |LadderNodes(name, reduced, span, rotations)| == 2 * |rotations|
    decreases |rotations|
  {
    if rotations != [] {
      LadderLength(name, Sum(span + rotations[0]), span + rotations[0], rotations[1..]);
    }
  }

  // The text of those labels.
  lemma {:induction false} SumLabelIsWindowWidth(c: string, k: nat, j: nat)
    requires j < k
    ensures var nodes := LadderNodes(NamesOf(c), Relin, 1, PowersOfTwo(0, k));
      && |nodes| == 2 * k
      && nodes[2 * j].resultId == c + "-rotate-" + Decimal(Pow2(j))
      && nodes[2 * j + 1].resultId == c + "-sum-" + Decimal(Pow2(j + 1))
  {
    hide Text, Decimal, LadderNodes, PowersOfTwo;
    assert Pow2(0) == 1;
    SumLabels(NamesOf(c), Relin, 0, k, j);
    NumberedNames(c, Pow2(j));
    NumberedNames(c, Pow2(j + 1));
  }

  lemma {:induction false} TotalOfPowers(from: nat, k: nat)
    ensures Pow2(from) + Total(PowersOfTwo(from, k)) == Pow2(from + k)
    decreases k
  {
    if k > 0 {
      assert PowersOfTwo(from, k)[1..] == PowersOfTwo(from + 1, k - 1);
      TotalOfPowers(from + 1, k - 1);
    }
  }
}
