// Where no result has to be blinded the rules admit all three ways to end: a
// relinearised product, a selection, and a sum.
module UnmaskedResults {
  import opened Outcomes
  import opened CloudProgram
  import opened RowConfinement
  import opened ProgramRules

  function ThreeEndings(slotCount: nat): Program {
    Program(
      PROGRAM_FORMAT, slotCount,
      [CiphertextInput("q", QUERY_ROLE, slotCount), CiphertextInput("v", VALUE_ROLE, slotCount)],
      [PublicMask("s", SELECTION_ROLE, slotCount, seq(slotCount, _ => 1))], EndingNodes(), ["x", "y", "z"], [])
  }

  function EndingNodes(): seq<Node> {
    [MultiplyCiphertexts("a", "v", "q"), Relinearize("b", "a"), MultiplyPlaintextMask("c", "b", "s"),
     AddCiphertexts("d", "b", "c"), ReturnResult("x", "b"), ReturnResult("y", "c"), ReturnResult("z", "d")]
  }

  lemma {:induction false} EndingOperands(slotCount: nat)
    requires 0 < slotCount
    ensures var program := ThreeEndings(slotCount);
      && OperandsOk(program) && DeclaredIds(program.inputs, program.masks) == ["q", "v", "s"]
      && InputWith(program.inputs, "q", "query") && InputWith(program.inputs, "v", "value")
      && IsMask(program.masks, "s")
  {
    hide EndingNodes;
    var program := ThreeEndings(slotCount);
    var ids := DeclaredIds(program.inputs, program.masks);
    assert ids[0] == "q" && ids[1] == "v" && ids[2] == "s";
    OneLetter('q');
    OneLetter('v');
    OneLetter('s');
    assert program.inputs[0].inputId == "q" && program.inputs[1].inputId == "v" && program.masks[0].maskName == "s";
  }

  lemma {:induction false} OneLetter(c: char)
    requires '!' <= c <= '~'
    ensures AsciiIdentifier([c])
  {
  }

  lemma {:induction false} EndingIds(program: Program)
    requires program.nodes == EndingNodes() && DeclaredIds(program.inputs, program.masks) == ["q", "v", "s"]
    ensures forall k | 0 <= k < |program.nodes| :: NewId(program, k, program.nodes[k].resultId)
  {
    hide DeclaredIds, AsciiIdentifier;
    var letters := ['a', 'b', 'c', 'd', 'x', 'y', 'z'];
    forall k | 0 <= k < 7 ensures NewId(program, k, program.nodes[k].resultId) {
      OneLetter(letters[k]);
      assert program.nodes[k].resultId == [letters[k]];
    }
  }

  lemma {:induction false} EndingUses(program: Program)
    requires program.nodes == EndingNodes() && IsMask(program.masks, "s")
    requires InputWith(program.inputs, "q", "query") && InputWith(program.inputs, "v", "value")
    ensures forall k | 0 <= k < |program.nodes| :: UsesOk(program, Some({}), k, program.nodes[k])
  {
    hide InputWith, IsInput, IsMask;
    var nodes := program.nodes;
    assert Computes(nodes, 0, "a") && Computes(nodes, 1, "b") && Computes(nodes, 2, "c") && Computes(nodes, 3, "d");
  }

  lemma {:induction false} EndingReturns()
    ensures ReturnIds(EndingNodes()) == ["x", "y", "z"]
  {
    hide ReturnIds;
    var nodes := EndingNodes();
    ReturnIdsAppend(nodes[..4], nodes[4..]);
    assert nodes[..4] + nodes[4..] == nodes;
    NoReturns(nodes[..4]);
    AllReturns(nodes[4..]);
    assert ReturnIds(nodes[4..])[0] == "x" && ReturnIds(nodes[4..])[1] == "y" && ReturnIds(nodes[4..])[2] == "z";
  }

  lemma {:induction false} NoReturns(nodes: seq<Node>)
    requires forall k | 0 <= k < |nodes| :: !nodes[k].ReturnResult?
    ensures ReturnIds(nodes) == []
    decreases |nodes|
  {
    if nodes != [] {
      NoReturns(nodes[1..]);
    }
  }

  lemma {:induction false} AllReturns(nodes: seq<Node>)
    requires forall k | 0 <= k < |nodes| :: nodes[k].ReturnResult?
    ensures |ReturnIds(nodes)| == |nodes| && forall k | 0 <= k < |nodes| :: ReturnIds(nodes)[k] == nodes[k].resultId
    decreases |nodes|
  {
    if nodes != [] {
      AllReturns(nodes[1..]);
    }
  }

  // The consumers of an id that one node reads.
  lemma {:induction false} OneConsumer(nodes: seq<Node>, id: string, reader: nat)
    requires reader < |nodes| && Readings(nodes[reader], id) == [nodes[reader]]
    requires forall k | 0 <= k < |nodes| && k != reader :: Readings(nodes[k], id) == []
    ensures Consumers(nodes, id) == [nodes[reader]]
  {
    hide Readings;
    var n := |nodes| - 1;
    if reader < n {
      OneConsumer(nodes[..n], id, reader);
    } else {
      NoConsumer(nodes[..n], id);
    }
  }

  lemma {:induction false} NoConsumer(nodes: seq<Node>, id: string)
    requires forall k | 0 <= k < |nodes| :: Readings(nodes[k], id) == []
    ensures Consumers(nodes, id) == []
  {
    hide Readings;
    if nodes != [] {
      NoConsumer(nodes[..|nodes| - 1], id);
    }
  }

  lemma {:induction false} EndingConsumers(program: Program, slotCount: nat)
    requires program == ThreeEndings(slotCount)
    ensures ConsumersOk(program) && MasksScheduled(program)
  {
    hide Consumers, Readings, EndingNodes, ReturnedSources, MaskUses;
    EndingKinds();
    EndingReadings("q", 0);
    EndingReadings("v", 0);
    EndingReadings("a", 1);
    OneConsumer(program.nodes, "q", 0);
    OneConsumer(program.nodes, "v", 0);
    OneConsumer(program.nodes, "a", 1);
  }

  lemma {:induction false} EndingKinds()
    ensures |EndingNodes()| == 7 && EndingNodes()[0].MultiplyCiphertexts? && EndingNodes()[0].resultId == "a"
    ensures forall k | 0 < k < 7 :: !EndingNodes()[k].MultiplyCiphertexts?
    ensures forall k | 0 <= k < 7 :: !EndingNodes()[k].AddF1MMask? && (EndingNodes()[k].Relinearize? <==> k == 1)
  {
  }

  lemma {:induction false} EndingReadings(id: string, reader: nat)
    requires ((id == "q" || id == "v") && reader == 0) || (id == "a" && reader == 1)
    ensures |EndingNodes()| == 7
    ensures forall k | 0 <= k < 7 :: Readings(EndingNodes()[k], id) == if k == reader then [EndingNodes()[k]] else []
  {
    hide Dependencies;
    EndingDependencies();
  }

  lemma {:induction false} EndingDependencies()
    ensures var nodes := EndingNodes();
      && Dependencies(nodes[0]) == ["v", "q"] && Dependencies(nodes[1]) == ["a"] && Dependencies(nodes[2]) == ["b", "s"]
      && Dependencies(nodes[3]) == ["b", "c"] && Dependencies(nodes[4]) == [] == Dependencies(nodes[5])
      && Dependencies(nodes[6]) == []
  {
  }

  lemma {:induction false} EndingsLive(program: Program)
    requires program.nodes == EndingNodes() && DeclaredIds(program.inputs, program.masks) == ["q", "v", "s"]
    ensures NothingDead(program)
  {
    hide DeclaredIds;
    var nodes := program.nodes;
    assert Computes(nodes, 0, "a");
    forall live: set<string> | LiveClosed(nodes, live) ensures {"a", "b", "c", "d"} <= live {
      assert nodes[4].ciphertextId in live && nodes[5].ciphertextId in live && nodes[6].ciphertextId in live;
      assert nodes[1].resultId in live && "a" in Dependencies(nodes[1]);
    }
    assert "q" in Dependencies(nodes[0]) && "v" in Dependencies(nodes[0]) && "s" in Dependencies(nodes[2]);
  }

  lemma {:induction false} ThreeEndingsAdmitted(slotCount: nat)
    requires 0 < slotCount
    ensures Admitted(ThreeEndings(slotCount), Some({}))
  {
    var program := ThreeEndings(slotCount);
    hide OperandsOk, DeclaredIds, InputWith, IsMask, NewId, UsesOk, MasksScheduled, ConsumersOk, NothingDead, ReturnIds,
      EndingNodes;
    EndingOperands(slotCount);
    EndingIds(program);
    EndingUses(program);
    EndingReturns();
    EndingConsumers(program, slotCount);
    EndingsLive(program);
  }
}
