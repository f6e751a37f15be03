// The identifiers the whole-query witness gives its trace: an operand's nodes
// share none with one another, with the inputs, or with another operand's nodes.
module OperandLabels {
  import opened Naming
  import opened CloudProgram
  import opened EmittedRun
  import opened WholeQuery
  import opened OperandReplay

  // ----- six-digit numbers determine their value -----

  lemma {:induction false} LeadingZeros(zeros: string, s: string)
    requires forall c | c in zeros :: c == '0'
    ensures TextValue(zeros + s) == TextValue(s)
    decreases |zeros| + |s|
  {
    if s != "" {
      assert (zeros + s)[..|zeros + s| - 1] == zeros + s[..|s| - 1];
      LeadingZeros(zeros, s[..|s| - 1]);
    } else if zeros != "" {
      assert zeros + s == zeros && zeros[|zeros| - 1] in zeros;
      var shorter := zeros[..|zeros| - 1];
      forall c | c in shorter ensures c == '0' {
        assert c in zeros;
      }
      LeadingZeros(shorter, "");
      assert shorter + "" == shorter;
    }
  }

  lemma {:induction false} OrdinalValue(v: nat)
    requires LabelFits(v)
    ensures TextValue(Ordinal(v)) == v && |Ordinal(v)| == 6
    ensures forall c | c in Ordinal(v) :: IsDigit(c)
  {
    var zeros := seq(6 - |Decimal(v)|, _ => '0');
    LeadingZeros(zeros, Decimal(v));
    DecimalValue(v);
  }

  // ----- labels -----

  // prefix, operand number, number of the rung
  function Label(prefix: string, ordinal: nat, v: nat): string
    requires LabelFits(ordinal) && LabelFits(v)
  {
    prefix + Ordinal(ordinal) + "-" + Ordinal(v)
  }

  lemma {:induction false} LabelShape(prefix: string, ordinal: nat, v: nat)
    requires LabelFits(ordinal) && LabelFits(v)
    ensures var tag := Label(prefix, ordinal, v);
      && |tag| == |prefix| + 13 && tag[..|prefix|] == prefix && TextValue(tag[|prefix| + 7..]) == v
    ensures |prefix| <= 16 && (forall c | c in prefix :: '!' <= c <= '~') ==> PrintableIdentifier(Label(prefix, ordinal, v))
  {
    hide Ordinal;
    OrdinalValue(ordinal);
    OrdinalValue(v);
    var tag := Label(prefix, ordinal, v);
    assert tag[|prefix| + 7..] == Ordinal(v);
    assert forall c | c in tag :: c in prefix || c in Ordinal(ordinal) || c == '-' || c in Ordinal(v);
    if |prefix| <= 16 && forall c | c in prefix :: '!' <= c <= '~' {
      forall i | 0 <= i < |tag| ensures '!' <= tag[i] <= '~' {
        assert tag[i] in tag;
      }
    }
  }

  const ROTATE := "ssa-rotate-"

  function SumPrefix(ordinal: nat): string {
    if ordinal < BASE_OPERANDS then "ssa-column-sum-" else "ssa-segment-sum-"
  }

  lemma {:induction false} RungLabels(ordinal: nat, k: nat, r: nat)
    requires LabelFits(ordinal) && LabelFits(r) && LabelFits(SumNumber(ordinal, k, r))
    ensures RotateLabel(ordinal, r) == Label(ROTATE, ordinal, r)
    ensures SumLabel(ordinal, k, r) == Label(SumPrefix(ordinal), ordinal, SumNumber(ordinal, k, r))
    ensures RotateLabel(ordinal, r) != SumLabel(ordinal, k, r)
    ensures PrintableIdentifier(RotateLabel(ordinal, r)) && PrintableIdentifier(SumLabel(ordinal, k, r))
  {
    hide Ordinal, PrintableIdentifier;
    LabelShape(ROTATE, ordinal, r);
    LabelShape(SumPrefix(ordinal), ordinal, SumNumber(ordinal, k, r));
    assert RotateLabel(ordinal, r)[..|ROTATE|][5] == 'o' && SumLabel(ordinal, k, r)[..|SumPrefix(ordinal)|][4] != 'r';
  }

  // No key is a rung label with a number above the bounds.
  ghost predicate FreeAbove(keys: set<string>, ordinal: nat, last: nat, sum: nat)
    requires LabelFits(ordinal)
  {
    && (forall r | LabelFits(r) && last < r :: Label(ROTATE, ordinal, r) !in keys)
    && (forall x | LabelFits(x) && sum < x :: Label(SumPrefix(ordinal), ordinal, x) !in keys)
  }

  lemma {:induction false} LabelsDiffer(ordinal: nat, prefix: string, v: nat, other: string, w: nat)
    requires LabelFits(ordinal) && LabelFits(v) && LabelFits(w)
    requires prefix == ROTATE || prefix == SumPrefix(ordinal)
    requires other == ROTATE || other == SumPrefix(ordinal)
    requires prefix != other || v != w
    ensures Label(prefix, ordinal, v) != Label(other, ordinal, w)
  {
    hide Ordinal, TextValue, PrintableIdentifier;
    LabelShape(prefix, ordinal, v);
    LabelShape(other, ordinal, w);
    var tag, otherTag := Label(prefix, ordinal, v), Label(other, ordinal, w);
    assert prefix <= tag && other <= otherTag;
    if tag == otherTag {
      KindTells(prefix, other, tag);
    }
  }

  lemma {:induction false} StaysFree(
    keys: set<string>, ordinal: nat, k: nat, r: nat, last: nat, sum: nat)
    requires LabelFits(ordinal) && LabelFits(r) && LabelFits(SumNumber(ordinal, k, r))
    requires FreeAbove(keys, ordinal, last, sum) && last < r && sum < SumNumber(ordinal, k, r)
    ensures FreeAbove(
      keys + {RotateLabel(ordinal, r)} + {SumLabel(ordinal, k, r)}, ordinal, r, SumNumber(ordinal, k, r))
  {
    hide Label, RotateLabel, SumLabel, LabelFits;
    RungLabels(ordinal, k, r);
    var number := SumNumber(ordinal, k, r);
    forall s | LabelFits(s) && r < s
      ensures Label(ROTATE, ordinal, s) !in keys + {RotateLabel(ordinal, r)} + {SumLabel(ordinal, k, r)}
    {
      LabelsDiffer(ordinal, ROTATE, s, ROTATE, r);
      LabelsDiffer(ordinal, ROTATE, s, SumPrefix(ordinal), number);
    }
    forall x | LabelFits(x) && number < x
      ensures Label(SumPrefix(ordinal), ordinal, x) !in keys + {RotateLabel(ordinal, r)} + {SumLabel(ordinal, k, r)}
    {
      LabelsDiffer(ordinal, SumPrefix(ordinal), x, ROTATE, r);
      LabelsDiffer(ordinal, SumPrefix(ordinal), x, SumPrefix(ordinal), number);
    }
  }

  // ----- every label carries its operand -----

  // The kinds of label; characters 4 to 6 tell them apart.
  const KINDS: set<string> := {
    "ssa-product-", "ssa-relinearized-", "ssa-rotate-", "ssa-column-sum-", "ssa-segment-sum-", "ssa-selected-",
    "ssa-masked-"}

  // The key begins as a label of that operand does.
  predicate CarriedBy(ordinal: nat, key: string)
    requires LabelFits(ordinal)
  {
    exists kind | kind in KINDS :: kind + Ordinal(ordinal) <= key
  }

  lemma {:induction false} KindTells(a: string, b: string, key: string)
    requires a in KINDS && b in KINDS && a <= key && b <= key
    ensures a == b
  {
    assert |a| > 6 && |b| > 6;
    assert a[4] == key[4] == b[4] && a[5] == key[5] == b[5] && a[6] == key[6] == b[6];
  }

  // A label belongs to one operand.
  lemma {:induction false} OneOperand(a: nat, b: nat, key: string)
    requires LabelFits(a) && LabelFits(b) && CarriedBy(a, key) && CarriedBy(b, key)
    ensures a == b
  {
    hide Ordinal;
    var x :| x in KINDS && x + Ordinal(a) <= key;
    var y :| y in KINDS && y + Ordinal(b) <= key;
    OrdinalValue(a);
    OrdinalValue(b);
    assert x <= x + Ordinal(a) && y <= y + Ordinal(b);
    PrefixOfPrefix(x, Ordinal(a), key);
    PrefixOfPrefix(y, Ordinal(b), key);
    KindTells(x, y, key);
    assert Ordinal(a) == key[|x|..|x| + 6] == Ordinal(b);
  }

  lemma {:induction false} PrefixOfPrefix(a: string, b: string, key: string)
    requires a + b <= key
    ensures a <= key && key[|a|..|a| + |b|] == b
  {
    assert key[..|a| + |b|] == a + b;
    assert key[..|a|] == (a + b)[..|a|] == a;
    assert key[|a|..|a| + |b|] == (a + b)[|a|..] == b;
  }

  lemma {:induction false} LabelIsCarried(prefix: string, ordinal: nat, v: nat)
    requires LabelFits(ordinal) && LabelFits(v) && prefix in KINDS
    ensures CarriedBy(ordinal, Label(prefix, ordinal, v))
  {
    hide Ordinal;
    var start := prefix + Ordinal(ordinal);
    assert Label(prefix, ordinal, v) == start + ("-" + Ordinal(v));
    assert start <= Label(prefix, ordinal, v);
  }

  lemma {:induction false} RungLabelsAreCarried(ordinal: nat, k: nat, r: nat)
    requires LabelFits(ordinal) && LabelFits(r) && LabelFits(SumNumber(ordinal, k, r))
    ensures CarriedBy(ordinal, RotateLabel(ordinal, r)) && CarriedBy(ordinal, SumLabel(ordinal, k, r))
  {
    RungLabels(ordinal, k, r);
    LabelIsCarried(ROTATE, ordinal, r);
    LabelIsCarried(SumPrefix(ordinal), ordinal, SumNumber(ordinal, k, r));
  }

  // The sum number that precedes the k-th rung.
  function NumberBefore(ordinal: nat, k: nat, last: nat): nat {
    if ordinal < BASE_OPERANDS then k else 2 * last
  }

  lemma {:induction false} RungsFresh(
    keys: set<string>, ordinal: nat, source: string, accumulated: string, rotations: seq<nat>, k: nat, last: nat)
    requires LabelsFit(ordinal, rotations, k) && AscendingRotations(rotations, last)
    requires FreeAbove(keys, ordinal, last, NumberBefore(ordinal, k, last))
    ensures FreshFrom(keys, RungNodes(ordinal, source, accumulated, rotations, k))
    ensures forall id | id in IdsOf(RungNodes(ordinal, source, accumulated, rotations, k)) :: CarriedBy(ordinal, id)
    decreases |rotations|
  {
    hide Label, RotateLabel, SumLabel, CarriedBy, PrintableIdentifier, FreshFrom, IdsOf, RungNodes;
    if rotations == [] {
      EmptyRungs(keys, ordinal, source, accumulated, k);
    } else {
      var r, rest := rotations[0], rotations[1..];
      UnfoldRungs(ordinal, source, accumulated, rotations, k);
      RungLabels(ordinal, k, r);
      RungLabelsAreCarried(ordinal, k, r);
      StaysFree(keys, ordinal, k, r, last, NumberBefore(ordinal, k, last));
      var sum := SumLabel(ordinal, k, r);
      RungsFresh(keys + {RotateLabel(ordinal, r)} + {sum}, ordinal, source, sum, rest, k + 1, r);
      FreshCons(keys, RungAt(ordinal, source, accumulated, r, k), RungNodes(ordinal, source, sum, rest, k + 1));
    }
  }

  lemma {:induction false} EmptyRungs(keys: set<string>, ordinal: nat, source: string, accumulated: string, k: nat)
    requires LabelFits(ordinal)
    ensures FreshFrom(keys, RungNodes(ordinal, source, accumulated, [], k))
    ensures IdsOf(RungNodes(ordinal, source, accumulated, [], k)) == {}
  {
  }

  // Two new nodes in front of fresh ones.
  lemma {:induction false} FreshCons(keys: set<string>, two: seq<Node>, rest: seq<Node>)
    requires |two| == 2 && PrintableIdentifier(two[0].resultId) && PrintableIdentifier(two[1].resultId)
    requires two[0].resultId !in keys && two[1].resultId !in keys && two[0].resultId != two[1].resultId
    requires FreshFrom(keys + {two[0].resultId} + {two[1].resultId}, rest)
    ensures FreshFrom(keys, two + rest)
    ensures IdsOf(two + rest) == {two[0].resultId, two[1].resultId} + IdsOf(rest)
  {
    hide PrintableIdentifier;
    var nodes := two + rest;
    assert nodes[1..][1..] == rest && nodes[0] == two[0] && nodes[1..][0] == two[1];
    assert IdsOf(nodes[1..]) == {two[1].resultId} + IdsOf(rest);
  }

  // ----- the whole trace -----

  lemma {:induction false} FixedLabel(prefix: string, ordinal: nat)
    requires LabelFits(ordinal) && |prefix| <= 20 && forall c | c in prefix :: '!' <= c <= '~'
    ensures |prefix + Ordinal(ordinal)| == |prefix| + 6 && (prefix + Ordinal(ordinal))[..|prefix|] == prefix
    ensures PrintableIdentifier(prefix + Ordinal(ordinal))
    ensures prefix in KINDS ==> CarriedBy(ordinal, prefix + Ordinal(ordinal))
  {
    hide Ordinal;
    OrdinalValue(ordinal);
    var tag := prefix + Ordinal(ordinal);
    forall i | 0 <= i < |tag| ensures '!' <= tag[i] <= '~' {
      assert tag[i] in prefix || tag[i] in Ordinal(ordinal);
    }
  }

  lemma {:induction false} FixedLabels(ordinal: nat)
    requires LabelFits(ordinal)
    ensures var product, relinearized, selected, masked := "ssa-product-" + Ordinal(ordinal),
        "ssa-relinearized-" + Ordinal(ordinal), "ssa-selected-" + Ordinal(ordinal), "ssa-masked-" + Ordinal(ordinal);
      && PrintableIdentifier(product) && PrintableIdentifier(relinearized)
      && PrintableIdentifier(selected) && PrintableIdentifier(masked)
      && product != relinearized && product != selected && product != masked
      && relinearized != selected && relinearized != masked && selected != masked
      && CarriedBy(ordinal, product) && CarriedBy(ordinal, relinearized)
      && CarriedBy(ordinal, selected) && CarriedBy(ordinal, masked)
  {
    hide Ordinal, PrintableIdentifier;
    FixedLabel("ssa-product-", ordinal);
    FixedLabel("ssa-relinearized-", ordinal);
    FixedLabel("ssa-selected-", ordinal);
    FixedLabel("ssa-masked-", ordinal);
    var product, relinearized, selected, masked := "ssa-product-" + Ordinal(ordinal),
        "ssa-relinearized-" + Ordinal(ordinal), "ssa-selected-" + Ordinal(ordinal), "ssa-masked-" + Ordinal(ordinal);
    assert product[4] == 'p' && relinearized[4] == 'r' && relinearized[5] == 'e';
    assert selected[4] == 's' && selected[6] == 'l' && masked[4] == 'm';
  }

  // Rung labels above the bounds are neither fixed labels nor keys of other operands.
  lemma {:induction false} NothingAbove(keys: set<string>, ordinal: nat)
    requires LabelFits(ordinal) && forall key | key in keys :: !CarriedBy(ordinal, key)
    ensures FreeAbove(
      keys + {"ssa-product-" + Ordinal(ordinal)} + {"ssa-relinearized-" + Ordinal(ordinal)}, ordinal, 0, 0)
  {
    hide Ordinal, CarriedBy;
    forall r | LabelFits(r)
      ensures Label(ROTATE, ordinal, r) !in keys && Label(SumPrefix(ordinal), ordinal, r) !in keys
      ensures NotFixed(ROTATE, ordinal, r) && NotFixed(SumPrefix(ordinal), ordinal, r)
    {
      LabelIsCarried(ROTATE, ordinal, r);
      LabelIsCarried(SumPrefix(ordinal), ordinal, r);
      RungIsNotFixed(ROTATE, ordinal, r);
      RungIsNotFixed(SumPrefix(ordinal), ordinal, r);
    }
  }

  predicate NotFixed(prefix: string, ordinal: nat, r: nat)
    requires LabelFits(ordinal) && LabelFits(r)
  {
    forall kind | kind in {"ssa-product-", "ssa-relinearized-", "ssa-selected-", "ssa-masked-"} ::
      Label(prefix, ordinal, r) != kind + Ordinal(ordinal)
  }

  lemma {:induction false} RungIsNotFixed(prefix: string, ordinal: nat, r: nat)
    requires LabelFits(ordinal) && LabelFits(r) && (prefix == ROTATE || prefix == SumPrefix(ordinal))
    ensures NotFixed(prefix, ordinal, r)
  {
    hide Ordinal;
    LabelShape(prefix, ordinal, r);
    var tag := Label(prefix, ordinal, r);
    assert prefix <= tag;
    forall kind | kind in {"ssa-product-", "ssa-relinearized-", "ssa-selected-", "ssa-masked-"}
      ensures tag != kind + Ordinal(ordinal)
    {
      if tag == kind + Ordinal(ordinal) {
        assert kind <= tag;
        KindTells(prefix, kind, tag);
      }
    }
  }

  // With ascending rotations an operand's trace defines new identifiers only, all
  // its own but the result, whatever labels of other operands are already there.
  lemma {:induction false} LabelsAreFresh(keys: set<string>, ordinal: nat, ids: OperandIds, rotations: seq<nat>)
    requires LabelsFit(ordinal, rotations, 0) && AscendingRotations(rotations, 0)
    requires forall key | key in keys :: !CarriedBy(ordinal, key)
    requires PrintableIdentifier(ids.resultId) && ids.resultId !in keys && !CarriedBy(ordinal, ids.resultId)
    ensures FreshFrom(keys, OperandNodes(ordinal, ids, rotations))
    ensures forall id | id in IdsOf(OperandNodes(ordinal, ids, rotations)) :: id == ids.resultId || CarriedBy(ordinal, id)
  {
    hide Ordinal, PrintableIdentifier, Label, FreshFrom, IdsOf, RungNodes, LastSum, CarriedBy;
    var product, relinearized := "ssa-product-" + Ordinal(ordinal), "ssa-relinearized-" + Ordinal(ordinal);
    var rungs := RungNodes(ordinal, relinearized, relinearized, rotations, 0);
    var last := LastSum(ordinal, relinearized, rotations, 0);
    FixedLabels(ordinal);
    var before := keys + {product} + {relinearized};
    NothingAbove(keys, ordinal);
    RungsFresh(before, ordinal, relinearized, relinearized, rotations, 0, 0);
    RungsAvoidFixed(ordinal, relinearized, relinearized, rotations, 0);
    var after := before + IdsOf(rungs);
    var end := MaskedNodes(ordinal, ids, last);
    FreshThree(after, end);
    FreshConcat(before, rungs, end);
    FreshCons(keys, ProductNodes(ordinal, ids), rungs + end);
    IdsAppend(rungs, end);
    assert OperandNodes(ordinal, ids, rotations) == ProductNodes(ordinal, ids) + (rungs + end);
  }

  lemma {:induction false} RungsAvoidFixed(
    ordinal: nat, source: string, accumulated: string, rotations: seq<nat>, k: nat)
    requires LabelsFit(ordinal, rotations, k)
    ensures var ids := IdsOf(RungNodes(ordinal, source, accumulated, rotations, k));
      "ssa-selected-" + Ordinal(ordinal) !in ids && "ssa-masked-" + Ordinal(ordinal) !in ids
    decreases |rotations|
  {
    hide Ordinal, Label, RotateLabel, SumLabel, RungNodes, IdsOf;
    if rotations == [] {
      EmptyRungs({}, ordinal, source, accumulated, k);
    } else {
      var r, rest := rotations[0], rotations[1..];
      UnfoldRungs(ordinal, source, accumulated, rotations, k);
      RungLabels(ordinal, k, r);
      RungIsNotFixed(ROTATE, ordinal, r);
      RungIsNotFixed(SumPrefix(ordinal), ordinal, SumNumber(ordinal, k, r));
      RungsAvoidFixed(ordinal, source, SumLabel(ordinal, k, r), rest, k + 1);
      var rung := RungAt(ordinal, source, accumulated, r, k);
      IdsAppend(rung, RungNodes(ordinal, source, SumLabel(ordinal, k, r), rest, k + 1));
      TwoIds(rung);
    }
  }

  lemma {:induction false} TwoIds(two: seq<Node>)
    requires |two| == 2
    ensures IdsOf(two) == {two[0].resultId, two[1].resultId}
  {
    assert two[1..] == [two[1]] && [two[1]][1..] == [];
    assert IdsOf([two[1]]) == {two[1].resultId};
  }

  lemma {:induction false} FreshThree(keys: set<string>, nodes: seq<Node>)
    requires |nodes| == 3 && forall i | 0 <= i < 3 :: PrintableIdentifier(nodes[i].resultId) && nodes[i].resultId !in keys
    requires nodes[0].resultId != nodes[1].resultId && nodes[0].resultId != nodes[2].resultId
    requires nodes[1].resultId != nodes[2].resultId
    ensures FreshFrom(keys, nodes)
    ensures IdsOf(nodes) == {nodes[0].resultId, nodes[1].resultId, nodes[2].resultId}
  {
    hide PrintableIdentifier;
    var last := keys + {nodes[0].resultId} + {nodes[1].resultId};
    assert nodes[1..][1..] == [nodes[2]] && nodes[1..][0] == nodes[1] && [nodes[2]][1..] == [];
    assert FreshFrom(last, [nodes[2]]);
    assert FreshFrom(keys + {nodes[0].resultId}, nodes[1..]);
    assert IdsOf([nodes[2]]) == {nodes[2].resultId};
    assert IdsOf(nodes[1..]) == {nodes[1].resultId, nodes[2].resultId};
  }

  lemma {:induction false} FreshConcat(keys: set<string>, a: seq<Node>, b: seq<Node>)
    requires FreshFrom(keys, a) && FreshFrom(keys + IdsOf(a), b)
    ensures FreshFrom(keys, a + b)
    decreases |a|
  {
    hide PrintableIdentifier;
    if a == [] {
      assert a + b == b && keys + IdsOf(a) == keys;
    } else {
      assert (a + b)[1..] == a[1..] + b;
      assert keys + IdsOf(a) == keys + {a[0].resultId} + IdsOf(a[1..]);
      FreshConcat(keys + {a[0].resultId}, a[1..], b);
    }
  }
}
