// The runner's request parsing that decides what the run starts from: private
// inputs, plaintext masks, and the table of encrypted inputs.
module Request {
  import opened Modular
  import opened Lanes
  import opened CloudProgram
  import opened Outcomes

  // ----- byte-wise string order -----

  predicate Precedes(a: string, b: string)
    decreases |a|
  {
    if b == "" then false
    else if a == "" then true
    else a[0] < b[0] || (a[0] == b[0] && Precedes(a[1..], b[1..]))
  }

  // The order of dictionaries: a proper prefix first, else the first difference decides.
  lemma {:induction false} PrecedesIsLexicographic(a: string, b: string)
    ensures Precedes(a, b) <==> exists k | 0 <= k <= |a| && k < |b| ::
      a[..k] == b[..k] && (k == |a| || a[k] < b[k])
    decreases |a|
  {
    if a != "" && b != "" && a[0] == b[0] {
      PrecedesIsLexicographic(a[1..], b[1..]);
      if k :| 0 <= k <= |a[1..]| && k < |b[1..]| && a[1..][..k] == b[1..][..k] && (k == |a[1..]| || a[1..][k] < b[1..][k]) {
        assert a[..k + 1] == [a[0]] + a[1..][..k] && b[..k + 1] == [b[0]] + b[1..][..k];
      }
      if k :| 0 <= k <= |a| && k < |b| && a[..k] == b[..k] && (k == |a| || a[k] < b[k]) {
        assert k > 0;
        assert a[1..][..k - 1] == a[..k][1..] && b[1..][..k - 1] == b[..k][1..];
      }
    } else if a != "" && b != "" {
      assert a[..0] == b[..0];
      if k :| 0 <= k <= |a| && k < |b| && a[..k] == b[..k] && (k == |a| || a[k] < b[k]) {
        assert k == 0 || a[..k][0] == b[..k][0];
      }
    } else {
      assert a[..0] == b[..0];
    }
  }

  lemma {:induction false} PrecedesTransitive(a: string, b: string, c: string)
    requires Precedes(a, b) && Precedes(b, c)
    ensures Precedes(a, c) && a != c
    decreases |a|
  {
    if a != "" && a[0] == b[0] && b[0] == c[0] {
      PrecedesTransitive(a[1..], b[1..], c[1..]);
    }
  }

  lemma {:induction false} PrecedesIrreflexive(a: string)
    ensures !Precedes(a, a)
    decreases |a|
  {
    if a != "" {
      PrecedesIrreflexive(a[1..]);
    }
  }

  ghost predicate Ordered(ids: seq<string>) {
    forall i | 0 < i < |ids| :: Precedes(ids[i - 1], ids[i])
  }

  // Neighbouring order makes all identifiers distinct.
  lemma {:induction false} OrderedFar(ids: seq<string>, i: nat, j: nat)
    requires Ordered(ids) && i < j < |ids|
    ensures Precedes(ids[i], ids[j]) && ids[i] != ids[j]
    decreases j
  {
    assert Precedes(ids[j - 1], ids[j]);
    if i < j - 1 {
      OrderedFar(ids, i, j - 1);
      PrecedesTransitive(ids[i], ids[j - 1], ids[j]);
    } else {
      PrecedesIrreflexive(ids[i]);
    }
  }

  // ----- private ciphertext inputs -----

  datatype RawInput = RawInput(id: string, role: string, kind: Option<string>, values: seq<int>)
  datatype PrivateInput = PrivateInput(id: string, role: string, kind: string, values: seq<int>)

  predicate InInt64(x: int) { -0x8000_0000_0000_0000 <= x <= 0x7fff_ffff_ffff_ffff }

  predicate RoleAndKind(role: string, kind: Option<string>) {
    if role == "f1m-mask" then kind == Some("random-zero-sum") || kind == Some("encrypted-zero-dummy")
    else (role == "query" || role == "value") && kind == None
  }

  // The normalised entries, padded with zeros to the whole batch.
  function Padded(values: seq<int>, batch: nat, p: Positive): (s: seq<int>)
    ensures |s| == batch
  {
    seq(batch, i => if 0 <= i < |values| then NormalizeMod(values[i], p) else 0)
  }

  // Each lane holds the residue of its entry, lanes beyond the entries zero.
  lemma {:induction false} PaddedIsResidue(values: seq<int>, batch: nat, p: Positive, lane: nat)
    requires lane < batch
    ensures 0 <= Padded(values, batch, p)[lane] < p
    ensures Padded(values, batch, p)[lane] == if lane < |values| then values[lane] % p else 0
  {
    if lane < |values| {
      NormalizeModIsResidue(values[lane], p);
    }
  }

  // Only F1-M masks carry a kind; elsewhere it stays empty.
  predicate ParsedAs(parsed: PrivateInput, raw: RawInput, n: nat, p: Positive) {
    && parsed.id == raw.id && parsed.role == raw.role && parsed.values == Padded(raw.values, 2 * n, p)
    && (if raw.kind == None then parsed.kind == "" else raw.kind == Some(parsed.kind))
  }

  ghost predicate AcceptableInput(raw: RawInput, slotCount: nat) {
    && PrintableIdentifier(raw.id) && RoleAndKind(raw.role, raw.kind)
    && |raw.values| == slotCount && forall v | v in raw.values :: InInt64(v)
  }

  ghost predicate AcceptableInputs(raw: seq<RawInput>, slotCount: nat) {
    && raw != []
    && (forall i | 0 <= i < |raw| :: AcceptableInput(raw[i], slotCount))
    && (forall i | 0 < i < |raw| :: Precedes(raw[i - 1].id, raw[i].id))
  }

  method PadInput(values: seq<int>, batch: nat, p: Positive) returns (r: Option<seq<int>>)
    requires |values| <= batch
    ensures r.Some? <==> forall v | v in values :: InInt64(v)
    ensures r.Some? ==> r.value == Padded(values, batch, p)
  {
    hide NormalizeMod;
    var padded := new int[batch](_ => 0);
    for k := 0 to |values|
      invariant fresh(padded) && padded.Length == batch
      invariant forall v | v in values[..k] :: InInt64(v)
      invariant forall l | 0 <= l < batch :: padded[l] == if l < k then NormalizeMod(values[l], p) else 0
    {
      if !InInt64(values[k]) {
        return None;
      }
      assert values[..k + 1] == values[..k] + [values[k]];
      padded[k] := NormalizeMod(values[k], p);
    }
    assert values[..|values|] == values;
    return Some(padded[..]);
  }

  method ParsePrivateInputs(raw: seq<RawInput>, slotCount: nat, n: nat, p: Positive)
    returns (r: Option<seq<PrivateInput>>)
    requires slotCount <= n
    ensures r.Some? <==> AcceptableInputs(raw, slotCount)
    ensures r.Some? ==> |r.value| == |raw| && forall i | 0 <= i < |raw| ::
      ParsedAs(r.value[i], raw[i], n, p)
  {
    hide Padded, Precedes, RoleAndKind, InInt64;
    if raw == [] {
      return None;
    }
    var parsed: seq<PrivateInput> := [];
    var previousId := "";
    for i := 0 to |raw|
      invariant |parsed| == i
      invariant forall j | 0 <= j < i :: AcceptableInput(raw[j], slotCount)
      invariant forall j | 0 < j < i :: Precedes(raw[j - 1].id, raw[j].id)
      invariant previousId == if i == 0 then "" else raw[i - 1].id
      invariant i > 0 ==> previousId != ""
      invariant forall j | 0 <= j < i ::
        ParsedAs(parsed[j], raw[j], n, p)
    {
      var item := raw[i];
      if !PrintableIdentifier(item.id) || (previousId != "" && !Precedes(previousId, item.id)) {
        return None;
      }
      previousId := item.id;
      if !RoleAndKind(item.role, item.kind) || |item.values| != slotCount {
        return None;
      }
      var values := PadInput(item.values, 2 * n, p);
      if values.None? {
        return None;
      }
      var kind := if item.kind.Some? then item.kind.value else "";
      parsed := parsed + [PrivateInput(item.id, item.role, kind, values.value)];
    }
    return Some(parsed);
  }

  // The ids of accepted inputs are pairwise distinct.
  lemma {:induction false} AcceptedIdsDistinct(raw: seq<RawInput>, slotCount: nat, i: nat, j: nat)
    requires AcceptableInputs(raw, slotCount) && i < j < |raw|
    ensures raw[i].id != raw[j].id
  {
    var ids := seq(|raw|, k requires 0 <= k < |raw| => raw[k].id);
    assert Ordered(ids);
    OrderedFar(ids, i, j);
  }

  // ----- encryption of the inputs -----

  // The ciphertext table after encrypting the inputs in order, unless an id repeats.
  method EncryptInputs(inputs: seq<PrivateInput>, n: nat, p: Positive)
    returns (r: Option<map<string, Ciphertext>>)
    ensures r.Some? <==> forall i, j | 0 <= i < j < |inputs| :: inputs[i].id != inputs[j].id
    ensures r.Some? ==> forall id :: id in r.value <==> exists i :: 0 <= i < |inputs| && inputs[i].id == id
    ensures r.Some? ==> forall i | 0 <= i < |inputs| ::
      inputs[i].id in r.value && r.value[inputs[i].id] == Encrypt(inputs[i].values, n, p)
  {
    hide Encrypt;
    var table: map<string, Ciphertext> := map[];
    for k := 0 to |inputs|
      invariant forall i, j | 0 <= i < j < k :: inputs[i].id != inputs[j].id
      invariant forall id :: id in table <==> exists i :: 0 <= i < k && inputs[i].id == id
      invariant forall i | 0 <= i < k :: table[inputs[i].id] == Encrypt(inputs[i].values, n, p)
    {
      if inputs[k].id in table {
        return None;
      }
      table := table[inputs[k].id := Encrypt(inputs[k].values, n, p)];
    }
    return Some(table);
  }

  // ----- plaintext masks -----

  datatype RawMask = RawMask(id: string, length: nat, role: string, values: seq<int>)

  predicate BinaryEntry(x: int) { x == 0 || x == 1 }

  ghost predicate AcceptableMask(raw: RawMask, slotCount: nat) {
    && raw.length == slotCount && raw.role == "selection" && PrintableIdentifier(raw.id)
    && |raw.values| == slotCount && forall v | v in raw.values :: BinaryEntry(v)
  }

  ghost predicate AcceptableMasks(raw: seq<RawMask>, slotCount: nat) {
    && (forall i | 0 <= i < |raw| :: AcceptableMask(raw[i], slotCount))
    && (forall i | 0 < i < |raw| :: Precedes(raw[i - 1].id, raw[i].id))
  }

  function PaddedMask(values: seq<int>, batch: nat): (s: seq<int>)
    ensures |s| == batch
  {
    seq(batch, i => At(values, i))
  }

  method PadMask(values: seq<int>, batch: nat) returns (r: Option<seq<int>>)
    requires |values| <= batch
    ensures r.Some? <==> forall v | v in values :: BinaryEntry(v)
    ensures r.Some? ==> r.value == PaddedMask(values, batch)
  {
    var padded := new int[batch](_ => 0);
    for k := 0 to |values|
      invariant fresh(padded) && padded.Length == batch
      invariant forall v | v in values[..k] :: BinaryEntry(v)
      invariant forall l | 0 <= l < batch :: padded[l] == if l < k then values[l] else 0
    {
      if !BinaryEntry(values[k]) {
        return None;
      }
      assert values[..k + 1] == values[..k] + [values[k]];
      padded[k] := values[k];
    }
    assert values[..|values|] == values;
    return Some(padded[..]);
  }

  method ParseMask(mask: RawMask, slotCount: nat, n: nat) returns (r: Option<Packed>)
    requires slotCount <= n
    ensures r.Some? <==> AcceptableMask(mask, slotCount)
    ensures r.Some? ==> mask.id != "" && r.value == Pack(PaddedMask(mask.values, 2 * n), n)
  {
    hide Pack, PaddedMask;
    if mask.length != slotCount || mask.role != "selection" || !PrintableIdentifier(mask.id)
       || |mask.values| != slotCount {
      return None;
    }
    var padded := PadMask(mask.values, 2 * n);
    if padded.None? {
      return None;
    }
    return Some(Pack(padded.value, n));
  }

  method ParsePlaintextMasks(raw: seq<RawMask>, slotCount: nat, n: nat)
    returns (r: Option<map<string, Packed>>)
    requires slotCount <= n
    ensures r.Some? <==> AcceptableMasks(raw, slotCount)
    ensures r.Some? ==> MaskTable(r.value, raw, n)
  {
    hide Pack, PaddedMask, AcceptableMask, Precedes, MaskTable;
    EmptyMaskTable(n);
    var result: map<string, Packed> := map[];
    var previousId := "";
    for i := 0 to |raw|
      invariant forall j | 0 <= j < i :: AcceptableMask(raw[j], slotCount)
      invariant forall j | 0 < j < i :: Precedes(raw[j - 1].id, raw[j].id)
      invariant previousId == if i == 0 then "" else raw[i - 1].id
      invariant i > 0 ==> previousId != ""
      invariant MaskTable(result, raw[..i], n)
    {
      var parsed := ParseMask(raw[i], slotCount, n);
      if parsed.None? || (previousId != "" && !Precedes(previousId, raw[i].id)) {
        return None;
      }
      previousId := raw[i].id;
      forall j | 0 <= j < i ensures raw[j].id != raw[i].id {
        MaskIdsDistinct(raw, i + 1, j, i);
      }
      ExtendMaskTable(result, raw, i, n);
      result := result[raw[i].id := parsed.value];
    }
    assert raw[..|raw|] == raw;
    return Some(result);
  }

  // The table holds the padded, packed mask of every entry, under its id.
  ghost predicate MaskTable(table: map<string, Packed>, raw: seq<RawMask>, n: nat) {
    && (forall id :: id in table <==> exists i :: 0 <= i < |raw| && raw[i].id == id)
    && forall i | 0 <= i < |raw| ::
         raw[i].id in table && table[raw[i].id] == Pack(PaddedMask(raw[i].values, 2 * n), n)
  }

  lemma {:induction false} EmptyMaskTable(n: nat)
    ensures MaskTable(map[], [], n)
  {
  }

  lemma {:induction false} ExtendMaskTable(table: map<string, Packed>, raw: seq<RawMask>, k: nat, n: nat)
    requires k < |raw| && MaskTable(table, raw[..k], n) && forall j | 0 <= j < k :: raw[j].id != raw[k].id
    ensures MaskTable(table[raw[k].id := Pack(PaddedMask(raw[k].values, 2 * n), n)], raw[..k + 1], n)
  {
    hide Pack, PaddedMask;
    var extended := table[raw[k].id := Pack(PaddedMask(raw[k].values, 2 * n), n)];
    var longer := raw[..k + 1];
    assert longer == raw[..k] + [raw[k]];
    forall i | 0 <= i < k + 1
      ensures longer[i].id in extended
      ensures extended[longer[i].id] == Pack(PaddedMask(longer[i].values, 2 * n), n)
    {
      assert i < k ==> raw[..k][i].id in table;
    }
  }

  lemma {:induction false} MaskIdsDistinct(raw: seq<RawMask>, count: nat, i: nat, j: nat)
    requires count <= |raw| && forall k | 0 < k < count :: Precedes(raw[k - 1].id, raw[k].id)
    requires i < j < count
    ensures raw[i].id != raw[j].id
  {
    var ids := seq(count, k requires 0 <= k < count => raw[k].id);
    assert Ordered(ids);
    OrderedFar(ids, i, j);
  }
}
