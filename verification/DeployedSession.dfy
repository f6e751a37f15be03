// A request that carries the emitted program and the encrypted placement: the
// session succeeds and its results are the product.
module DeployedSession {
  import opened Modular
  import opened Lanes
  import opened Reduction
  import opened Naming
  import opened Outcomes
  import opened Sequences
  import opened CloudProgram
  import opened Emitter
  import opened TypedRuns
  import opened EmittedRun
  import opened Placement
  import opened PackedComponent
  import opened LogicalMatrix
  import opened ClientMerge
  import opened Pipeline
  import opened F1MMasks
  import opened EndToEnd
  import opened Request
  import opened RotationKeys
  import opened RowConfinement
  import opened Session

  // ----- what the request carries -----

  // The same lanes, whatever zero padding either side has.
  ghost predicate SameLanes(values: seq<int>, lanes: seq<int>) {
    forall l: nat :: At(values, l) == At(lanes, l)
  }

  ghost predicate Supplies(inputs: seq<RawInput>, id: string, lanes: seq<int>) {
    exists i :: 0 <= i < |inputs| && inputs[i].id == id && SameLanes(inputs[i].values, lanes)
  }

  // Values, aligned query and F1-M mask of a component.
  ghost predicate SuppliesComponent(inputs: seq<RawInput>, c: Component, query: seq<int>, n: nat) {
    && Supplies(inputs, NamesOf(c.name)(Values), PlacedValues(c.terms, 2 * n))
    && Supplies(inputs, NamesOf(c.name)(Query), PlacedQuery(c.terms, query, 2 * n))
    && Supplies(inputs, NamesOf(c.name)(F1MMask), c.mask)
  }

  ghost predicate InputOf(id: string, components: seq<Component>) {
    exists c, s :: c in components && !Computed(s) && id == NamesOf(c.name)(s)
  }

  // The request declares the lanes of the shape, no more than a row has, and holds
  // the inputs of the components and no other, the selection of segment starts,
  // every ladder rotation, and the emitted program.
  ghost predicate RequestServes(
    request: QueryRequest, shape: Shape, m: nat, query: seq<int>, components: seq<Component>, n: nat)
    requires 0 < n
  {
    && RequestFault(request, n).None? && request.slotCount == shape.rowSize <= n
    && SoundGeometry(shape, components, m) && components != [] && NoRepeat(NamesIn(components))
    && (forall c | c in components :: WellPlaced(c, shape, query) && GoodName(c.name, Pow2(m)))
    && (forall c | c in components :: SuppliesComponent(request.inputs, c, query, n))
    && (forall i | 0 <= i < |request.inputs| :: InputOf(request.inputs[i].id, components))
    && (exists i :: 0 <= i < |request.masks| && request.masks[i].id == SEGMENT_STARTS
          && SameLanes(request.masks[i].values, StartMask(shape.rowSize, Pow2(m))))
    && (forall r | r in PowersOfTwo(0, m) :: CatalogEntry(r, r) in request.catalog)
    && request.nodes == ProgramNodes(NamesIn(components), PowersOfTwo(0, m))
    && request.resultIds == ResultIds(NamesIn(components))
  }

  // ----- such a request meets the hypotheses of the program's run -----

  lemma {:induction false} SameCiphertext(values: seq<int>, lanes: seq<int>, n: nat, p: Positive)
    requires SameLanes(values, lanes)
    ensures Encrypt(Padded(values, 2 * n, p), n, p) == Encrypt(lanes, n, p)
  {
    var padded := Padded(values, 2 * n, p);
    forall i: nat | i < 2 * n ensures At(padded, i) % p == At(lanes, i) % p {
      SameResidue(values, i, n, p);
    }
  }

  lemma {:induction false} SameResidue(values: seq<int>, i: nat, n: nat, p: Positive)
    requires i < 2 * n
    ensures At(Padded(values, 2 * n, p), i) % p == At(values, i) % p
  {
    if i < |values| {
      NormalizeModIsResidue(values[i], p);
      ModSmall(values[i] % p, p);
    }
  }

  lemma {:induction false} SuppliedTable(request: QueryRequest, id: string, lanes: seq<int>, n: nat, p: Positive)
    requires 1 < n && RequestFault(request, n).None? && Supplies(request.inputs, id, lanes)
    ensures id in EncryptedTable(request.inputs, n, p)
    ensures EncryptedTable(request.inputs, n, p)[id] == Encrypt(lanes, n, p)
  {
    hide Encrypt, Padded, SameLanes, AcceptableInputs, KeyPlanOk, CatalogOk, AcceptableMasks;
    forall i, j | 0 <= i < j < |request.inputs| ensures request.inputs[i].id != request.inputs[j].id {
      AcceptedIdsDistinct(request.inputs, request.slotCount, i, j);
    }
    EncryptedTableHolds(request.inputs, n, p);
    var i :| 0 <= i < |request.inputs| && request.inputs[i].id == id && SameLanes(request.inputs[i].values, lanes);
    SameCiphertext(request.inputs[i].values, lanes, n, p);
  }

  lemma {:induction false} ComputedNamesAbsent(
    request: QueryRequest, components: seq<Component>, c: string, n: nat, p: Positive)
    requires 1 < n && RequestFault(request, n).None?
    requires forall i | 0 <= i < |request.inputs| :: InputOf(request.inputs[i].id, components)
    ensures FreshFor(Initial(EncryptedTable(request.inputs, n, p)), c)
  {
    hide Text, AcceptableInputs, KeyPlanOk, CatalogOk, AcceptableMasks, Encrypt, Padded;
    var table := EncryptedTable(request.inputs, n, p);
    forall i, j | 0 <= i < j < |request.inputs| ensures request.inputs[i].id != request.inputs[j].id {
      AcceptedIdsDistinct(request.inputs, request.slotCount, i, j);
    }
    EncryptedTableHolds(request.inputs, n, p);
    forall s | Computed(s) ensures NamesOf(c)(s) !in table {
      var id := NamesOf(c)(s);
      if id in table {
        var i :| 0 <= i < |request.inputs| && request.inputs[i].id == id;
        var d, t :| d in components && !Computed(t) && id == NamesOf(d.name)(t);
        NamesDisjoint(c, s, d.name, t);
      }
    }
  }

  lemma {:induction false} InputsEncrypted(
    request: QueryRequest, components: seq<Component>, query: seq<int>, env: Env)
    requires 1 < env.rowSize && RequestFault(request, env.rowSize).None?
    requires forall c | c in components :: SuppliesComponent(request.inputs, c, query, env.rowSize)
    requires forall i | 0 <= i < |request.inputs| :: InputOf(request.inputs[i].id, components)
    ensures EncryptedInputs(env, EncryptedTable(request.inputs, env.rowSize, env.modulus), components, query)
  {
    hide Encrypt, PlacedValues, PlacedQuery, Supplies, RequestFault, FreshFor, InputOf, Text;
    forall c | c in components
      ensures EncryptedInputs(env, EncryptedTable(request.inputs, env.rowSize, env.modulus), [c], query)
    {
      var n, p := env.rowSize, env.modulus;
      ComputedNamesAbsent(request, components, c.name, n, p);
      SuppliedTable(request, NamesOf(c.name)(Values), PlacedValues(c.terms, 2 * n), n, p);
      SuppliedTable(request, NamesOf(c.name)(Query), PlacedQuery(c.terms, query, 2 * n), n, p);
      SuppliedTable(request, NamesOf(c.name)(F1MMask), c.mask, n, p);
    }
    assert forall c | c in components :: c in [c];
  }

  lemma {:induction false} RotationsProvisioned(request: QueryRequest, rotations: seq<nat>, n: nat, p: Positive)
    requires 1 < n <= 0x7fff_ffff && RequestFault(request, n).None?
    requires forall r | r in rotations :: CatalogEntry(r, r) in request.catalog
    ensures Provisioned(SessionEnv(request, n, p), rotations)
  {
    hide KeyPlanOk, AcceptableInputs, AcceptableMasks, RequestFault;
    var env := SessionEnv(request, n, p);
    SessionStartsPrepared(request, n, p);
    forall r | r in rotations ensures r in env.rotations && env.rotations[r] == r && r in env.keys && InInt32(r) {
      var i :| 0 <= i < |request.catalog| && request.catalog[i] == CatalogEntry(r, r);
      assert env.rotations[request.catalog[i].logicalShift] == r;
      CatalogHasKeys(env, request.catalog, request.plan, request.slotCount, r);
    }
  }

  lemma {:induction false} SelectionSupplied(request: QueryRequest, lanes: seq<int>, id: string, n: nat)
    requires 0 < n && RequestFault(request, n).None?
    requires exists i :: 0 <= i < |request.masks| && request.masks[i].id == id
                         && SameLanes(request.masks[i].values, lanes)
    ensures id in PackedMasks(request.masks, n) && PackedMasks(request.masks, n)[id] == Pack(lanes, n)
  {
    hide AcceptableMask, AcceptableInputs, KeyPlanOk, CatalogOk, Precedes;
    forall i, j | 0 <= i < j < |request.masks| ensures request.masks[i].id != request.masks[j].id {
      MaskIdsDistinct(request.masks, |request.masks|, i, j);
    }
    PackedMasksHold(request.masks, n);
    var i :| 0 <= i < |request.masks| && request.masks[i].id == id && SameLanes(request.masks[i].values, lanes);
    SamePacked(request.masks[i].values, lanes, n);
  }

  lemma {:induction false} SamePacked(values: seq<int>, lanes: seq<int>, n: nat)
    requires SameLanes(values, lanes)
    ensures Pack(PaddedMask(values, 2 * n), n) == Pack(lanes, n)
  {
    var padded := PaddedMask(values, 2 * n);
    forall i: nat | i < 2 * n ensures At(padded, i) == At(lanes, i) {
      assert At(values, i) == At(lanes, i);
    }
  }

  // With the whole row declared, everything the emitted run asks for.
  lemma {:induction false} RequestDeploys(
    request: QueryRequest, shape: Shape, m: nat, query: seq<int>, components: seq<Component>, n: nat, p: Positive)
    requires 1 < n <= 0x7fff_ffff && RequestServes(request, shape, m, query, components, n) && shape.rowSize == n
    ensures Deployed(
      SessionEnv(request, n, p), EncryptedTable(request.inputs, n, p), shape, m, query, components)
  {
    hide WellPlaced, GoodName, SuppliesComponent, InputOf, SoundGeometry, RequestFault, EncryptedInputs, Provisioned,
      StartMask, EncryptedTable, PackedMasks, CatalogTable, ProgramNodes, SameLanes, Pack;
    var env := SessionEnv(request, n, p);
    InputsEncrypted(request, components, query, env);
    RotationsProvisioned(request, PowersOfTwo(0, m), n, p);
    SelectionSupplied(request, StartMask(n, Pow2(m)), SEGMENT_STARTS, n);
  }

  // ----- the results of the session -----

  function ValuesIn(results: seq<Decrypted>): (s: seq<seq<int>>)
    ensures |s| == |results|
  {
    seq(|results|, k requires 0 <= k < |results| => results[k].values)
  }

  // The kept lanes of a page are a share just as its decrypted batch is.
  lemma {:induction false} KeptLanesAreShare(
    page: Ciphertext, c: Component, query: seq<int>, slotCount: nat, n: nat, p: Positive)
    requires Canonical(page.lanes, n, p) && IsShare(Decrypt(page, n, p), c, query, p)
    requires slotCount <= n && forall o | o in c.owners :: o.0 < slotCount
    ensures IsShare(KeptLanes(page, slotCount), c, query, p)
  {
    hide Decrypt, WindowTotal;
    forall o | o in c.owners
      ensures NormalizeMod(At(KeptLanes(page, slotCount), o.0), p) == NormalizeMod(At(Decrypt(page, n, p), o.0), p)
    {
      DecryptThenNormalize(page, n, p, o.0);
      NormalizeModIsResidue(page.lanes.first[o.0], p);
      ModSmall(page.lanes.first[o.0], p);
    }
  }

  // ----- pages of a shape that need not fill the row -----

  // The page of a component when only the segment starts below slotCount are
  // selected; the ladder reduces the whole row and may spill beyond them.
  function ServedPage(
    env: Env, terms: seq<Term>, query: seq<int>, mask: seq<int>, m: nat, slotCount: nat): Ciphertext
  {
    var batch := 2 * env.rowSize;
    ComponentResult(
      env,
      Encrypt(PlacedValues(terms, batch), env.rowSize, env.modulus),
      Encrypt(PlacedQuery(terms, query, batch), env.rowSize, env.modulus),
      Encrypt(mask, env.rowSize, env.modulus),
      Pack(StartMask(slotCount, Pow2(m)), env.rowSize),
      PowersOfTwo(0, m))
  }

  lemma {:induction false} ServedPageShape(
    env: Env, terms: seq<Term>, query: seq<int>, mask: seq<int>, m: nat, slotCount: nat)
    ensures Canonical(ServedPage(env, terms, query, mask, m, slotCount).lanes, env.rowSize, env.modulus)
  {
    hide Ladder, PlacedValues, PlacedQuery, StartMask, Pow2, PowersOfTwo;
  }

  // A selected lane of the page is the reduced lane plus the mask.
  lemma {:induction false} ServedLane(
    env: Env, terms: seq<Term>, query: seq<int>, mask: seq<int>, m: nat, slotCount: nat, i: nat)
    requires i < slotCount <= env.rowSize && i % Pow2(m) == 0
    ensures At(ServedPage(env, terms, query, mask, m, slotCount).lanes.first, i)
         == (At(Ladder(ProductRow(terms, query, env.rowSize, env.modulus), PowersOfTwo(0, m), env.rowSize, env.modulus), i)
             + At(mask, i)) % env.modulus
  {
    hide Ladder, PlacedValues, PlacedQuery, Pow2;
    var reduced := ReducedOf(env, terms, query, m).lanes;
    MaskedLane(At(reduced.first, i), 1, At(mask, i), env.modulus);
  }

  // Although the ladder spills, a start's window ends inside the declared lanes.
  lemma {:induction false} ServedPageIsShare(env: Env, c: Component, shape: Shape, query: seq<int>, m: nat)
    requires c.width == Pow2(m) && shape.rowSize <= env.rowSize && shape.rowSize % Pow2(m) == 0
    requires WellPlaced(c, shape, query)
    ensures IsShare(
      Decrypt(ServedPage(env, c.terms, query, c.mask, m, shape.rowSize), env.rowSize, env.modulus), c, query, env.modulus)
  {
    hide ServedPage, Decrypt, WindowTotal, Ladder, ProductRow;
    var n, p, page := env.rowSize, env.modulus, ServedPage(env, c.terms, query, c.mask, m, shape.rowSize);
    ServedPageShape(env, c.terms, query, c.mask, m, shape.rowSize);
    forall o | o in c.owners
      ensures NormalizeMod(At(Decrypt(page, n, p), o.0), p)
           == (At(c.mask, o.0) + WindowTotal(c.terms, query, o.0, c.width)) % p
    {
      var start, row := o.0, ProductRow(c.terms, query, n, p);
      var total := WindowTotal(c.terms, query, start, c.width);
      SegmentDoesNotWrap(start, Pow2(m), shape.rowSize);
      ProductRowResidues(c.terms, query, n, p);
      LadderComputesWindows(row, m, p);
      ReducedWindow(n, p, c.terms, query, Ladder(row, PowersOfTwo(0, m), n, p), Pow2(m), start);
      ServedLane(env, c.terms, query, c.mask, m, shape.rowSize, start);
      ModAdd(total, At(c.mask, start), p);
      ModAdd(total % p, At(c.mask, start), p);
      ModSmall(total % p, p);
      DecryptThenNormalize(page, n, p, start);
    }
  }

  lemma {:induction false} ProductRowResidues(terms: seq<Term>, query: seq<int>, n: nat, p: Positive)
    ensures Residues(ProductRow(terms, query, n, p), p)
  {
    hide PlacedValues, PlacedQuery;
  }

  lemma {:induction false} PageNamesPrint(components: seq<Component>, m: nat)
    requires components != [] && forall c | c in components :: GoodName(c.name, Pow2(m))
    ensures ResultIdsOk(ResultIds(NamesIn(components)))
  {
    hide Text, GoodName;
    forall k | 0 <= k < |components| ensures PrintableIdentifier(NamesOf(components[k].name)(Page)) {
      GoodNamePrints(components[k].name, Pow2(m));
    }
  }

  // The page a served component returns, as the run leaves it.
  ghost predicate PagesServed(
    env: Env, end: State, components: seq<Component>, query: seq<int>, m: nat, slotCount: nat)
  {
    forall c | c in components ::
      && NamesOf(c.name)(Page) in end.ciphertexts
      && end.ciphertexts[NamesOf(c.name)(Page)] == ServedPage(env, c.terms, query, c.mask, m, slotCount)
  }

  lemma {:induction false} KeptPagesMerge(
    env: Env, end: State, shape: Shape, m: nat, query: seq<int>, components: seq<Component>, matrix: Matrix,
    rows: nat, row: nat)
    requires SoundGeometry(shape, components, m) && shape.rowSize <= env.rowSize && row < rows
    requires forall c | c in components :: WellPlaced(c, shape, query)
    requires PagesServed(env, end, components, query, m, shape.rowSize)
    requires ZeroSumMasks(components, rows, env.modulus) && Holds(components, matrix)
    ensures MergedAll(
              components, ValuesIn(ResultLanes(end.ciphertexts, ResultIds(NamesIn(components)), shape.rowSize)), row,
              env.modulus)
         == RowProduct(matrix, query, row) % env.modulus
  {
    hide WellPlaced, IsShare, ServedPage, Decrypt, KeptLanes, MergedAll, RowProduct, Holds, ZeroSumMasks, Text;
    var shares := ValuesIn(ResultLanes(end.ciphertexts, ResultIds(NamesIn(components)), shape.rowSize));
    forall k | 0 <= k < |components|
      ensures IsShare(shares[k], components[k], query, env.modulus)
      ensures WellPlaced(components[k], shape, query)
    {
      var c := components[k];
      assert c in components;
      var page := ServedPage(env, c.terms, query, c.mask, m, shape.rowSize);
      ServedPageIsShare(env, c, shape, query, m);
      ServedPageShape(env, c.terms, query, c.mask, m, shape.rowSize);
      OwnersInRow(c, shape, query);
      KeptLanesAreShare(page, c, query, shape.rowSize, env.rowSize, env.modulus);
    }
    MergeIsDirectProduct(components, shares, shape, query, matrix, rows, row, env.modulus);
  }

  lemma {:induction false} OwnersInRow(c: Component, shape: Shape, query: seq<int>)
    requires WellPlaced(c, shape, query)
    ensures forall o | o in c.owners :: o.0 < shape.rowSize
  {
  }

  // ----- the run and the session -----

  // What the run of a serving request starts from.
  ghost predicate Served(
    env: Env, inputs: map<string, Ciphertext>, shape: Shape, m: nat, query: seq<int>, components: seq<Component>)
  {
    && SoundGeometry(shape, components, m) && shape.rowSize <= env.rowSize && components != []
    && NoRepeat(NamesIn(components))
    && (forall c | c in components :: WellPlaced(c, shape, query) && GoodName(c.name, Pow2(m)))
    && EncryptedInputs(env, inputs, components, query)
    && Provisioned(env, PowersOfTwo(0, m))
    && SEGMENT_STARTS in env.masks
    && env.masks[SEGMENT_STARTS] == Pack(StartMask(shape.rowSize, Pow2(m)), env.rowSize)
  }

  lemma {:induction false} RequestIsServed(
    request: QueryRequest, shape: Shape, m: nat, query: seq<int>, components: seq<Component>, n: nat, p: Positive)
    requires 1 < n <= 0x7fff_ffff && RequestServes(request, shape, m, query, components, n)
    ensures Served(SessionEnv(request, n, p), EncryptedTable(request.inputs, n, p), shape, m, query, components)
  {
    hide WellPlaced, GoodName, SuppliesComponent, InputOf, SoundGeometry, RequestFault, EncryptedInputs, Provisioned,
      StartMask, EncryptedTable, PackedMasks, CatalogTable, ProgramNodes, SameLanes, Pack;
    var env := SessionEnv(request, n, p);
    InputsEncrypted(request, components, query, env);
    RotationsProvisioned(request, PowersOfTwo(0, m), n, p);
    SelectionSupplied(request, StartMask(shape.rowSize, Pow2(m)), SEGMENT_STARTS, n);
  }

  lemma {:induction false} ServedPageIsComputed(
    env: Env, inputs: map<string, Ciphertext>, end: State, components: seq<Component>, query: seq<int>,
    c: Component, m: nat, slotCount: nat)
    requires EncryptedInputs(env, inputs, components, query) && c in components
    requires PageComputed(env, Initial(inputs), end, c.name, PowersOfTwo(0, m))
    requires SEGMENT_STARTS in env.masks && env.masks[SEGMENT_STARTS] == Pack(StartMask(slotCount, Pow2(m)), env.rowSize)
    ensures NamesOf(c.name)(Page) in end.ciphertexts
    ensures end.ciphertexts[NamesOf(c.name)(Page)] == ServedPage(env, c.terms, query, c.mask, m, slotCount)
  {
    hide Text, ComponentResult, FreshFor;
  }

  lemma {:induction false} ServedRuns(
    env: Env, inputs: map<string, Ciphertext>, shape: Shape, m: nat, query: seq<int>, components: seq<Component>)
    returns (end: State)
    requires Served(env, inputs, shape, m, query, components)
    ensures Execute(env, Initial(inputs), ProgramNodes(NamesIn(components), PowersOfTwo(0, m))) == Success(end)
    ensures end.returned == ResultIds(NamesIn(components))
    ensures PagesServed(env, end, components, query, m, shape.rowSize)
  {
    hide Reaches, Run, WellPlaced, ReadyFor, PageComputed, Text, ServedPage, EncryptedInputs, GoodName, Provisioned,
      StartMask, Pow2, ProgramNodes, Total, SoundGeometry;
    var names, rotations := NamesIn(components), PowersOfTwo(0, m);
    SpanOfPowers(m);
    assert Pow2(0) > 0;
    PowersAscend(0, m, 0);
    forall name | name in names ensures ReadyFor(env, Initial(inputs), name, rotations) {
      var c :| c in components && c.name == name;
      ComponentReady(env, inputs, components, query, c, rotations);
    }
    end := RunProgram(env, Initial(inputs), names, rotations);
    ReachesIsRun(env, Initial(inputs), ProgramNodes(names, rotations), end);
    ProgramNotEmpty(names, rotations);
    forall c | c in components
      ensures NamesOf(c.name)(Page) in end.ciphertexts
      ensures end.ciphertexts[NamesOf(c.name)(Page)] == ServedPage(env, c.terms, query, c.mask, m, shape.rowSize)
    {
      assert c.name in names by {
        var i :| 0 <= i < |components| && components[i] == c;
        assert names[i] == c.name;
      }
      ServedPageIsComputed(env, inputs, end, components, query, c, m, shape.rowSize);
    }
    assert Initial(inputs).returned == [];
  }

  // The session of a serving request: its run succeeds, its check of the lanes
  // beyond the declared ones cannot fire, and it hands back the pages' kept lanes.
  lemma {:induction false} ServedSession(
    request: QueryRequest, shape: Shape, m: nat, query: seq<int>, components: seq<Component>, n: nat, p: Positive)
    returns (end: State)
    requires 1 < n <= 0x7fff_ffff && RequestServes(request, shape, m, query, components, n)
    ensures PagesServed(SessionEnv(request, n, p), end, components, query, m, shape.rowSize)
    ensures SessionResult(request, n, p)
         == Success(ResultLanes(end.ciphertexts, ResultIds(NamesIn(components)), shape.rowSize))
  {
    hide WellPlaced, GoodName, SoundGeometry, InputOf, Execute, ProgramNodes, SessionEnv, EncryptedTable, PagesServed,
      RequestFault, AllConfined, ResultLanes, PowersOfTwo, Confined, SameLanes, Served, StartMask;
    var env, st := SessionEnv(request, n, p), SessionStart(request, n, p);
    RequestIsServed(request, shape, m, query, components, n, p);
    end := ServedRuns(env, EncryptedTable(request.inputs, n, p), shape, m, query, components);
    PageNamesPrint(components, m);
    forall name | name in NamesIn(components)
      ensures exists input :: input in request.inputs && input.id == NamesOf(name)(F1MMask)
    {
      var k :| 0 <= k < |components| && NamesIn(components)[k] == name;
      MaskSupplied(request.inputs, components[k], query, n);
    }
    EmittedNeverEscapes(request, NamesIn(components), PowersOfTwo(0, m), n, p);
  }

  lemma {:induction false} MaskSupplied(inputs: seq<RawInput>, c: Component, query: seq<int>, n: nat)
    requires SuppliesComponent(inputs, c, query, n)
    ensures exists input :: input in inputs && input.id == NamesOf(c.name)(F1MMask)
  {
    hide SameLanes, Text;
    var i :| 0 <= i < |inputs| && inputs[i].id == NamesOf(c.name)(F1MMask) && SameLanes(inputs[i].values, c.mask);
    assert inputs[i] in inputs;
  }

  // For any request that serves the components, under prepared masks and with any
  // number of declared lanes up to the row: the session succeeds, and merging its
  // results gives the product mod p, and the exact integer row within the bound.
  lemma {:induction false} SessionAnswers(
    request: QueryRequest, shape: Shape, m: nat, query: seq<int>, components: seq<Component>, matrix: Matrix,
    rows: nat, n: nat, p: Positive, draws: nat -> int, values: map<nat, seq<int>>)
    requires 1 < n <= 0x7fff_ffff && RequestServes(request, shape, m, query, components, n)
    requires Holds(components, matrix) && MasksDrawn(components, shape.rowSize, rows, p, draws, values)
    ensures SessionResult(request, n, p).Success?
    ensures |SessionResult(request, n, p).value| == |components|
    ensures forall e | e in AllEntries(components) :: e.column < |query|
    ensures forall row | 0 <= row < rows ::
      MergedAll(components, ValuesIn(SessionResult(request, n, p).value), row, p)
      == RowProduct(matrix, query, row) % p
    ensures Bounded(components, query, rows, p) ==> forall row | 0 <= row < rows ::
      CenteredLift(MergedAll(components, ValuesIn(SessionResult(request, n, p).value), row, p), p)
      == RowProduct(matrix, query, row)
  {
    hide WellPlaced, GoodName, SuppliesComponent, InputOf, MasksDrawn, ZeroSumMasks, Holds, MergedAll, RowProduct,
      CenteredLift, SessionResult, AllEntries, AbsoluteRow, ProgramNodes, PagesServed, RequestFault, ResultLanes,
      PowersOfTwo, SameLanes, StartMask, Pow2;
    var end := ServedSession(request, shape, m, query, components, n, p);
    var env := SessionEnv(request, n, p);
    assert env.rowSize == n && env.modulus == p;
    MasksCancel(components, shape.rowSize, rows, p, draws, values);
    EntriesWithin(components, shape, query);
    forall row | 0 <= row < rows
      ensures MergedAll(components, ValuesIn(SessionResult(request, n, p).value), row, p)
           == RowProduct(matrix, query, row) % p
    {
      KeptPagesMerge(env, end, shape, m, query, components, matrix, rows, row);
    }
    if Bounded(components, query, rows, p) {
      HoldsCollected(components, matrix);
      forall row | 0 <= row < rows
        ensures CenteredLift(RowProduct(matrix, query, row) % p, p) == RowProduct(matrix, query, row)
      {
        BoundedRowIsExact(AllEntries(components), matrix, query, row, p);
      }
    }
  }

  lemma {:induction false} MasksCancel(
    components: seq<Component>, n: nat, rows: nat, p: Positive, draws: nat -> int, values: map<nat, seq<int>>)
    requires MasksDrawn(components, n, rows, p, draws, values)
    ensures ZeroSumMasks(components, rows, p)
  {
    PreparedMasksCancel(components, n, rows, p, draws, values);
  }
}
