// Leader compression of selection masks and its strict decompression.
module MaskLeaders {
  import opened Outcomes
  import opened Sequences

  predicate BinaryMask(values: seq<int>) {
    forall v | v in values :: v == 0 || v == 1
  }

  // The positions that hold one, in order.
  function LeadersFrom(values: seq<int>, from: nat): seq<int> {
    if values == [] then []
    else
      LeadersFrom(values[..|values| - 1], from)
      + if values[|values| - 1] == 1 then [from + |values| - 1] else []
  }

  function Leaders(values: seq<int>): seq<int> { LeadersFrom(values, 0) }

  // Ones at the given positions of an all-zero vector.
  function Decode(length: nat, positions: seq<int>): (s: seq<int>)
    ensures |s| == length
  {
    seq(length, i => if i in positions then 1 else 0)
  }

  // In range and strictly increasing, hence without repetition.
  ghost predicate Accepted(length: nat, positions: seq<int>) {
    && (forall i | 0 <= i < |positions| :: 0 <= positions[i] < length)
    && Increasing(positions)
  }

  lemma {:induction false} LeadersAre(values: seq<int>)
    ensures Accepted(|values|, Leaders(values))
    ensures forall k :: k in Leaders(values) <==> 0 <= k < |values| && values[k] == 1
  {
    if values != [] {
      var n := |values| - 1;
      LeadersAre(values[..n]);
      assert forall k | 0 <= k < n :: values[..n][k] == values[k];
    }
  }

  // The builder: leaders of a mask, refused when they do not rebuild it.
  method CompressMask(values: seq<int>) returns (r: Option<seq<int>>)
    ensures r.Some? <==> BinaryMask(values)
    ensures r.Some? ==> r.value == Leaders(values)
  {
    var leaderPositions: seq<int> := [];
    for index := 0 to |values|
      invariant leaderPositions == Leaders(values[..index])
    {
      assert values[..index + 1][..index] == values[..index];
      if values[index] == 1 {
        leaderPositions := leaderPositions + [index];
      }
    }
    assert values[..|values|] == values;
    LeadersAre(values);
    var reconstructed := new int[|values|](_ => 0);
    for k := 0 to |leaderPositions|
      invariant forall i | 0 <= i < |values| ::
        reconstructed[i] == if i in leaderPositions[..k] then 1 else 0
    {
      assert leaderPositions[k] in leaderPositions;
      reconstructed[leaderPositions[k]] := 1;
      assert leaderPositions[..k + 1] == leaderPositions[..k] + [leaderPositions[k]];
    }
    assert leaderPositions[..|leaderPositions|] == leaderPositions;
    if reconstructed[..] != values {
      ghost var i :| 0 <= i < |values| && reconstructed[i] != values[i];
      assert values[i] in values;
      return None;
    }
    assert forall v | v in values :: exists i :: 0 <= i < |values| && reconstructed[i] == v;
    return Some(leaderPositions);
  }

  // The validator: positions must be in range, new, and increasing.
  method ReconstructMask(length: int, positions: seq<int>) returns (r: Option<seq<int>>)
    ensures r.Some? <==> length > 0 && Accepted(length, positions)
    ensures r.Some? ==> r.value == Decode(length, positions)
  {
    if length <= 0 {
      return None;
    }
    var values := new int[length](_ => 0);
    var seen: set<int> := {};
    var previousPosition := -1;
    for k := 0 to |positions|
      invariant Accepted(length, positions[..k])
      invariant previousPosition == if k == 0 then -1 else positions[k - 1]
      invariant forall x :: x in seen <==> x in positions[..k]
      invariant forall i | 0 <= i < length :: values[i] == if i in positions[..k] then 1 else 0
    {
      var position := positions[k];
      assert positions[..k + 1] == positions[..k] + [position];
      if position < 0 || position >= length || position in seen || position <= previousPosition {
        return None;
      }
      seen := seen + {position};
      previousPosition := position;
      values[position] := 1;
    }
    assert positions[..|positions|] == positions;
    return Some(values[..]);
  }

  // Every binary mask is recovered from its leaders.
  lemma {:induction false} DecodeOfLeaders(values: seq<int>)
    requires BinaryMask(values)
    ensures Accepted(|values|, Leaders(values)) && Decode(|values|, Leaders(values)) == values
  {
    LeadersAre(values);
    forall i | 0 <= i < |values| ensures Decode(|values|, Leaders(values))[i] == values[i] {
      assert values[i] in values;
    }
  }

  // Every accepted leader list is recovered from the mask it decodes to.
  lemma {:induction false} LeadersOfDecode(length: nat, positions: seq<int>)
    requires Accepted(length, positions)
    ensures BinaryMask(Decode(length, positions)) && Leaders(Decode(length, positions)) == positions
  {
    var values := Decode(length, positions);
    LeadersAre(values);
    IncreasingUnique(Leaders(values), positions);
  }
}
