/** Splitting n items over parts as evenly as possible: the blocking of a tensor mode, the slices
    read by each rank, the rows of a layer, the blocks of a team and the columns of a KRP team. */
module UniformBlocking {
  import opened Arithmetic

  datatype Result<T> = Ok(value: T) | Error

  function Min(a: nat, b: nat): nat
  {
    if a < b then a else b
  }

  /** One part's share: every part gets items / parts, and the first items % parts get one more. */
  function Share(items: nat, parts: nat, p: nat): nat
    requires parts > 0
  {
    items / parts + (if p < items % parts then 1 else 0)
  }

  /** First item of part p: the shares before it. */
  function Start(items: nat, parts: nat, p: nat): nat
    requires parts > 0
  {
    if p == 0 then 0 else Start(items, parts, p - 1) + Share(items, parts, p - 1)
  }

  /** The closed form behind every coding of the split: start p*q + min(p, r). */
  lemma {:induction false} StartClosedForm(items: nat, parts: nat, p: nat)
    requires parts > 0
    ensures Start(items, parts, p) == p * (items / parts) + Min(p, items % parts)
    ensures Start(items, parts, p) == p * (items / parts) + if p < items % parts then p else items % parts
  {
    if p > 0 {
      StartClosedForm(items, parts, p - 1);
      var q := items / parts;
      assert p * q == (p - 1) * q + q;
    }
  }

  lemma StartBounds(items: nat, parts: nat)
    requires parts > 0
    ensures Start(items, parts, 0) == 0
    ensures Start(items, parts, parts) == items
  {
    StartClosedForm(items, parts, parts);
    assert parts * (items / parts) + items % parts == items;
  }

  lemma {:induction false} StartMonotone(items: nat, parts: nat, p: nat, q: nat)
    requires parts > 0 && p <= q
    ensures Start(items, parts, p) <= Start(items, parts, q)
    decreases q - p
  {
    if p < q {
      StartMonotone(items, parts, p + 1, q);
    }
  }

  /** Cut points of a contiguous split of `items`. */
  ghost predicate IsBlocking(range: seq<nat>, items: nat, parts: nat)
  {
    && |range| == parts + 1
    && range[0] == 0 && range[parts] == items
    && forall p, q :: 0 <= p <= q <= parts ==> range[p] <= range[q]
  }

  function SizeOf(range: seq<nat>, p: nat): int
    requires p < |range| - 1
  {
    (range[p + 1] as int) - (range[p] as int)
  }

  /** As even as it gets: no part exceeds a later part by more than one, and none is below it. */
  ghost predicate IsBalanced(range: seq<nat>)
  {
    forall p, q :: 0 <= p < q < |range| - 1 ==>
      SizeOf(range, q) <= SizeOf(range, p) <= SizeOf(range, q) + 1
  }

  ghost predicate IsUniform(range: seq<nat>, items: nat, parts: nat)
    requires parts > 0
  {
    |range| == parts + 1 && forall p :: 0 <= p <= parts ==> range[p] == Start(items, parts, p)
  }

  /** The cut points of the balanced partition. */
  function UniformCuts(items: nat, parts: nat): (r: seq<nat>)
    requires parts > 0
    ensures IsUniform(r, items, parts)
  {
    seq(parts + 1, p requires 0 <= p <= parts => Start(items, parts, p))
  }

  lemma UniformIsBalanced(range: seq<nat>, items: nat, parts: nat)
    requires parts > 0 && IsUniform(range, items, parts)
    ensures IsBlocking(range, items, parts) && IsBalanced(range)
  {
    StartBounds(items, parts);
    forall p, q | 0 <= p <= q <= parts ensures range[p] <= range[q] {
      StartMonotone(items, parts, p, q);
    }
    forall p, q | 0 <= p < q < |range| - 1
      ensures SizeOf(range, q) <= SizeOf(range, p) <= SizeOf(range, q) + 1
    {
      assert range[p + 1] == Start(items, parts, p + 1) && range[q + 1] == Start(items, parts, q + 1);
    }
  }

  /** Up to cut p, `big` parts of size least + 1 come before parts of size least. */
  lemma {:induction false} CutsFromSizes(range: seq<nat>, items: nat, parts: nat, least: nat, big: nat, p: nat)
    requires IsBlocking(range, items, parts) && p <= parts
    requires forall k :: 0 <= k < parts ==> SizeOf(range, k) == least + (if k < big then 1 else 0)
    ensures range[p] == p * least + Min(p, big)
  {
    if p > 0 {
      CutsFromSizes(range, items, parts, least, big, p - 1);
      assert SizeOf(range, p - 1) == least + (if p - 1 < big then 1 else 0);
      assert p * least == (p - 1) * least + least;
    }
  }

  /** The balanced split with the larger parts first is unique: it is the one Start describes. */
  lemma BalancedIsUniform(range: seq<nat>, items: nat, parts: nat)
    requires parts > 0 && IsBlocking(range, items, parts) && IsBalanced(range)
    ensures IsUniform(range, items, parts)
  {
    var least := SizeOf(range, parts - 1);
    var big := 0;
    while big < parts - 1 && SizeOf(range, big) == least + 1
      invariant 0 <= big < parts
      invariant forall k :: 0 <= k < big ==> SizeOf(range, k) == least + 1
    {
      big := big + 1;
    }
    forall k | 0 <= k < parts
      ensures SizeOf(range, k) == least + (if k < big then 1 else 0)
    {
      if big <= k < parts - 1 {
        assert SizeOf(range, big) == least;
      }
    }
    CutsFromSizes(range, items, parts, least, big, parts);
    assert items == parts * least + big;
    QuotientUnique(items, parts, least, big);
    forall p: nat | p <= parts ensures range[p] == Start(items, parts, p) {
      CutsFromSizes(range, items, parts, least, big, p);
      StartClosedForm(items, parts, p);
    }
  }

  /** The cuts pushed so far are those of the uniform split. */
  ghost predicate UniformPrefix(range: seq<nat>, items: nat, parts: nat)
    requires parts > 0
  {
    forall p :: 0 <= p < |range| ==> range[p] == Start(items, parts, p)
  }

  /** Once the end is reached, repeating the last cut completes the split. */
  lemma PadIsUniform(range: seq<nat>, items: nat, parts: nat)
    requires parts > 0 && 1 <= |range| <= parts + 1 && UniformPrefix(range, items, parts)
    requires range[|range| - 1] == items
    ensures IsUniform(range + seq(parts + 1 - |range|, _ => items), items, parts)
  {
    StartBounds(items, parts);
    forall p | |range| <= p <= parts ensures Start(items, parts, p) == items {
      StartMonotone(items, parts, |range| - 1, p);
      StartMonotone(items, parts, p, parts);
    }
  }

  /** The push loop over one tensor mode; it also ends when there are more processes than items. */
  method SingleDimUniformBlocking(modeLength: nat, procsInMode: nat) returns (range: seq<nat>)
    requires procsInMode > 0
    ensures IsUniform(range, modeLength, procsInMode)
    ensures |range| == procsInMode + 1 && forall p :: 0 <= p <= procsInMode ==>
              range[p] == p * (modeLength / procsInMode)
                          + if p < modeLength % procsInMode then p else modeLength % procsInMode
  {
    range := [0];
    var fibersPerBlock := modeLength / procsInMode;
    var remainder := modeLength % procsInMode;
    StartBounds(modeLength, procsInMode);
    while range[|range| - 1] < modeLength
      invariant 1 <= |range| <= procsInMode + 1
      invariant UniformPrefix(range, modeLength, procsInMode)
      invariant range[|range| - 1] <= modeLength
      invariant remainder == modeLength % procsInMode - Min(|range| - 1, modeLength % procsInMode)
      decreases procsInMode + 1 - |range|
    {
      var back := range[|range| - 1];
      StartMonotone(modeLength, procsInMode, |range|, procsInMode);
      if remainder > 0 {
        range := range + [back + fibersPerBlock + 1];
        remainder := remainder - 1;
      } else {
        range := range + [back + fibersPerBlock];
      }
    }
    var last := range[|range| - 1];
    PadIsUniform(range, modeLength, procsInMode);
    assert range + seq(procsInMode + 1 - |range|, _ => last)
          == range + seq(procsInMode + 1 - |range|, _ => modeLength);
    if |range| < procsInMode + 1 {
      range := range + seq(procsInMode + 1 - |range|, _ => last);
    }
    hide *;
    UniformIsPlain(range, modeLength, procsInMode);
  }

  lemma UniformIsPlain(range: seq<nat>, items: nat, parts: nat)
    requires parts > 0 && IsUniform(range, items, parts)
    ensures |range| == parts + 1 && forall p :: 0 <= p <= parts ==>
              range[p] == p * (items / parts) + if p < items % parts then p else items % parts
  {
    forall p | 0 <= p <= parts
      ensures range[p] == p * (items / parts) + if p < items % parts then p else items % parts
    {
      StartClosedForm(items, parts, p);
    }
  }

  /** Part b contains the element. */
  ghost predicate InPart(range: seq<nat>, b: int, element: nat)
  {
    0 <= b < |range| - 1 && range[b] <= element < range[b + 1]
  }

  /** At most one part contains an element, and that part is not empty: so every correct lookup
      returns the same part. */
  lemma PartUnique(range: seq<nat>, items: nat, parts: nat, a: nat, b: nat, element: nat)
    requires IsBlocking(range, items, parts)
    requires InPart(range, a, element) && InPart(range, b, element)
    ensures a == b && range[a] < range[a + 1]
  {
  }

  /** The last part that begins at or before the element, among those it can still be in. */
  function PartFrom(range: seq<nat>, element: nat, b: nat): nat
    requires b < |range|
    decreases |range| - b
  {
    if b + 2 < |range| && range[b + 1] <= element then PartFrom(range, element, b + 1) else b
  }

  function PartOf(range: seq<nat>, element: nat): nat
  {
    if |range| == 0 then 0 else PartFrom(range, element, 0)
  }

  lemma {:induction false} PartFromSpec(range: seq<nat>, element: nat, b: nat)
    requires b + 1 < |range| && range[b] <= element < range[|range| - 1]
    ensures InPart(range, PartFrom(range, element, b), element)
    decreases |range| - b
  {
    if b + 2 < |range| && range[b + 1] <= element {
      PartFromSpec(range, element, b + 1);
    }
  }

  lemma PartOfSpec(range: seq<nat>, items: nat, parts: nat, element: nat)
    requires IsBlocking(range, items, parts) && parts > 0 && element < items
    ensures InPart(range, PartOf(range, element), element)
  {
    PartFromSpec(range, element, 0);
  }

  /** Linear search for the block of one coordinate; an index past the mode is reported. */
  method BlockInThatDim(element: nat, range: seq<nat>) returns (r: Result<nat>)
    requires |range| >= 2 && range[0] == 0
    ensures r.Error? <==> element >= range[|range| - 1]
    ensures r.Ok? ==> InPart(range, r.value, element)
  {
    if element >= range[|range| - 1] {
      return Error;
    }
    var blockGuess := 0;
    while element >= range[blockGuess + 1]
      invariant 0 <= blockGuess < |range| - 1
      invariant range[blockGuess] <= element
      decreases |range| - blockGuess
    {
      blockGuess := blockGuess + 1;
    }
    r := Ok(blockGuess);
  }

  /** The owner of a row: walk past every first row that is not beyond it, then step back.
      `offsets` are the first rows; `total` is one past the last row of the last process. */
  method FindProcForRow(offsets: seq<nat>, total: nat, row: nat) returns (p: nat)
    requires |offsets| > 0 && IsBlocking(offsets + [total], total, |offsets|)
    requires row < total
    ensures InPart(offsets + [total], p, row)
  {
    var range := offsets + [total];
    p := 0;
    while p < |offsets| && row >= offsets[p]
      invariant 0 <= p <= |offsets|
      invariant p > 0 ==> range[p - 1] <= row
    {
      p := p + 1;
    }
    assert range[0] == offsets[0];
    p := p - 1;
    assert row < range[p + 1];
  }

  /** First block and number of blocks of a team, as the cokurtosis kernel computes them by cases. */
  method TeamSplit(nUniqueBlocks: nat, teamSize: nat, lRank: nat)
    returns (startingBlockIndex: nat, localNBlocks: nat)
    requires teamSize > 0 && lRank < teamSize
    ensures startingBlockIndex == Start(nUniqueBlocks, teamSize, lRank)
    ensures startingBlockIndex + localNBlocks == Start(nUniqueBlocks, teamSize, lRank + 1)
  {
    var stdNBlock := nUniqueBlocks / teamSize;
    var firstNTeam := nUniqueBlocks % teamSize;
    StartClosedForm(nUniqueBlocks, teamSize, lRank);
    if firstNTeam > 0 {
      if lRank < firstNTeam {
        localNBlocks := stdNBlock + 1;
        startingBlockIndex := lRank * (stdNBlock + 1);
        assert lRank * (stdNBlock + 1) == lRank * stdNBlock + lRank;
      } else {
        localNBlocks := stdNBlock;
        startingBlockIndex := firstNTeam + lRank * stdNBlock;
      }
    } else {
      localNBlocks := stdNBlock;
      startingBlockIndex := lRank * stdNBlock;
    }
  }

  /** First column and one past the last column of a Khatri-Rao team. */
  method KrpColumns(ncols: nat, nteamsY: nat, teamIdy: nat) returns (colStart: nat, colEnd: nat)
    requires nteamsY > 0 && teamIdy < nteamsY
    ensures colStart == Start(ncols, nteamsY, teamIdy)
    ensures colEnd == Start(ncols, nteamsY, teamIdy + 1)
  {
    var colsPerBlock := ncols / nteamsY;
    var blocksWithExtraCol := ncols % nteamsY;
    KrpStart(ncols, nteamsY, teamIdy);
    if teamIdy < blocksWithExtraCol {
      colsPerBlock := colsPerBlock + 1;
      colStart := colsPerBlock * teamIdy;
    } else {
      var colsAssignedToLowerBlocks := (colsPerBlock + 1) * blocksWithExtraCol;
      colStart := colsAssignedToLowerBlocks + (teamIdy - blocksWithExtraCol) * colsPerBlock;
    }
    colEnd := colStart + colsPerBlock;
  }

  lemma KrpStart(items: nat, parts: nat, p: nat)
    requires parts > 0
    ensures var q, r := items / parts, items % parts;
            Start(items, parts, p) == if p < r then (q + 1) * p else (q + 1) * r + (p - r) * q
  {
    StartClosedForm(items, parts, p);
    hide Start;
    KrpForm(p, items / parts, items % parts);
  }

  lemma KrpForm(p: nat, q: nat, r: nat)
    ensures p < r ==> (q + 1) * p == p * q + p
    ensures p >= r ==> (q + 1) * r + (p - r) * q == p * q + r
  {
    Distribute(q, 1, p);
    Distribute(q, 1, r);
    if p >= r {
      Distribute(p - r, r, q);
    }
  }
}
