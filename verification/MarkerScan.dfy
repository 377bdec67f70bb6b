/** The block-wise search for markers in a file that is never held in memory as a whole. */
module MarkerScan {
  import opened Collections

  type Bytes = seq<bv8>

  /** `marker in chunk`. */
  method Contains(chunk: Bytes, marker: Bytes) returns (found: bool)
    ensures found <==> Occurs(marker, chunk)
  {
    var i: nat := 0;
    while i + |marker| <= |chunk|
      invariant forall k: nat :: k < i ==> !OccursAt(marker, chunk, k)
    {
      if chunk[i..i + |marker|] == marker {
        assert OccursAt(marker, chunk, i);
        return true;
      }
      i := i + 1;
    }
    return false;
  }

  predicate Longest(markers: seq<Bytes>, longest: nat) {
    forall m :: m in markers ==> 0 < |m| <= longest
  }

  method LongestOf(markers: seq<Bytes>) returns (longest: nat)
    requires markers != [] && forall m :: m in markers ==> m != []
    ensures Longest(markers, longest) && exists m :: m in markers && |m| == longest
  {
    assert markers[0] in markers;
    longest := |markers[0]|;
    for k := 0 to |markers|
      invariant (exists m :: m in markers && |m| == longest) && forall i :: 0 <= i < k ==> |markers[i]| <= longest
    {
      if |markers[k]| > longest {
        longest := |markers[k]|;
      }
    }
  }

  /** `chunk[-longest + 1:]`, which is the whole chunk when the longest marker is a single byte. */
  function Tail(chunk: Bytes, longest: nat): (r: Bytes)
    requires 0 < longest
    ensures |r| <= |chunk| && r == chunk[|chunk| - |r|..]
    ensures longest > 1 ==> |r| == if |chunk| < longest then |chunk| else longest - 1
  {
    if longest == 1 || |chunk| <= longest - 1 then chunk else chunk[|chunk| - (longest - 1)..]
  }

  /** The tail is the end of what was read, long enough for any marker that straddles the next block. */
  ghost predicate Carries(tail: Bytes, seen: Bytes, longest: nat) {
    && |tail| <= |seen| && tail == seen[|seen| - |tail|..]
    && (|tail| == |seen| || longest - 1 <= |tail|)
  }

  lemma OccursInLonger(marker: Bytes, before: Bytes, text: Bytes, after: Bytes)
    requires Occurs(marker, text)
    ensures Occurs(marker, before + text + after)
  {
    var i: nat :| OccursAt(marker, text, i);
    var all := before + text + after;
    assert all[|before| + i..|before| + i + |marker|] == text[i..i + |marker|];
    assert OccursAt(marker, all, |before| + i);
  }

  /** A marker is new in the text exactly when it is in the carried tail with the block. */
  lemma FoundInChunk(marker: Bytes, seen: Bytes, tail: Bytes, block: Bytes, longest: nat)
    requires Carries(tail, seen, longest) && |marker| <= longest
    ensures Occurs(marker, seen + block) <==> Occurs(marker, seen) || Occurs(marker, tail + block)
  {
    hide Occurs;
    var start := |seen| - |tail|;
    assert seen + block == seen[..start] + (tail + block) + [];
    if Occurs(marker, seen) {
      OccursInLonger(marker, [], seen, block);
      assert [] + seen + block == seen + block;
    }
    if Occurs(marker, tail + block) {
      OccursInLonger(marker, seen[..start], tail + block, []);
    }
    if Occurs(marker, seen + block) {
      var i := Where(marker, seen + block);
      FoundBeforeOrHere(marker, seen, tail, block, longest, i);
    }
  }

  lemma Where(marker: Bytes, text: Bytes) returns (i: nat)
    requires Occurs(marker, text)
    ensures OccursAt(marker, text, i)
  {
    i :| OccursAt(marker, text, i);
  }

  lemma FoundBeforeOrHere(marker: Bytes, seen: Bytes, tail: Bytes, block: Bytes, longest: nat, i: nat)
    requires Carries(tail, seen, longest) && |marker| <= longest && OccursAt(marker, seen + block, i)
    ensures Occurs(marker, seen) || Occurs(marker, tail + block)
  {
    var start := |seen| - |tail|;
    if i + |marker| <= |seen| {
      assert (seen + block)[0..|seen|] == seen;
      SliceOfSlice(seen + block, 0, |seen|, i, i + |marker|);
      assert OccursAt(marker, seen, i);
    } else {
      assert start <= i;
      var all := seen + block;
      assert all[start..|all|] == tail + block;
      SliceOfSlice(all, start, |all|, i - start, i - start + |marker|);
      assert OccursAt(marker, tail + block, i - start);
    }
  }

  lemma TailCarries(seen: Bytes, tail: Bytes, block: Bytes, longest: nat)
    requires Carries(tail, seen, longest) && 0 < longest
    ensures Carries(Tail(tail + block, longest), seen + block, longest)
  {
    var all, chunk := seen + block, tail + block;
    var start := |seen| - |tail|;
    assert all[start..] == chunk by {
      assert all[start..] == seen[start..] + block;
    }
    var kept := Tail(chunk, longest);
    SliceOfSlice(all, start, |all|, |chunk| - |kept|, |chunk|);
    hide Tail;
  }

  lemma {:induction false} ConcatSplits(blocks: seq<Bytes>, k: nat)
    requires k <= |blocks|
    ensures exists rest :: Concat(blocks) == Concat(blocks[..k]) + rest
    decreases |blocks|
  {
    if k == |blocks| {
      assert blocks[..k] == blocks;
      assert Concat(blocks) == Concat(blocks[..k]) + [];
    } else {
      var front := blocks[..|blocks| - 1];
      ConcatSplits(front, k);
      assert front[..k] == blocks[..k];
      var rest :| Concat(front) == Concat(blocks[..k]) + rest;
      assert Concat(blocks) == Concat(blocks[..k]) + (rest + blocks[|blocks| - 1]);
    }
  }

  /** `found.update(marker for marker in markers if marker in chunk)`. */
  method FindIn(chunk: Bytes, markers: seq<Bytes>, found: set<Bytes>) returns (more: set<Bytes>)
    ensures forall m :: m in more <==> m in found || (m in markers && Occurs(m, chunk))
  {
    more := found;
    for k := 0 to |markers|
      invariant forall m :: m in more <==> m in found || (m in markers[..k] && Occurs(m, chunk))
    {
      var here := Contains(chunk, markers[k]);
      if here {
        more := more + {markers[k]};
      }
    }
  }

  ghost predicate FoundExactly(found: set<Bytes>, markers: seq<Bytes>, seen: Bytes) {
    forall m :: m in found <==> m in markers && Occurs(m, seen)
  }

  ghost predicate Distinct(markers: seq<Bytes>) {
    forall i, j :: 0 <= i < j < |markers| ==> markers[i] != markers[j]
  }

  lemma FindsExactly(found: set<Bytes>, more: set<Bytes>, markers: seq<Bytes>, seen: Bytes, tail: Bytes, block: Bytes, longest: nat)
    requires FoundExactly(found, markers, seen) && Carries(tail, seen, longest) && Longest(markers, longest)
    requires forall m :: m in more <==> m in found || (m in markers && Occurs(m, tail + block))
    ensures FoundExactly(more, markers, seen + block)
  {
    hide Occurs;
    forall m | m in markers ensures m in more <==> Occurs(m, seen + block) {
      FoundInChunk(m, seen, tail, block, longest);
    }
  }

  /** However the file is cut into blocks, the scan succeeds exactly when every marker
      occurs in the file; stopping early does not change that. */
  method Scan(blocks: seq<Bytes>, markers: seq<Bytes>) returns (all: bool)
    requires markers != [] && Distinct(markers) && forall m :: m in markers ==> m != []
    ensures all <==> forall m :: m in markers ==> Occurs(m, Concat(blocks))
  {
    hide Occurs, Carries, FoundExactly;
    var longest := LongestOf(markers);
    var found: set<Bytes>, tail: Bytes := {}, [];
    ScanStarts(markers, longest);
    var k := 0;
    while k < |blocks|
      invariant 0 <= k <= |blocks|
      invariant FoundExactly(found, markers, Concat(blocks[..k]))
      invariant Carries(tail, Concat(blocks[..k]), longest)
    {
      assert blocks[..k + 1][..k] == blocks[..k];
      var chunk := tail + blocks[k];
      var more := FindIn(chunk, markers, found);
      FindsExactly(found, more, markers, Concat(blocks[..k]), tail, blocks[k], longest);
      TailCarries(Concat(blocks[..k]), tail, blocks[k], longest);
      found := more;
      k := k + 1;
      if |found| == |markers| {
        EarlyExit(blocks, k, markers, found);
        return true;
      }
      tail := Tail(chunk, longest);
    }
    assert blocks[..k] == blocks;
    all := |found| == |markers|;
    CountDecides(found, markers, Concat(blocks));
  }

  lemma ScanStarts(markers: seq<Bytes>, longest: nat)
    requires Longest(markers, longest)
    ensures FoundExactly({}, markers, []) && Carries([], [], longest)
  {
  }

  lemma {:induction false} DistinctSize(markers: seq<Bytes>)
    requires Distinct(markers)
    ensures |set m | m in markers| == |markers|
  {
    if markers != [] {
      var front, last := markers[..|markers| - 1], markers[|markers| - 1];
      DistinctSize(front);
      assert (set m | m in markers) == (set m | m in front) + {last};
    }
  }

  /** As many found as there are markers means every marker was found. */
  lemma CountDecides(found: set<Bytes>, markers: seq<Bytes>, seen: Bytes)
    requires FoundExactly(found, markers, seen) && Distinct(markers)
    ensures |found| == |markers| <==> forall m :: m in markers ==> Occurs(m, seen)
  {
    hide Occurs;
    var every := set m | m in markers;
    DistinctSize(markers);
    SubsetSize(found, every);
    if forall m :: m in markers ==> Occurs(m, seen) {
      assert found == every;
    }
  }

  lemma EarlyExit(blocks: seq<Bytes>, k: nat, markers: seq<Bytes>, found: set<Bytes>)
    requires k <= |blocks| && Distinct(markers) && FoundExactly(found, markers, Concat(blocks[..k])) && |found| == |markers|
    ensures forall m :: m in markers ==> Occurs(m, Concat(blocks))
  {
    hide Occurs, FoundExactly;
    CountDecides(found, markers, Concat(blocks[..k]));
    ConcatSplits(blocks, k);
    var rest :| Concat(blocks) == Concat(blocks[..k]) + rest;
    forall m | m in markers ensures Occurs(m, Concat(blocks)) {
      OccursInLonger(m, [], Concat(blocks[..k]), rest);
      assert [] + Concat(blocks[..k]) + rest == Concat(blocks);
    }
  }
}
