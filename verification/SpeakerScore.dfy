/** The diarisation score as computed: elementary intervals, an overlap matrix
    and the best padded mapping, against the tick-by-tick definition. */
module SpeakerScore {
  import opened Wrappers
  import opened Collections
  import opened Diarisation
  import opened SpeakerMapping

  const MAX_SPEAKERS := 12

  datatype Report =
    | Unavailable
    | Scored(spoken: int, missed: int, falseAlarm: int, confusion: int, der: Option<real>)

  type Matrix = seq<seq<int>>

  // ----- Elementary intervals

  /** `b` holds every start and end, in strictly increasing order. */
  ghost predicate Boundaries(b: seq<int>, segments: seq<Segment>) {
    && (forall i, j :: 0 <= i < j < |b| ==> b[i] < b[j])
    && (forall s :: s in segments ==> s.start in b && s.end in b)
  }

  function Touching(segments: seq<Segment>, start: int, end: int): set<string> {
    set s | s in segments && s.start < end && s.end > start :: s.speaker
  }

  /** Between neighbouring boundaries the speakers do not change. */
  lemma IntervalIsConstant(b: seq<int>, segments: seq<Segment>, part: seq<Segment>, k: nat, t: int)
    requires Boundaries(b, segments) && (forall s :: s in part ==> s in segments) && k + 1 < |b| && b[k] <= t < b[k + 1]
    ensures Active(part, t) == Touching(part, b[k], b[k + 1])
  {
    forall s | s in part ensures s.start <= t < s.end <==> s.start < b[k + 1] && s.end > b[k] {
      var i :| 0 <= i < |b| && b[i] == s.start;
      var j :| 0 <= j < |b| && b[j] == s.end;
      assert i <= k || b[k + 1] <= s.start;
      assert j <= k || b[k + 1] <= s.end;
    }
  }

  // ----- The overlap matrix

  ghost predicate Overlaps(weights: Matrix, n: nat, refs: seq<string>, hyps: seq<string>,
                           reference: seq<Segment>, hypothesis: seq<Segment>, lo: int, hi: int)
  {
    && Square(weights, n) && |refs| <= n && |hyps| <= n
    && forall i, j :: 0 <= i < n && 0 <= j < n ==> weights[i][j] == Entry(refs, hyps, reference, hypothesis, lo, hi, i, j)
  }

  ghost function Entry(refs: seq<string>, hyps: seq<string>, reference: seq<Segment>, hypothesis: seq<Segment>, lo: int, hi: int,
                       i: nat, j: nat): int
  {
    if i < |refs| && j < |hyps| then Total(reference, hypothesis, lo, hi, Overlap(refs[i], hyps[j])) else 0
  }

  function Cell(refs: seq<string>, hyps: seq<string>, r: set<string>, h: set<string>, i: nat, j: nat): int {
    if i < |refs| && j < |hyps| && refs[i] in r && hyps[j] in h then 1 else 0
  }

  /** Adds the interval's duration wherever both speakers are active. */
  method AddOverlap(weights: Matrix, n: nat, refs: seq<string>, hyps: seq<string>, r: set<string>, h: set<string>, duration: int)
    returns (sum: Matrix)
    requires Square(weights, n) && |refs| <= n && |hyps| <= n
    ensures Square(sum, n)
    ensures forall i, j :: 0 <= i < n && 0 <= j < n ==> sum[i][j] == weights[i][j] + duration * Cell(refs, hyps, r, h, i, j)
  {
    sum := [];
    for i := 0 to n
      invariant |sum| == i && forall x :: 0 <= x < i ==> |sum[x]| == n
      invariant forall x, j :: 0 <= x < i && 0 <= j < n ==> sum[x][j] == weights[x][j] + duration * Cell(refs, hyps, r, h, x, j)
    {
      var row: seq<int> := [];
      for j := 0 to n
        invariant |row| == j
        invariant forall y :: 0 <= y < j ==> row[y] == weights[i][y] + duration * Cell(refs, hyps, r, h, i, y)
      {
        var more := if i < |refs| && j < |hyps| && refs[i] in r && hyps[j] in h then duration else 0;
        row := row + [weights[i][j] + more];
      }
      sum := sum + [row];
    }
  }

  datatype Sums = Sums(spoken: int, missed: int, falseAlarm: int, common: int)

  ghost function TotalSums(reference: seq<Segment>, hypothesis: seq<Segment>, lo: int, hi: int): Sums {
    Sums(Total(reference, hypothesis, lo, hi, Spoken), Total(reference, hypothesis, lo, hi, Missed),
         Total(reference, hypothesis, lo, hi, FalseAlarm), Total(reference, hypothesis, lo, hi, Common))
  }

  lemma InOrder(b: seq<int>, segments: seq<Segment>, k: nat)
    requires Boundaries(b, segments) && k + 1 < |b|
    ensures b[0] <= b[k] < b[k + 1]
  {
  }

  lemma IntervalTotal(b: seq<int>, reference: seq<Segment>, hypothesis: seq<Segment>, k: nat, q: Quantity)
    requires Boundaries(b, reference + hypothesis) && k + 1 < |b|
    ensures Total(reference, hypothesis, b[0], b[k + 1], q)
            == Total(reference, hypothesis, b[0], b[k], q)
               + (b[k + 1] - b[k]) * At(Touching(reference, b[k], b[k + 1]), Touching(hypothesis, b[k], b[k + 1]), q)
  {
    hide Total, At, Boundaries, Active, Touching;
    InOrder(b, reference + hypothesis, k);
    TotalSplits(reference, hypothesis, b[0], b[k], b[k + 1], q);
    forall t | b[k] <= t < b[k + 1]
      ensures Active(reference, t) == Touching(reference, b[k], b[k + 1]) && Active(hypothesis, t) == Touching(hypothesis, b[k], b[k + 1])
    {
      IntervalIsConstant(b, reference + hypothesis, reference, k, t);
      IntervalIsConstant(b, reference + hypothesis, hypothesis, k, t);
    }
    TotalConstant(reference, hypothesis, b[k], b[k + 1], q,
                  Touching(reference, b[k], b[k + 1]), Touching(hypothesis, b[k], b[k + 1]));
  }

  /** The loop over elementary intervals computes every tick-by-tick total. */
  method Tally(reference: seq<Segment>, hypothesis: seq<Segment>, refs: seq<string>, hyps: seq<string>, n: nat, b: seq<int>)
    returns (sums: Sums, weights: Matrix)
    requires b != [] && Boundaries(b, reference + hypothesis) && |refs| <= n && |hyps| <= n
    ensures sums == TotalSums(reference, hypothesis, b[0], b[|b| - 1])
    ensures Overlaps(weights, n, refs, hyps, reference, hypothesis, b[0], b[|b| - 1])
  {
    hide Total, Boundaries, At, Cell;
    sums := Sums(0, 0, 0, 0);
    weights := seq(n, i => seq(n, j => 0));
    NothingYet(reference, hypothesis, b[0]);
    for k := 0 to |b| - 1
      invariant sums == TotalSums(reference, hypothesis, b[0], b[k])
      invariant Overlaps(weights, n, refs, hyps, reference, hypothesis, b[0], b[k])
    {
      var r, h := Touching(reference, b[k], b[k + 1]), Touching(hypothesis, b[k], b[k + 1]);
      var duration := b[k + 1] - b[k];
      IntervalTotal(b, reference, hypothesis, k, Spoken);
      IntervalTotal(b, reference, hypothesis, k, Missed);
      IntervalTotal(b, reference, hypothesis, k, FalseAlarm);
      IntervalTotal(b, reference, hypothesis, k, Common);
      AtMeans(r, h);
      sums := Sums(sums.spoken + duration * |r|, sums.missed + duration * Max(0, |r| - |h|),
                   sums.falseAlarm + duration * Max(0, |h| - |r|), sums.common + duration * Min(|r|, |h|));
      var before := weights;
      weights := AddOverlap(weights, n, refs, hyps, r, h, duration);
      OverlapsGrow(before, weights, n, refs, hyps, reference, hypothesis, b, k);
    }
  }

  lemma AtMeans(r: set<string>, h: set<string>)
    ensures At(r, h, Spoken) == |r| && At(r, h, Missed) == Max(0, |r| - |h|)
    ensures At(r, h, FalseAlarm) == Max(0, |h| - |r|) && At(r, h, Common) == Min(|r|, |h|)
  {
  }

  lemma NothingYet(reference: seq<Segment>, hypothesis: seq<Segment>, lo: int)
    ensures forall q :: Total(reference, hypothesis, lo, lo, q) == 0
  {
  }

  lemma OverlapsGrow(before: Matrix, after: Matrix, n: nat, refs: seq<string>, hyps: seq<string>,
                     reference: seq<Segment>, hypothesis: seq<Segment>, b: seq<int>, k: nat)
    requires Boundaries(b, reference + hypothesis) && k + 1 < |b|
    requires Overlaps(before, n, refs, hyps, reference, hypothesis, b[0], b[k])
    requires Square(after, n)
    requires forall i, j :: 0 <= i < n && 0 <= j < n ==>
               after[i][j] == before[i][j] + (b[k + 1] - b[k]) * Cell(refs, hyps, Touching(reference, b[k], b[k + 1]), Touching(hypothesis, b[k], b[k + 1]), i, j)
    ensures Overlaps(after, n, refs, hyps, reference, hypothesis, b[0], b[k + 1])
  {
    hide Boundaries, Total;
    forall i, j | 0 <= i < n && 0 <= j < n
      ensures after[i][j] == Entry(refs, hyps, reference, hypothesis, b[0], b[k + 1], i, j)
    {
      if i < |refs| && j < |hyps| {
        IntervalTotal(b, reference, hypothesis, k, Overlap(refs[i], hyps[j]));
      }
    }
  }

  // ----- Padded mappings and mappings of speakers

  /** The mapping of speakers a padded column choice stands for. */
  ghost function MappingOf(refs: seq<string>, hyps: seq<string>, columns: seq<nat>): map<string, string> {
    if columns == [] then map[]
    else
      var k := |columns| - 1;
      var before := MappingOf(refs, hyps, columns[..k]);
      if k < |refs| && columns[k] < |hyps| then before[refs[k] := hyps[columns[k]]] else before
  }

  ghost function EntrySum(refs: seq<string>, hyps: seq<string>, reference: seq<Segment>, hypothesis: seq<Segment>, lo: int, hi: int,
                          columns: seq<nat>): int
  {
    if columns == [] then 0
    else
      EntrySum(refs, hyps, reference, hypothesis, lo, hi, columns[..|columns| - 1])
      + Entry(refs, hyps, reference, hypothesis, lo, hi, |columns| - 1, columns[|columns| - 1])
  }

  lemma {:induction false} WeightIsEntrySum(weights: Matrix, n: nat, refs: seq<string>, hyps: seq<string>,
                                            reference: seq<Segment>, hypothesis: seq<Segment>, lo: int, hi: int, columns: seq<nat>)
    requires Overlaps(weights, n, refs, hyps, reference, hypothesis, lo, hi)
    requires |columns| <= n && forall i :: 0 <= i < |columns| ==> columns[i] < n
    ensures Weight(weights, columns) == EntrySum(refs, hyps, reference, hypothesis, lo, hi, columns)
  {
    if columns != [] {
      WeightIsEntrySum(weights, n, refs, hyps, reference, hypothesis, lo, hi, columns[..|columns| - 1]);
    }
  }

  ghost function CellSum(refs: seq<string>, hyps: seq<string>, r: set<string>, h: set<string>, columns: seq<nat>): int {
    if columns == [] then 0
    else CellSum(refs, hyps, r, h, columns[..|columns| - 1]) + Cell(refs, hyps, r, h, |columns| - 1, columns[|columns| - 1])
  }

  lemma {:induction false} EntrySumStep(refs: seq<string>, hyps: seq<string>, reference: seq<Segment>, hypothesis: seq<Segment>,
                                        lo: int, hi: int, columns: seq<nat>)
    requires lo < hi
    ensures EntrySum(refs, hyps, reference, hypothesis, lo, hi, columns)
            == EntrySum(refs, hyps, reference, hypothesis, lo, hi - 1, columns)
               + CellSum(refs, hyps, Active(reference, hi - 1), Active(hypothesis, hi - 1), columns)
  {
    if columns != [] {
      EntrySumStep(refs, hyps, reference, hypothesis, lo, hi, columns[..|columns| - 1]);
    }
  }

  lemma {:induction false} EntrySumNone(refs: seq<string>, hyps: seq<string>, reference: seq<Segment>, hypothesis: seq<Segment>,
                                        lo: int, hi: int, columns: seq<nat>)
    requires hi <= lo
    ensures EntrySum(refs, hyps, reference, hypothesis, lo, hi, columns) == 0
  {
    if columns != [] {
      EntrySumNone(refs, hyps, reference, hypothesis, lo, hi, columns[..|columns| - 1]);
    }
  }

  lemma {:induction false} CellSumIsRight(refs: seq<string>, hyps: seq<string>, r: set<string>, h: set<string>, columns: seq<nat>)
    requires forall i, j :: 0 <= i < j < |refs| ==> refs[i] != refs[j]
    ensures CellSum(refs, hyps, r, h, columns) == |Right(r, h, MappingOf(refs, hyps, columns))|
  {
    if columns == [] {
      assert Right(r, h, MappingOf(refs, hyps, columns)) == {};
    } else {
      hide Right;
      var front, k := columns[..|columns| - 1], |columns| - 1;
      CellSumIsRight(refs, hyps, r, h, front);
      if k < |refs| && columns[k] < |hyps| {
        if refs[k] in MappingOf(refs, hyps, front) {
          var i := MappingAt(refs, hyps, front, refs[k]);
        }
        RightGrows(r, h, MappingOf(refs, hyps, front), refs[k], hyps[columns[k]]);
      }
    }
  }

  lemma RightGrows(r: set<string>, h: set<string>, m: map<string, string>, a: string, b: string)
    requires a !in m
    ensures |Right(r, h, m[a := b])| == |Right(r, h, m)| + (if a in r && b in h then 1 else 0)
  {
    assert Right(r, h, m[a := b]) == Right(r, h, m) + (if a in r && b in h then {a} else {});
  }

  lemma {:induction false} MappingAt(refs: seq<string>, hyps: seq<string>, columns: seq<nat>, a: string) returns (i: nat)
    requires a in MappingOf(refs, hyps, columns)
    ensures i < |refs| && i < |columns| && columns[i] < |hyps| && refs[i] == a && MappingOf(refs, hyps, columns)[a] == hyps[columns[i]]
  {
    i := |columns| - 1;
    if !(i < |refs| && columns[i] < |hyps| && refs[i] == a) {
      i := MappingAt(refs, hyps, columns[..i], a);
    }
  }

  lemma {:induction false} MappingHas(refs: seq<string>, hyps: seq<string>, columns: seq<nat>, i: nat)
    requires forall i, j :: 0 <= i < j < |refs| ==> refs[i] != refs[j]
    requires i < |refs| && i < |columns| && columns[i] < |hyps|
    ensures refs[i] in MappingOf(refs, hyps, columns) && MappingOf(refs, hyps, columns)[refs[i]] == hyps[columns[i]]
  {
    if i < |columns| - 1 {
      MappingHas(refs, hyps, columns[..|columns| - 1], i);
    }
  }

  /** The weight of a padded mapping is the time its speaker mapping gets right. */
  lemma {:induction false} EntrySumIsMapped(refs: seq<string>, hyps: seq<string>, reference: seq<Segment>, hypothesis: seq<Segment>,
                                            lo: int, hi: int, columns: seq<nat>)
    requires forall i, j :: 0 <= i < j < |refs| ==> refs[i] != refs[j]
    ensures EntrySum(refs, hyps, reference, hypothesis, lo, hi, columns)
            == Total(reference, hypothesis, lo, hi, Mapped(MappingOf(refs, hyps, columns)))
    decreases hi - lo
  {
    if lo < hi {
      EntrySumIsMapped(refs, hyps, reference, hypothesis, lo, hi - 1, columns);
      EntrySumStep(refs, hyps, reference, hypothesis, lo, hi, columns);
      CellSumIsRight(refs, hyps, Active(reference, hi - 1), Active(hypothesis, hi - 1), columns);
    } else {
      EntrySumNone(refs, hyps, reference, hypothesis, lo, hi, columns);
    }
  }

  lemma MappingOfMaps(refs: seq<string>, hyps: seq<string>, reference: seq<Segment>, hypothesis: seq<Segment>, columns: seq<nat>, n: nat)
    requires Lists(refs, Speakers(reference)) && Lists(hyps, Speakers(hypothesis)) && Partial(columns, n, n)
    ensures Maps(reference, hypothesis, MappingOf(refs, hyps, columns))
  {
    hide MappingOf;
    var m := MappingOf(refs, hyps, columns);
    forall a | a in m ensures a in Speakers(reference) && m[a] in Speakers(hypothesis) {
      var i := MappingAt(refs, hyps, columns, a);
    }
    forall a, b | a in m && b in m && m[a] == m[b] ensures a == b {
      var i := MappingAt(refs, hyps, columns, a);
      var j := MappingAt(refs, hyps, columns, b);
    }
  }

  // ----- Completing a mapping of speakers to a padded one

  ghost function Position(x: string, s: seq<string>): nat
    requires x in s
    ensures Position(x, s) < |s| && s[Position(x, s)] == x
  {
    var i :| 0 <= i < |s| && s[i] == x;
    i
  }

  /** The column a mapped row must get. */
  ghost function Wanted(refs: seq<string>, hyps: seq<string>, m: map<string, string>, i: nat): nat
    requires i < |refs| && refs[i] in m && m[refs[i]] in hyps
  {
    Position(m[refs[i]], hyps)
  }

  ghost predicate Wants(refs: seq<string>, hyps: seq<string>, m: map<string, string>, i: nat) {
    i < |refs| && refs[i] in m && m[refs[i]] in hyps
  }

  ghost function Reserved(refs: seq<string>, hyps: seq<string>, m: map<string, string>, k: nat, n: nat): set<nat> {
    set i | k <= i < n && Wants(refs, hyps, m, i) :: Wanted(refs, hyps, m, i)
  }

  ghost predicate Honours(refs: seq<string>, hyps: seq<string>, m: map<string, string>, columns: seq<nat>) {
    forall i :: 0 <= i < |columns| && Wants(refs, hyps, m, i) ==> columns[i] == Wanted(refs, hyps, m, i)
  }

  lemma {:induction false} ReservedCard(refs: seq<string>, hyps: seq<string>, m: map<string, string>, k: nat, n: nat)
    requires k <= n
    ensures |Reserved(refs, hyps, m, k, n)| <= n - k
    decreases n - k
  {
    if k == n {
      assert Reserved(refs, hyps, m, k, n) == {};
    } else {
      ReservedCard(refs, hyps, m, k + 1, n);
      assert Reserved(refs, hyps, m, k, n)
          == Reserved(refs, hyps, m, k + 1, n) + (if Wants(refs, hyps, m, k) then {Wanted(refs, hyps, m, k)} else {});
    }
  }

  lemma {:induction false} UsedCard(columns: seq<nat>)
    ensures |Used(columns)| <= |columns|
  {
    if columns == [] {
      assert Used(columns) == {};
    } else {
      UsedCard(columns[..|columns| - 1]);
      assert columns == columns[..|columns| - 1] + [columns[|columns| - 1]];
      assert Used(columns) == Used(columns[..|columns| - 1]) + {columns[|columns| - 1]};
    }
  }

  lemma {:induction false} FreeBelow(s: set<nat>, n: nat) returns (c: nat)
    requires |s| < n
    ensures c < n && c !in s
  {
    if n - 1 in s {
      c := FreeBelow(s - {n - 1}, n - 1);
    } else {
      c := n - 1;
    }
  }

  /** A partial padded mapping that honours `m` and leaves its later columns free can be completed. */
  lemma {:induction false} CompleteFrom(refs: seq<string>, hyps: seq<string>, m: map<string, string>, n: nat, columns: seq<nat>)
    returns (all: seq<nat>)
    requires |refs| <= n && |hyps| <= n && OneToOne(m)
    requires forall i, j :: 0 <= i < j < |refs| ==> refs[i] != refs[j]
    requires |columns| <= n && Partial(columns, |columns|, n) && Honours(refs, hyps, m, columns)
    requires Used(columns) !! Reserved(refs, hyps, m, |columns|, n)
    ensures Partial(all, n, n) && Honours(refs, hyps, m, all)
    decreases n - |columns|
  {
    var k := |columns|;
    if k == n {
      all := columns;
    } else {
      var c := NextColumn(refs, hyps, m, n, columns);
      Extend(columns, k, n, c);
      all := CompleteFrom(refs, hyps, m, n, columns + [c]);
    }
  }

  lemma NextColumn(refs: seq<string>, hyps: seq<string>, m: map<string, string>, n: nat, columns: seq<nat>) returns (c: nat)
    requires |columns| < n && |hyps| <= n && OneToOne(m)
    requires forall i, j :: 0 <= i < j < |refs| ==> refs[i] != refs[j]
    requires Honours(refs, hyps, m, columns) && Used(columns) !! Reserved(refs, hyps, m, |columns|, n)
    ensures c < n && c !in Used(columns) && Honours(refs, hyps, m, columns + [c])
    ensures Used(columns) + {c} !! Reserved(refs, hyps, m, |columns| + 1, n)
  {
    var k := |columns|;
    var later := Reserved(refs, hyps, m, k + 1, n);
    if Wants(refs, hyps, m, k) {
      c := Wanted(refs, hyps, m, k);
      assert c in Reserved(refs, hyps, m, k, n);
      forall i | k + 1 <= i < n && Wants(refs, hyps, m, i) ensures Wanted(refs, hyps, m, i) != c {
        assert refs[i] != refs[k];
      }
    } else {
      UsedCard(columns);
      ReservedCard(refs, hyps, m, k + 1, n);
      c := FreeBelow(Used(columns) + later, n);
    }
    assert later <= Reserved(refs, hyps, m, k, n);
  }

  /** Every mapping of speakers is within some padded mapping. */
  lemma PaddedFor(refs: seq<string>, hyps: seq<string>, reference: seq<Segment>, hypothesis: seq<Segment>, m: map<string, string>, n: nat)
    returns (columns: seq<nat>)
    requires Lists(refs, Speakers(reference)) && Lists(hyps, Speakers(hypothesis)) && Maps(reference, hypothesis, m)
    requires |refs| <= n && |hyps| <= n
    ensures Partial(columns, n, n)
    ensures forall a :: a in m ==> a in MappingOf(refs, hyps, columns) && MappingOf(refs, hyps, columns)[a] == m[a]
  {
    assert Used([]) == {};
    columns := CompleteFrom(refs, hyps, m, n, []);
    forall a | a in m ensures a in MappingOf(refs, hyps, columns) && MappingOf(refs, hyps, columns)[a] == m[a] {
      var i := Position(a, refs);
      assert Wants(refs, hyps, m, i);
      assert columns[i] == Wanted(refs, hyps, m, i);
      MappingHas(refs, hyps, columns, i);
    }
  }

  lemma {:induction false} MoreIsRight(reference: seq<Segment>, hypothesis: seq<Segment>, lo: int, hi: int,
                                       m: map<string, string>, more: map<string, string>)
    requires forall a :: a in m ==> a in more && more[a] == m[a]
    ensures Total(reference, hypothesis, lo, hi, Mapped(m)) <= Total(reference, hypothesis, lo, hi, Mapped(more))
    decreases hi - lo
  {
    if lo < hi {
      MoreIsRight(reference, hypothesis, lo, hi - 1, m, more);
      SubsetSize(Right(Active(reference, hi - 1), Active(hypothesis, hi - 1), m),
                 Right(Active(reference, hi - 1), Active(hypothesis, hi - 1), more));
    }
  }

  /** The best padded mapping is the best one-to-one mapping of speakers. */
  lemma BestPaddedIsBest(weights: Matrix, n: nat, refs: seq<string>, hyps: seq<string>,
                         reference: seq<Segment>, hypothesis: seq<Segment>, lo: int, hi: int, best: int)
    requires Overlaps(weights, n, refs, hyps, reference, hypothesis, lo, hi)
    requires Lists(refs, Speakers(reference)) && Lists(hyps, Speakers(hypothesis))
    requires exists columns :: Partial(columns, n, n) && Weight(weights, columns) == best
    requires forall columns :: Partial(columns, n, n) ==> Weight(weights, columns) <= best
    ensures IsBest(reference, hypothesis, lo, hi, best)
  {
    hide Total, Weight, Overlaps, MappingOf;
    SquareOf(weights, n, refs, hyps, reference, hypothesis, lo, hi);
    var columns :| Partial(columns, n, n) && Weight(weights, columns) == best;
    WeightIsEntrySum(weights, n, refs, hyps, reference, hypothesis, lo, hi, columns);
    EntrySumIsMapped(refs, hyps, reference, hypothesis, lo, hi, columns);
    MappingOfMaps(refs, hyps, reference, hypothesis, columns, n);
    forall m | Maps(reference, hypothesis, m) ensures Total(reference, hypothesis, lo, hi, Mapped(m)) <= best {
      var padded := PaddedFor(refs, hyps, reference, hypothesis, m, n);
      WeightIsEntrySum(weights, n, refs, hyps, reference, hypothesis, lo, hi, padded);
      EntrySumIsMapped(refs, hyps, reference, hypothesis, lo, hi, padded);
      MoreIsRight(reference, hypothesis, lo, hi, m, MappingOf(refs, hyps, padded));
    }
  }

  lemma SquareOf(weights: Matrix, n: nat, refs: seq<string>, hyps: seq<string>,
                 reference: seq<Segment>, hypothesis: seq<Segment>, lo: int, hi: int)
    requires Overlaps(weights, n, refs, hyps, reference, hypothesis, lo, hi)
    ensures Square(weights, n) && Nonnegative(weights) && |refs| <= n && |hyps| <= n
  {
    forall i, j | 0 <= i < n && 0 <= j < n ensures weights[i][j] >= 0 {
      if i < |refs| && j < |hyps| {
        OverlapNonnegative(reference, hypothesis, lo, hi, refs[i], hyps[j]);
      }
    }
  }

  lemma {:induction false} OverlapNonnegative(reference: seq<Segment>, hypothesis: seq<Segment>, lo: int, hi: int, a: string, b: string)
    ensures Total(reference, hypothesis, lo, hi, Overlap(a, b)) >= 0
    decreases hi - lo
  {
    if lo < hi {
      OverlapNonnegative(reference, hypothesis, lo, hi - 1, a, b);
    }
  }

  // ----- The score

  const TOO_MANY_SPEAKERS := "Speaker scoring supports at most 12 speaker IDs per recording"

  predicate Labelled(reference: seq<Segment>, hypothesis: seq<Segment>) {
    reference != [] && forall s :: s in reference + hypothesis ==> s.speaker != ""
  }

  /** What the report says: the confusion is the common time the best one-to-one mapping gets wrong. */
  ghost predicate IsReport(reference: seq<Segment>, hypothesis: seq<Segment>, lo: int, hi: int, report: Report) {
    && report.Scored?
    && report.spoken == Total(reference, hypothesis, lo, hi, Spoken) && report.spoken > 0
    && report.missed == Total(reference, hypothesis, lo, hi, Missed)
    && report.falseAlarm == Total(reference, hypothesis, lo, hi, FalseAlarm)
    && IsBest(reference, hypothesis, lo, hi, Total(reference, hypothesis, lo, hi, Common) - report.confusion)
    && report.der == Some((report.missed + report.falseAlarm + report.confusion) as real / report.spoken as real)
  }

  method Enumerate(s: set<string>) returns (q: seq<string>)
    ensures Lists(q, s) && |q| == |s|
  {
    q := [];
    var left := s;
    while left != {}
      invariant left <= s && |q| + |left| == |s|
      invariant forall x :: x in q <==> x in s && x !in left
      invariant forall i, j :: 0 <= i < j < |q| ==> q[i] != q[j]
    {
      var x :| x in left;
      left := left - {x};
      q := q + [x];
    }
  }

  ghost predicate Increasing(b: seq<int>) {
    forall i, j :: 0 <= i < j < |b| ==> b[i] < b[j]
  }

  method Insert(b: seq<int>, x: int) returns (c: seq<int>)
    requires Increasing(b)
    ensures Increasing(c) && forall y :: y in c <==> y in b || y == x
  {
    var k := 0;
    while k < |b| && b[k] < x
      invariant 0 <= k <= |b|
      invariant forall i :: 0 <= i < k ==> b[i] < x
    {
      k := k + 1;
    }
    if k < |b| && b[k] == x {
      return b;
    }
    c := b[..k] + [x] + b[k..];
    assert b == b[..k] + b[k..];
  }

  /** All starts and ends, sorted and without repetition. */
  method BoundariesOf(segments: seq<Segment>) returns (b: seq<int>)
    ensures Boundaries(b, segments) && (segments != [] ==> b != [])
    ensures forall x :: x in b <==> Bounds(segments, |segments|, x)
  {
    hide Bounds;
    b := [];
    BoundsGrow(segments, 0);
    for k := 0 to |segments|
      invariant Increasing(b)
      invariant forall x :: x in b <==> Bounds(segments, k, x)
    {
      BoundsGrow(segments, k);
      var first := Insert(b, segments[k].start);
      var second := Insert(first, segments[k].end);
      forall x ensures x in second <==> Bounds(segments, k + 1, x) {
        assert x in second <==> x in first || x == segments[k].end;
        assert x in first <==> x in b || x == segments[k].start;
      }
      b := second;
    }
    BoundsHold(segments);
  }

  /** One of the first `k` segments starts or ends at `x`. */
  ghost predicate Bounds(segments: seq<Segment>, k: nat, x: int) {
    exists i :: 0 <= i < k && i < |segments| && (x == segments[i].start || x == segments[i].end)
  }

  lemma BoundsGrow(segments: seq<Segment>, k: nat)
    ensures forall x :: !Bounds(segments, 0, x)
    ensures k < |segments| ==> forall x :: Bounds(segments, k + 1, x) <==> Bounds(segments, k, x) || x == segments[k].start || x == segments[k].end
  {
    if k < |segments| {
      forall x ensures Bounds(segments, k + 1, x) <==> Bounds(segments, k, x) || x == segments[k].start || x == segments[k].end {
        if i :| 0 <= i < k + 1 && i < |segments| && (x == segments[i].start || x == segments[i].end) {
          assert i < k ==> Bounds(segments, k, x);
        }
        if i :| 0 <= i < k && i < |segments| && (x == segments[i].start || x == segments[i].end) {
          assert Bounds(segments, k + 1, x);
        }
        assert x == segments[k].start || x == segments[k].end ==> Bounds(segments, k + 1, x);
      }
    }
  }

  lemma BoundsHold(segments: seq<Segment>)
    ensures forall s :: s in segments ==> Bounds(segments, |segments|, s.start) && Bounds(segments, |segments|, s.end)
  {
    forall s | s in segments ensures Bounds(segments, |segments|, s.start) && Bounds(segments, |segments|, s.end) {
      var i :| 0 <= i < |segments| && segments[i] == s;
    }
  }

  method Score(reference: seq<Segment>, hypothesis: seq<Segment>) returns (r: Result<Report, string>)
    requires Valid(reference) && Valid(hypothesis)
    ensures !Labelled(reference, hypothesis) ==> r == Ok(Unavailable)
    ensures Labelled(reference, hypothesis) ==> (r.Err? <==> |Speakers(reference)| > 12 || |Speakers(hypothesis)| > 12)
    ensures r.Err? ==> r.error == TOO_MANY_SPEAKERS
    ensures Labelled(reference, hypothesis) && r.Ok? ==>
              forall lo, hi :: lo <= hi && Spans(reference + hypothesis, lo, hi) ==> IsReport(reference, hypothesis, lo, hi, r.value)
  {
    hide IsReport, Boundaries;
    if !Labelled(reference, hypothesis) {
      return Ok(Unavailable);
    }
    var refs := Enumerate(Speakers(reference));
    var hyps := Enumerate(Speakers(hypothesis));
    var count := Max(|refs|, |hyps|);
    if count > MAX_SPEAKERS {
      return Err(TOO_MANY_SPEAKERS);
    }
    var all := reference + hypothesis;
    var b := BoundariesOf(all);
    r := ScoreSpeakers(reference, hypothesis, refs, hyps, count, b);
  }

  method ScoreSpeakers(reference: seq<Segment>, hypothesis: seq<Segment>, refs: seq<string>, hyps: seq<string>, count: nat, b: seq<int>)
    returns (r: Result<Report, string>)
    requires Valid(reference) && reference != [] && b != [] && Boundaries(b, reference + hypothesis)
    requires |refs| <= count && |hyps| <= count && Lists(refs, Speakers(reference)) && Lists(hyps, Speakers(hypothesis))
    ensures r.Ok? && forall lo, hi :: lo <= hi && Spans(reference + hypothesis, lo, hi) ==> IsReport(reference, hypothesis, lo, hi, r.value)
  {
    hide Overlaps, Boundaries, Lists, IsReport, IsBest, Total, Spans, Valid, Speakers;
    var sums, weights := Tally(reference, hypothesis, refs, hyps, count, b);
    var lo, hi := b[0], b[|b| - 1];
    SquareOf(weights, count, refs, hyps, reference, hypothesis, lo, hi);
    var best := BestMapping(weights, count);
    BestPaddedIsBest(weights, count, refs, hyps, reference, hypothesis, lo, hi, best);
    BestAtMostCommon(reference, hypothesis, lo, hi, best);
    SpanOfBoundaries(b, reference, hypothesis);
    var confusion := Max(0, sums.common - best);
    var report := Scored(sums.spoken, sums.missed, sums.falseAlarm, confusion,
                         if sums.spoken != 0
                         then Some((sums.missed + sums.falseAlarm + confusion) as real / sums.spoken as real) else None);
    MakesReport(reference, hypothesis, lo, hi, sums, best, report);
    forall from, to | from <= to && Spans(reference + hypothesis, from, to) ensures IsReport(reference, hypothesis, from, to, report) {
      ReportOfAnySpan(reference, hypothesis, lo, hi, from, to, report);
    }
    return Ok(report);
  }

  /** The best mapping never exceeds the common time, so the clamp at zero never acts. */
  lemma BestAtMostCommon(reference: seq<Segment>, hypothesis: seq<Segment>, lo: int, hi: int, best: int)
    requires IsBest(reference, hypothesis, lo, hi, best)
    ensures 0 <= best <= Total(reference, hypothesis, lo, hi, Common)
  {
    var m :| Maps(reference, hypothesis, m) && Total(reference, hypothesis, lo, hi, Mapped(m)) == best;
    MappedAtMostCommon(reference, hypothesis, lo, hi, m);
    MappedNonnegative(reference, hypothesis, lo, hi, m);
  }

  lemma {:induction false} MappedNonnegative(reference: seq<Segment>, hypothesis: seq<Segment>, lo: int, hi: int, m: map<string, string>)
    ensures Total(reference, hypothesis, lo, hi, Mapped(m)) >= 0
    decreases hi - lo
  {
    if lo < hi {
      MappedNonnegative(reference, hypothesis, lo, hi - 1, m);
    }
  }

  lemma SpanOfBoundaries(b: seq<int>, reference: seq<Segment>, hypothesis: seq<Segment>)
    requires b != [] && Boundaries(b, reference + hypothesis)
    ensures b[0] <= b[|b| - 1] && Spans(reference + hypothesis, b[0], b[|b| - 1])
  {
  }

  lemma {:induction false} SpokenNonnegative(reference: seq<Segment>, hypothesis: seq<Segment>, lo: int, hi: int)
    ensures Total(reference, hypothesis, lo, hi, Spoken) >= 0
    decreases hi - lo
  {
    if lo < hi {
      SpokenNonnegative(reference, hypothesis, lo, hi - 1);
    }
  }

  lemma SpokenPositive(reference: seq<Segment>, hypothesis: seq<Segment>, lo: int, hi: int)
    requires reference != [] && Valid(reference) && Spans(reference + hypothesis, lo, hi)
    ensures Total(reference, hypothesis, lo, hi, Spoken) > 0
  {
    var s := reference[0];
    assert s in reference + hypothesis;
    var t := s.start;
    TotalSplits(reference, hypothesis, lo, t + 1, hi, Spoken);
    SpokenNonnegative(reference, hypothesis, lo, t);
    SpokenNonnegative(reference, hypothesis, t + 1, hi);
    assert s.speaker in Active(reference, t);
  }

  lemma MakesReport(reference: seq<Segment>, hypothesis: seq<Segment>, lo: int, hi: int, sums: Sums, best: int, report: Report)
    requires reference != [] && Valid(reference) && Spans(reference + hypothesis, lo, hi)
    requires sums == TotalSums(reference, hypothesis, lo, hi)
    requires IsBest(reference, hypothesis, lo, hi, best)
    requires report == Scored(sums.spoken, sums.missed, sums.falseAlarm, sums.common - best,
                              if sums.spoken != 0
                              then Some((sums.missed + sums.falseAlarm + (sums.common - best)) as real / sums.spoken as real) else None)
    ensures IsReport(reference, hypothesis, lo, hi, report)
  {
    SpokenPositive(reference, hypothesis, lo, hi);
  }

  lemma BestOfAnySpan(reference: seq<Segment>, hypothesis: seq<Segment>, lo: int, hi: int, from: int, to: int, best: int)
    requires lo <= hi && from <= to && Spans(reference + hypothesis, lo, hi) && Spans(reference + hypothesis, from, to)
    requires IsBest(reference, hypothesis, lo, hi, best)
    ensures IsBest(reference, hypothesis, from, to, best)
  {
    hide Total, Maps, Spans;
    forall m ensures Total(reference, hypothesis, lo, hi, Mapped(m)) == Total(reference, hypothesis, from, to, Mapped(m)) {
      TotalOfAnySpan(reference, hypothesis, lo, hi, from, to, Mapped(m));
    }
  }

  lemma ReportOfAnySpan(reference: seq<Segment>, hypothesis: seq<Segment>, lo: int, hi: int, from: int, to: int, report: Report)
    requires lo <= hi && from <= to && Spans(reference + hypothesis, lo, hi) && Spans(reference + hypothesis, from, to)
    requires IsReport(reference, hypothesis, lo, hi, report)
    ensures IsReport(reference, hypothesis, from, to, report)
  {
    hide Total, Spans, IsBest;
    TotalOfAnySpan(reference, hypothesis, lo, hi, from, to, Spoken);
    TotalOfAnySpan(reference, hypothesis, lo, hi, from, to, Missed);
    TotalOfAnySpan(reference, hypothesis, lo, hi, from, to, FalseAlarm);
    TotalOfAnySpan(reference, hypothesis, lo, hi, from, to, Common);
    BestOfAnySpan(reference, hypothesis, lo, hi, from, to, Total(reference, hypothesis, lo, hi, Common) - report.confusion);
  }

  // ----- What the report promises

  /** There is only one report, whatever order speakers and intervals are taken in. */
  lemma ReportIsUnique(reference: seq<Segment>, hypothesis: seq<Segment>, lo: int, hi: int, one: Report, other: Report)
    requires IsReport(reference, hypothesis, lo, hi, one) && IsReport(reference, hypothesis, lo, hi, other)
    ensures one == other
  {
    var common := Total(reference, hypothesis, lo, hi, Common);
    var m :| Maps(reference, hypothesis, m) && Total(reference, hypothesis, lo, hi, Mapped(m)) == common - one.confusion;
    var n :| Maps(reference, hypothesis, n) && Total(reference, hypothesis, lo, hi, Mapped(n)) == common - other.confusion;
    assert one.confusion == other.confusion;
  }

  /** Renaming the hypothesis speakers one-to-one leaves the whole report as it is. */
  lemma RenamingKeepsReport(reference: seq<Segment>, hypothesis: seq<Segment>, names: map<string, string>, lo: int, hi: int, report: Report)
    requires OneToOne(names) && Speakers(hypothesis) <= names.Keys
    requires IsReport(reference, hypothesis, lo, hi, report)
    ensures IsReport(reference, Rename(hypothesis, names), lo, hi, report)
  {
    hide Total, IsBest;
    RenamedTotal(reference, hypothesis, names, lo, hi, Spoken);
    RenamedTotal(reference, hypothesis, names, lo, hi, Missed);
    RenamedTotal(reference, hypothesis, names, lo, hi, FalseAlarm);
    RenamedTotal(reference, hypothesis, names, lo, hi, Common);
    BestIsRenamed(reference, hypothesis, names, lo, hi, Total(reference, hypothesis, lo, hi, Common) - report.confusion);
  }

  /** A hypothesis that is the reference under other names scores no error at all. */
  lemma PerfectReport(reference: seq<Segment>, names: map<string, string>, lo: int, hi: int, report: Report)
    requires OneToOne(names) && Speakers(reference) <= names.Keys
    requires IsReport(reference, Rename(reference, names), lo, hi, report)
    ensures report.missed == 0 && report.falseAlarm == 0 && report.confusion == 0 && report.der == Some(0.0)
  {
    hide IsBest;
    PerfectTotals(reference, names, lo, hi);
    PerfectBest(reference, names, lo, hi, Total(reference, Rename(reference, names), lo, hi, Common) - report.confusion);
  }

  /** The parts of a report account for every speaker's union of segments on both sides. */
  lemma ReportAccounts(reference: seq<Segment>, hypothesis: seq<Segment>, refs: seq<string>, hyps: seq<string>, lo: int, hi: int, report: Report)
    requires IsReport(reference, hypothesis, lo, hi, report)
    requires Lists(refs, Speakers(reference)) && Lists(hyps, Speakers(hypothesis))
    ensures var common := Total(reference, hypothesis, lo, hi, Common);
            && report.missed + common == report.spoken == SumTicks(reference, refs, lo, hi)
            && report.falseAlarm + common == SumTicks(hypothesis, hyps, lo, hi)
            && 0 <= report.confusion <= common
  {
    Accounting(reference, hypothesis, lo, hi);
    SpokenIsUnionLength(reference, hypothesis, refs, lo, hi);
    HeardIsSpoken(reference, hypothesis, lo, hi);
    SpokenIsUnionLength(hypothesis, reference, hyps, lo, hi);
    BestAtMostCommon(reference, hypothesis, lo, hi, Total(reference, hypothesis, lo, hi, Common) - report.confusion);
  }

  lemma SomeSpan(segments: seq<Segment>) returns (lo: int, hi: int)
    ensures lo <= hi && Spans(segments, lo, hi)
  {
    lo, hi := 0, 0;
    for k := 0 to |segments|
      invariant lo <= hi && Spans(segments[..k], lo, hi)
    {
      assert segments[..k + 1] == segments[..k] + [segments[k]];
      lo := Min(lo, Min(segments[k].start, segments[k].end));
      hi := Max(hi, Max(segments[k].start, segments[k].end));
    }
    assert segments[..|segments|] == segments;
  }

  /** Renaming changes nothing but speakers. */
  lemma RenamedTimes(reference: seq<Segment>, hypothesis: seq<Segment>, names: map<string, string>)
    requires Speakers(hypothesis) <= names.Keys && Valid(hypothesis)
    ensures Valid(Rename(hypothesis, names))
    ensures forall lo, hi :: Spans(reference + hypothesis, lo, hi) ==> Spans(reference + Rename(hypothesis, names), lo, hi)
  {
    var renamed := Rename(hypothesis, names);
    forall s | s in renamed ensures exists t :: t in hypothesis && s.start == t.start && s.end == t.end {
      var i :| 0 <= i < |renamed| && renamed[i] == s;
      assert hypothesis[i] in hypothesis;
    }
    assert forall s :: s in hypothesis ==> s in reference + hypothesis;
  }

  lemma RenamedLabels(reference: seq<Segment>, hypothesis: seq<Segment>, names: map<string, string>)
    requires Speakers(hypothesis) <= names.Keys
    requires forall x :: x in Speakers(hypothesis) ==> (names[x] == "" <==> x == "")
    ensures Labelled(reference, Rename(hypothesis, names)) <==> Labelled(reference, hypothesis)
  {
    var renamed := Rename(hypothesis, names);
    forall i | 0 <= i < |hypothesis| ensures renamed[i].speaker == "" <==> hypothesis[i].speaker == "" {
      assert hypothesis[i].speaker in Speakers(hypothesis);
    }
    assert (forall s :: s in hypothesis ==> s.speaker != "") <==> forall i :: 0 <= i < |hypothesis| ==> hypothesis[i].speaker != "";
    assert (forall s :: s in renamed ==> s.speaker != "") <==> forall i :: 0 <= i < |renamed| ==> renamed[i].speaker != "";
    SplitLabels(reference, hypothesis);
    SplitLabels(reference, renamed);
  }

  lemma SplitLabels(reference: seq<Segment>, hypothesis: seq<Segment>)
    ensures Labelled(reference, hypothesis) <==>
      reference != [] && (forall s :: s in reference ==> s.speaker != "") && (forall s :: s in hypothesis ==> s.speaker != "")
  {
  }

  /** Scoring a hypothesis under other speaker names gives the same result, whatever it is. */
  method ScoreRenamed(reference: seq<Segment>, hypothesis: seq<Segment>, names: map<string, string>)
    returns (one: Result<Report, string>, other: Result<Report, string>)
    requires Valid(reference) && Valid(hypothesis) && OneToOne(names) && Speakers(hypothesis) <= names.Keys
    requires forall x :: x in Speakers(hypothesis) ==> (names[x] == "" <==> x == "")
    ensures one == other
  {
    hide IsReport, Labelled, Spans, Rename;
    RenamedTimes(reference, hypothesis, names);
    RenamedLabels(reference, hypothesis, names);
    RenamedSpeakers(hypothesis, names);
    ImageCard(Speakers(hypothesis), names);
    var renamed := Rename(hypothesis, names);
    one := Score(reference, hypothesis);
    other := Score(reference, renamed);
    if one.Ok? && Labelled(reference, hypothesis) {
      ghost var lo, hi := SomeSpan(reference + hypothesis);
      RenamingKeepsReport(reference, hypothesis, names, lo, hi, one.value);
      ReportIsUnique(reference, renamed, lo, hi, one.value, other.value);
    }
  }
}
