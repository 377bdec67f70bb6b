/** The rolling-row edit distance, against sequences of single edits. */
module EditDistance {
  import opened Wrappers

  const CELL_LIMIT := 20_000_000

  // ----- Single edits

  datatype Edit<T> = Insert(at: nat, item: T) | Delete(at: nat) | Replace(at: nat, item: T)

  predicate Applies<T>(s: seq<T>, e: Edit<T>) {
    match e
    case Insert(k, _) => k <= |s|
    case Delete(k) => k < |s|
    case Replace(k, _) => k < |s|
  }

  function Apply<T>(s: seq<T>, e: Edit<T>): seq<T>
    requires Applies(s, e)
  {
    match e
    case Insert(k, x) => s[..k] + [x] + s[k..]
    case Delete(k) => s[..k] + s[k + 1..]
    case Replace(k, x) => s[k := x]
  }

  /** The edits, performed one after the other, turn `s` into `t`. */
  predicate Turns<T(==)>(s: seq<T>, edits: seq<Edit<T>>, t: seq<T>)
    decreases |edits|
  {
    if edits == [] then s == t
    else Applies(s, edits[0]) && Turns(Apply(s, edits[0]), edits[1..], t)
  }

  // ----- The recurrence

  function Min3(a: nat, b: nat, c: nat): nat {
    if a <= b && a <= c then a else if b <= c then b else c
  }

  function Mismatch<T(==)>(x: T, y: T): nat {
    if x != y then 1 else 0
  }

  function Distance<T(==)>(s: seq<T>, t: seq<T>): nat {
    if s == [] then |t|
    else if t == [] then |s|
    else
      Min3(Distance(s, Front(t)) + 1, Distance(Front(s), t) + 1,
           Distance(Front(s), Front(t)) + Mismatch(Last(s), Last(t)))
  }

  function Front<T>(s: seq<T>): seq<T>
    requires s != []
  {
    s[..|s| - 1]
  }

  function Last<T>(s: seq<T>): T
    requires s != []
  {
    s[|s| - 1]
  }

  // ----- The loop

  method Compute<T(==)>(reference: seq<T>, hypothesis: seq<T>) returns (r: Result<nat, string>)
    ensures r.Ok? <==> |reference| * |hypothesis| <= 20_000_000
    ensures r.Ok? ==> r.value == Distance(reference, hypothesis)
  {
    if |reference| * |hypothesis| > CELL_LIMIT {
      return Err("Text comparison exceeds 20 million cells");
    }
    hide Distance;
    var row: seq<nat> := seq(|hypothesis| + 1, j => j);
    FirstCell(reference, hypothesis);
    assert reference[..0] == [];
    for i := 0 to |reference|
      invariant |row| == |hypothesis| + 1
      invariant forall j :: 0 <= j <= |hypothesis| ==> row[j] == Distance(reference[..i], hypothesis[..j])
    {
      row := NextRow(reference, hypothesis, i, row);
    }
    assert reference[..|reference|] == reference && hypothesis[..|hypothesis|] == hypothesis;
    return Ok(row[|row| - 1]);
  }

  method NextRow<T(==)>(reference: seq<T>, hypothesis: seq<T>, i: nat, row: seq<nat>) returns (next: seq<nat>)
    requires i < |reference| && |row| == |hypothesis| + 1
    requires forall j :: 0 <= j <= |hypothesis| ==> row[j] == Distance(reference[..i], hypothesis[..j])
    ensures |next| == |hypothesis| + 1
    ensures forall j :: 0 <= j <= |hypothesis| ==> next[j] == Distance(reference[..i + 1], hypothesis[..j])
  {
    hide Distance;
    FirstCell(reference[..i + 1], hypothesis);
    next := [i + 1];
    for j := 0 to |hypothesis|
      invariant |next| == j + 1
      invariant forall k :: 0 <= k <= j ==> next[k] == Distance(reference[..i + 1], hypothesis[..k])
    {
      Cell(reference, hypothesis, i, j);
      var cell := Min3(next[j] + 1, row[j + 1] + 1, row[j] + Mismatch(reference[i], hypothesis[j]));
      next := next + [cell];
    }
  }

  lemma FirstCell<T>(s: seq<T>, t: seq<T>)
    ensures Distance(s, t[..0]) == |s|
    ensures forall j :: 0 <= j <= |t| ==> Distance([], t[..j]) == j
  {
  }

  lemma Cell<T>(s: seq<T>, t: seq<T>, i: nat, j: nat)
    requires i < |s| && j < |t|
    ensures Distance(s[..i + 1], t[..j + 1]) ==
            Min3(Distance(s[..i + 1], t[..j]) + 1, Distance(s[..i], t[..j + 1]) + 1,
                 Distance(s[..i], t[..j]) + Mismatch(s[i], t[j]))
  {
    assert Front(s[..i + 1]) == s[..i] && Front(t[..j + 1]) == t[..j];
  }

  // ----- Bounds and the metric laws

  lemma {:induction false} Bounds<T>(s: seq<T>, t: seq<T>)
    ensures |s| - |t| <= Distance(s, t) && |t| - |s| <= Distance(s, t)
    ensures Distance(s, t) <= if |s| <= |t| then |t| else |s|
  {
    if s != [] && t != [] {
      Bounds(s, Front(t));
      Bounds(Front(s), t);
      Bounds(Front(s), Front(t));
    }
  }

  lemma {:induction false} ZeroIffEqual<T>(s: seq<T>, t: seq<T>)
    ensures Distance(s, t) == 0 <==> s == t
  {
    hide Distance;
    EmptyDistance(s, t);
    if s != [] && t != [] {
      ZeroIffEqual(Front(s), Front(t));
      AtMost(s, t);
      assert s == Front(s) + [Last(s)] && t == Front(t) + [Last(t)];
    }
  }

  lemma {:induction false} Symmetric<T>(s: seq<T>, t: seq<T>)
    ensures Distance(s, t) == Distance(t, s)
  {
    if s != [] && t != [] {
      Symmetric(s, Front(t));
      Symmetric(Front(s), t);
      Symmetric(Front(s), Front(t));
    }
  }

  lemma AtMost<T>(s: seq<T>, t: seq<T>)
    requires s != [] && t != []
    ensures Distance(s, t) <= Distance(s, Front(t)) + 1
    ensures Distance(s, t) <= Distance(Front(s), t) + 1
    ensures Distance(s, t) <= Distance(Front(s), Front(t)) + Mismatch(Last(s), Last(t))
    ensures || Distance(s, t) == Distance(s, Front(t)) + 1
            || Distance(s, t) == Distance(Front(s), t) + 1
            || Distance(s, t) == Distance(Front(s), Front(t)) + Mismatch(Last(s), Last(t))
  {
  }

  lemma {:induction false} Triangle<T>(s: seq<T>, t: seq<T>, u: seq<T>)
    ensures Distance(s, u) <= Distance(s, t) + Distance(t, u)
    decreases |s| + |t| + |u|
  {
    hide Distance;
    Bounds(s, t);
    Bounds(t, u);
    Bounds(s, u);
    if s != [] && t != [] && u != [] {
      AtMost(s, t);
      AtMost(t, u);
      AtMost(s, u);
      Triangle(Front(s), t, u);
      Triangle(s, t, Front(u));
      Triangle(s, Front(t), u);
      Triangle(s, Front(t), Front(u));
      Triangle(Front(s), Front(t), u);
      Triangle(Front(s), Front(t), Front(u));
    } else {
      EmptyDistance(s, t);
      EmptyDistance(t, u);
      EmptyDistance(s, u);
    }
  }

  lemma EmptyDistance<T>(s: seq<T>, t: seq<T>)
    ensures s == [] ==> Distance(s, t) == |t|
    ensures t == [] ==> Distance(s, t) == |s|
  {
  }

  // ----- No edit sequence is shorter

  lemma {:induction false} SameTail<T>(s: seq<T>, t: seq<T>, tail: seq<T>)
    ensures Distance(s + tail, t + tail) <= Distance(s, t)
  {
    if tail == [] {
      assert s + tail == s && t + tail == t;
    } else {
      SameTail(s, t, Front(tail));
      assert Front(s + tail) == s + Front(tail) && Front(t + tail) == t + Front(tail);
    }
  }

  lemma GrowByOne<T>(s: seq<T>, x: T)
    ensures Distance(s, s + [x]) <= 1 && Distance(s + [x], s) <= 1
  {
    assert Front(s + [x]) == s;
    ZeroIffEqual(s, s);
  }

  lemma SwapLast<T>(s: seq<T>, x: T, y: T)
    ensures Distance(s + [x], s + [y]) <= 1
  {
    assert Front(s + [x]) == s == Front(s + [y]);
    ZeroIffEqual(s, s);
  }

  lemma OneEdit<T>(s: seq<T>, e: Edit<T>)
    requires Applies(s, e)
    ensures Distance(s, Apply(s, e)) <= 1
  {
    hide Distance;
    match e
    case Insert(k, x) =>
      GrowByOne(s[..k], x);
      SameTail(s[..k], s[..k] + [x], s[k..]);
      assert s == s[..k] + s[k..];
    case Delete(k) =>
      GrowByOne(s[..k], s[k]);
      SameTail(s[..k] + [s[k]], s[..k], s[k + 1..]);
      assert s == s[..k] + [s[k]] + s[k + 1..];
    case Replace(k, x) =>
      SwapLast(s[..k], s[k], x);
      SameTail(s[..k] + [s[k]], s[..k] + [x], s[k + 1..]);
      assert s == s[..k] + [s[k]] + s[k + 1..] && s[k := x] == s[..k] + [x] + s[k + 1..];
  }

  lemma {:induction false} NoShorterEdits<T>(s: seq<T>, edits: seq<Edit<T>>, t: seq<T>)
    requires Turns(s, edits, t)
    ensures Distance(s, t) <= |edits|
    decreases |edits|
  {
    if edits == [] {
      ZeroIffEqual(s, t);
    } else {
      OneEdit(s, edits[0]);
      NoShorterEdits(Apply(s, edits[0]), edits[1..], t);
      Triangle(s, Apply(s, edits[0]), t);
    }
  }

  // ----- Some edit sequence is as short

  lemma {:induction false} TurnsThen<T>(s: seq<T>, first: seq<Edit<T>>, t: seq<T>, second: seq<Edit<T>>, u: seq<T>)
    requires Turns(s, first, t) && Turns(t, second, u)
    ensures Turns(s, first + second, u)
    decreases |first|
  {
    if first == [] {
      assert first + second == second;
    } else {
      TurnsThen(Apply(s, first[0]), first[1..], t, second, u);
      assert (first + second)[1..] == first[1..] + second;
    }
  }

  lemma ApplyWithTail<T>(s: seq<T>, e: Edit<T>, x: T)
    requires Applies(s, e)
    ensures Applies(s + [x], e) && Apply(s + [x], e) == Apply(s, e) + [x]
  {
    match e
    case Insert(k, y) =>
      assert (s + [x])[..k] == s[..k] && (s + [x])[k..] == s[k..] + [x];
    case Delete(k) =>
      assert (s + [x])[..k] == s[..k] && (s + [x])[k + 1..] == s[k + 1..] + [x];
    case Replace(k, y) =>
  }

  lemma {:induction false} TurnsWithTail<T>(s: seq<T>, edits: seq<Edit<T>>, t: seq<T>, x: T)
    requires Turns(s, edits, t)
    ensures Turns(s + [x], edits, t + [x])
    decreases |edits|
  {
    hide Apply, Applies;
    if edits != [] {
      ApplyWithTail(s, edits[0], x);
      TurnsWithTail(Apply(s, edits[0]), edits[1..], t, x);
    }
  }

  lemma {:induction false} DeleteAll<T>(s: seq<T>) returns (edits: seq<Edit<T>>)
    ensures |edits| == |s| && Turns(s, edits, [])
  {
    if s == [] {
      edits := [];
    } else {
      var rest := DeleteAll(Front(s));
      assert Apply(s, Delete(|s| - 1)) == Front(s);
      edits := [Delete(|s| - 1)] + rest;
    }
  }

  lemma {:induction false} InsertAll<T>(t: seq<T>) returns (edits: seq<Edit<T>>)
    ensures |edits| == |t| && Turns([], edits, t)
  {
    if t == [] {
      edits := [];
    } else {
      edits := InsertAll(Front(t));
      AppendStep([], edits, t);
      edits := edits + [Insert(|t| - 1, Last(t))];
    }
  }

  lemma AppendStep<T>(s: seq<T>, edits: seq<Edit<T>>, t: seq<T>)
    requires t != [] && Turns(s, edits, Front(t))
    ensures Turns(s, edits + [Insert(|t| - 1, Last(t))], t)
  {
    var e := Insert(|t| - 1, Last(t));
    assert Apply(Front(t), e) == t;
    assert [e][1..] == [];
    assert Turns(Front(t), [e], t);
    TurnsThen(s, edits, Front(t), [e], t);
  }

  lemma FirstEdit<T>(s: seq<T>, e: Edit<T>, edits: seq<Edit<T>>, t: seq<T>)
    requires Applies(s, e) && Turns(Apply(s, e), edits, t)
    ensures Turns(s, [e] + edits, t)
  {
    hide Apply, Applies;
    var all := [e] + edits;
    assert all[0] == e && all[1..] == edits;
  }

  lemma DeleteStep<T>(s: seq<T>, edits: seq<Edit<T>>, t: seq<T>)
    requires s != [] && Turns(Front(s), edits, t)
    ensures Turns(s, [Delete(|s| - 1)] + edits, t)
  {
    hide Turns;
    assert Apply(s, Delete(|s| - 1)) == Front(s);
    FirstEdit(s, Delete(|s| - 1), edits, t);
  }

  lemma KeepStep<T>(s: seq<T>, edits: seq<Edit<T>>, t: seq<T>)
    requires s != [] && t != [] && Last(s) == Last(t) && Turns(Front(s), edits, Front(t))
    ensures Turns(s, edits, t)
  {
    hide Turns;
    TurnsWithTail(Front(s), edits, Front(t), Last(t));
    assert Front(s) + [Last(s)] == s && Front(t) + [Last(t)] == t;
  }

  lemma ReplaceStep<T>(s: seq<T>, edits: seq<Edit<T>>, t: seq<T>)
    requires s != [] && t != [] && Turns(Front(s), edits, Front(t))
    ensures Turns(s, [Replace(|s| - 1, Last(t))] + edits, t)
  {
    hide Turns;
    assert Apply(s, Replace(|s| - 1, Last(t))) == Front(s) + [Last(t)];
    TurnsWithTail(Front(s), edits, Front(t), Last(t));
    assert Front(t) + [Last(t)] == t;
    FirstEdit(s, Replace(|s| - 1, Last(t)), edits, t);
  }

  /** Some edit sequence is exactly as long as the distance. */
  lemma {:induction false} ShortestEdits<T>(s: seq<T>, t: seq<T>) returns (edits: seq<Edit<T>>)
    ensures |edits| == Distance(s, t) && Turns(s, edits, t)
  {
    hide Distance, Turns;
    EmptyDistance(s, t);
    if s == [] {
      edits := InsertAll(t);
      return;
    }
    if t == [] {
      edits := DeleteAll(s);
      return;
    }
    AtMost(s, t);
    if Distance(s, t) == Distance(s, Front(t)) + 1 {
      edits := ShortestEdits(s, Front(t));
      AppendStep(s, edits, t);
      edits := edits + [Insert(|t| - 1, Last(t))];
    } else if Distance(s, t) == Distance(Front(s), t) + 1 {
      edits := ShortestEdits(Front(s), t);
      DeleteStep(s, edits, t);
      edits := [Delete(|s| - 1)] + edits;
    } else {
      edits := ShortestEdits(Front(s), Front(t));
      if Last(s) == Last(t) {
        KeepStep(s, edits, t);
      } else {
        ReplaceStep(s, edits, t);
        edits := [Replace(|s| - 1, Last(t))] + edits;
      }
    }
  }

  /** The distance is the length of a shortest edit sequence. */
  lemma DistanceIsShortest<T(!new)>(s: seq<T>, t: seq<T>)
    ensures exists edits :: Turns(s, edits, t) && |edits| == Distance(s, t)
    ensures forall edits :: Turns(s, edits, t) ==> Distance(s, t) <= |edits|
  {
    var shortest := ShortestEdits(s, t);
    forall edits | Turns(s, edits, t) ensures Distance(s, t) <= |edits| {
      NoShorterEdits(s, edits, t);
    }
  }
}
