/** The maximum-weight one-to-one mapping, by dynamic programming over sets of used columns. */
module SpeakerMapping {

  /** Row `i` of the first `|columns|` rows is mapped to `columns[i]`, one-to-one. */
  ghost predicate Partial(columns: seq<nat>, k: nat, n: nat) {
    && |columns| == k
    && (forall i :: 0 <= i < k ==> columns[i] < n)
    && (forall i, j :: 0 <= i < j < k ==> columns[i] != columns[j])
  }

  ghost function Used(columns: seq<nat>): set<nat> {
    set c | c in columns
  }

  predicate Square(weights: seq<seq<int>>, n: nat) {
    |weights| == n && forall i :: 0 <= i < n ==> |weights[i]| == n
  }

  predicate Nonnegative(weights: seq<seq<int>>) {
    forall i, j :: 0 <= i < |weights| && 0 <= j < |weights[i]| ==> weights[i][j] >= 0
  }

  ghost function Weight(weights: seq<seq<int>>, columns: seq<nat>): int
    requires |columns| <= |weights| && forall i :: 0 <= i < |columns| ==> columns[i] < |weights[i]|
  {
    if columns == [] then 0
    else Weight(weights, columns[..|columns| - 1]) + weights[|columns| - 1][columns[|columns| - 1]]
  }

  /** A table of the best weights of the first `k` rows, by the set of columns they use. */
  type Table = map<set<nat>, int>

  ghost predicate Attained(weights: seq<seq<int>>, n: nat, k: nat, mask: set<nat>, value: int)
    requires Square(weights, n) && k <= n
  {
    exists columns :: Partial(columns, k, n) && Used(columns) == mask && Weight(weights, columns) == value
  }

  ghost predicate AllAttained(weights: seq<seq<int>>, n: nat, k: nat, table: Table)
    requires Square(weights, n) && k <= n
  {
    forall mask :: mask in table ==> Attained(weights, n, k, mask, table[mask])
  }

  ghost predicate NoneBetter(weights: seq<seq<int>>, n: nat, k: nat, table: Table)
    requires Square(weights, n) && k <= n
  {
    forall columns :: Partial(columns, k, n) ==> Used(columns) in table && Weight(weights, columns) <= table[Used(columns)]
  }

  /** Every column not yet used by `mask` has been tried for row `k`. */
  ghost predicate Tried(weights: seq<seq<int>>, n: nat, k: nat, table: Table, next: Table, mask: set<nat>, columns: nat)
    requires Square(weights, n) && k < n && mask in table && columns <= n
  {
    forall c :: 0 <= c < columns && c !in mask ==> mask + {c} in next && next[mask + {c}] >= table[mask] + weights[k][c]
  }

  method BestMapping(weights: seq<seq<int>>, n: nat) returns (best: int)
    requires Square(weights, n) && Nonnegative(weights)
    ensures exists columns :: Partial(columns, n, n) && Weight(weights, columns) == best
    ensures forall columns :: Partial(columns, n, n) ==> Weight(weights, columns) <= best
  {
    var table: Table := map[{} := 0];
    StartTable(weights, n);
    for k := 0 to n
      invariant AllAttained(weights, n, k, table) && NoneBetter(weights, n, k, table)
    {
      table := NextTable(weights, n, k, table);
    }
    hide AllAttained, NoneBetter, Partial, Weight;
    NotEmpty(weights, n, table);
    best := Largest(table);
    BestOfTable(weights, n, table, best);
  }

  lemma StartTable(weights: seq<seq<int>>, n: nat)
    requires Square(weights, n)
    ensures AllAttained(weights, n, 0, map[{} := 0]) && NoneBetter(weights, n, 0, map[{} := 0])
  {
    assert Partial([], 0, n) && Used([]) == {} && Weight(weights, []) == 0;
    forall columns | Partial(columns, 0, n) ensures columns == [] {
    }
  }

  method NextTable(weights: seq<seq<int>>, n: nat, k: nat, table: Table) returns (next: Table)
    requires Square(weights, n) && Nonnegative(weights) && k < n
    requires AllAttained(weights, n, k, table) && NoneBetter(weights, n, k, table)
    ensures AllAttained(weights, n, k + 1, next) && NoneBetter(weights, n, k + 1, next)
  {
    hide Attained, NoneBetter;
    next := map[];
    var todo := table.Keys;
    while todo != {}
      invariant todo <= table.Keys
      invariant AllAttained(weights, n, k + 1, next)
      invariant forall mask :: mask in table && mask !in todo ==> Tried(weights, n, k, table, next, mask, n)
    {
      var mask :| mask in todo;
      next := TryColumns(weights, n, k, table, next, mask, table.Keys - todo);
      todo := todo - {mask};
    }
    TriedAll(weights, n, k, table, next);
  }

  /** The inner loop: every unused column for one mask; no entry ever gets smaller. */
  method TryColumns(weights: seq<seq<int>>, n: nat, k: nat, table: Table, start: Table, mask: set<nat>, ghost done: set<set<nat>>)
    returns (next: Table)
    requires Square(weights, n) && Nonnegative(weights) && k < n && mask in table
    requires AllAttained(weights, n, k, table) && AllAttained(weights, n, k + 1, start)
    requires done <= table.Keys && forall m :: m in done ==> Tried(weights, n, k, table, start, m, n)
    ensures AllAttained(weights, n, k + 1, next)
    ensures Tried(weights, n, k, table, next, mask, n) && forall m :: m in done ==> Tried(weights, n, k, table, next, m, n)
  {
    hide Attained;
    next := start;
    for c := 0 to n
      invariant AllAttained(weights, n, k + 1, next)
      invariant Grown(start, next)
      invariant Tried(weights, n, k, table, next, mask, c)
    {
      if c !in mask {
        var key := mask + {c};
        var score := table[mask] + weights[k][c];
        AttainedStep(weights, n, k, mask, table[mask], c);
        var known := if key in next then next[key] else -1;
        next := next[key := if known < score then score else known];
      }
    }
  }

  ghost predicate Grown(before: Table, after: Table) {
    forall m :: m in before ==> m in after && before[m] <= after[m]
  }

  lemma AttainedStep(weights: seq<seq<int>>, n: nat, k: nat, mask: set<nat>, value: int, c: nat)
    requires Square(weights, n) && Nonnegative(weights) && k < n && c < n && c !in mask && Attained(weights, n, k, mask, value)
    ensures Attained(weights, n, k + 1, mask + {c}, value + weights[k][c]) && value >= 0
  {
    var columns :| Partial(columns, k, n) && Used(columns) == mask && Weight(weights, columns) == value;
    WeightNonnegative(weights, columns);
    Extend(columns, k, n, c);
    WeightExtend(weights, columns, c);
    assert Partial(columns + [c], k + 1, n);
  }

  lemma Extend(columns: seq<nat>, k: nat, n: nat, c: nat)
    requires Partial(columns, k, n) && c < n && c !in Used(columns)
    ensures Partial(columns + [c], k + 1, n) && Used(columns + [c]) == Used(columns) + {c}
  {
    forall i | 0 <= i < k ensures columns[i] != c {
      assert columns[i] in Used(columns);
    }
  }

  lemma WeightExtend(weights: seq<seq<int>>, columns: seq<nat>, c: nat)
    requires |columns| < |weights| && c < |weights[|columns|]| && forall i :: 0 <= i < |columns| ==> columns[i] < |weights[i]|
    ensures Weight(weights, columns + [c]) == Weight(weights, columns) + weights[|columns|][c]
  {
    assert (columns + [c])[..|columns|] == columns;
  }

  lemma {:induction false} WeightNonnegative(weights: seq<seq<int>>, columns: seq<nat>)
    requires Nonnegative(weights) && |columns| <= |weights| && forall i :: 0 <= i < |columns| ==> columns[i] < |weights[i]|
    ensures Weight(weights, columns) >= 0
  {
    if columns != [] {
      WeightNonnegative(weights, columns[..|columns| - 1]);
    }
  }

  lemma TriedAll(weights: seq<seq<int>>, n: nat, k: nat, table: Table, next: Table)
    requires Square(weights, n) && k < n && NoneBetter(weights, n, k, table)
    requires forall mask :: mask in table ==> Tried(weights, n, k, table, next, mask, n)
    ensures NoneBetter(weights, n, k + 1, next)
  {
    hide Weight, Used;
    forall columns | Partial(columns, k + 1, n)
      ensures Used(columns) in next && Weight(weights, columns) <= next[Used(columns)]
    {
      var c := Shorten(columns, k, n);
      WeightExtend(weights, columns[..k], c);
      assert Tried(weights, n, k, table, next, Used(columns[..k]), n);
    }
  }

  lemma Shorten(columns: seq<nat>, k: nat, n: nat) returns (c: nat)
    requires Partial(columns, k + 1, n)
    ensures c < n && |columns| == k + 1 && columns == columns[..k] + [c] && Partial(columns[..k], k, n)
    ensures c !in Used(columns[..k]) && Used(columns) == Used(columns[..k]) + {c}
    ensures forall i :: 0 <= i < k + 1 ==> columns[i] < n
  {
    c := columns[k];
    assert columns == columns[..k] + [c];
  }

  method Largest(table: Table) returns (best: int)
    requires table != map[]
    ensures exists mask :: mask in table && table[mask] == best
    ensures forall mask :: mask in table ==> table[mask] <= best
  {
    var first :| first in table;
    best := table[first];
    var todo := table.Keys - {first};
    while todo != {}
      invariant todo <= table.Keys
      invariant exists mask :: mask in table && table[mask] == best
      invariant forall mask :: mask in table && mask !in todo ==> table[mask] <= best
    {
      var mask :| mask in todo;
      todo := todo - {mask};
      if table[mask] > best {
        best := table[mask];
      }
    }
  }

  lemma NotEmpty(weights: seq<seq<int>>, n: nat, table: Table)
    requires Square(weights, n) && NoneBetter(weights, n, n, table)
    ensures table != map[]
  {
    assert Partial(seq(n, i => i), n, n);
  }

  lemma BestOfTable(weights: seq<seq<int>>, n: nat, table: Table, best: int)
    requires Square(weights, n) && AllAttained(weights, n, n, table) && NoneBetter(weights, n, n, table)
    requires exists mask :: mask in table && table[mask] == best
    requires forall mask :: mask in table ==> table[mask] <= best
    ensures exists columns :: Partial(columns, n, n) && Weight(weights, columns) == best
    ensures forall columns :: Partial(columns, n, n) ==> Weight(weights, columns) <= best
  {
    var mask :| mask in table && table[mask] == best;
    assert Attained(weights, n, n, mask, best);
  }
}
