/** Facts about sequences and sets that several modules need. */
module Collections {
  ghost predicate OccursAt<T>(part: seq<T>, text: seq<T>, i: nat) {
    i + |part| <= |text| && text[i..i + |part|] == part
  }

  /** `part` occurs contiguously in `text`. */
  ghost predicate Occurs<T>(part: seq<T>, text: seq<T>) {
    exists i: nat :: OccursAt(part, text, i)
  }

  function Concat<T>(parts: seq<seq<T>>): seq<T> {
    if parts == [] then [] else Concat(parts[..|parts| - 1]) + parts[|parts| - 1]
  }

  lemma SliceOfSlice<T>(text: seq<T>, i: nat, j: nat, a: nat, b: nat)
    requires i <= j <= |text| && a <= b <= j - i
    ensures text[i..j][a..b] == text[i + a..i + b]
  {
    var part := text[i..j];
    assert forall x :: 0 <= x < b - a ==> part[a..b][x] == part[a + x] == text[i + a + x];
  }

  /** An occurrence is at the start or in the rest. */
  lemma OccursFromFront<T>(part: seq<T>, text: seq<T>)
    requires text != []
    ensures Occurs(part, text) <==> OccursAt(part, text, 0) || Occurs(part, text[1..])
  {
    if i: nat :| OccursAt(part, text[1..], i) {
      SliceOfSlice(text, 1, |text|, i, i + |part|);
      assert text[1..] == text[1..|text|];
      assert OccursAt(part, text, i + 1);
    }
    if i: nat :| OccursAt(part, text, i) && i > 0 {
      SliceOfSlice(text, 1, |text|, i - 1, i - 1 + |part|);
      assert text[1..] == text[1..|text|];
      assert OccursAt(part, text[1..], i - 1);
    }
  }

  /** The front and the last element of a concatenation. */
  lemma ConcatEnds<T>(a: seq<T>, b: seq<T>)
    requires b != []
    ensures (a + b)[..|a + b| - 1] == a + b[..|b| - 1] && (a + b)[|a + b| - 1] == b[|b| - 1]
  {
  }

  lemma MembersByLast<T>(s: seq<T>)
    requires s != []
    ensures s == s[..|s| - 1] + [s[|s| - 1]]
    ensures forall x :: x in s <==> x in s[..|s| - 1] || x == s[|s| - 1]
  {
    var front, last := s[..|s| - 1], s[|s| - 1];
    assert s == front + [last];
    assert forall x :: x in front + [last] <==> x in front || x in [last];
  }

  lemma {:induction false} SubsetSize<T>(a: set<T>, b: set<T>)
    requires a <= b
    ensures |a| <= |b| && (|a| == |b| ==> a == b)
  {
    if a == {} {
      assert |b| == 0 ==> b == {};
    } else {
      var x :| x in a;
      SubsetSize(a - {x}, b - {x});
      assert (a - {x}) + {x} == a && (b - {x}) + {x} == b;
    }
  }
}
