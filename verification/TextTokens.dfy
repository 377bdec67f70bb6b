/** Search tokens: lower-case ASCII words, single CJK characters and adjacent CJK pairs. */
module TextTokens {
  import opened Wrappers
  import opened Collections

  /** How one character is lowered; lowering may change the length. */
  type Lower = char -> string

  predicate IsCjk(c: char) {
    '\U{4E00}' <= c <= '\U{9FFF}'
  }

  predicate IsWord(c: char) {
    'a' <= c <= 'z' || '0' <= c <= '9'
  }

  /** CJK characters have no case. */
  ghost predicate KeepsCjk(lower: Lower) {
    forall c :: IsCjk(c) ==> lower(c) == [c]
  }

  function Lowered(lower: Lower, text: string): string {
    if text == [] then [] else lower(text[0]) + Lowered(lower, text[1..])
  }

  // ----- The leftmost, greedy matches of a character class -----

  predicate All(p: char -> bool, text: string) {
    forall i :: 0 <= i < |text| ==> p(text[i])
  }

  lemma AllWithin(p: char -> bool, text: string, i: nat, j: nat)
    requires i <= j <= |text| && forall x :: i <= x < j ==> p(text[x])
    ensures All(p, text[i..j])
  {
    assert forall x :: 0 <= x < j - i ==> text[i..j][x] == text[i + x];
  }

  lemma AllBetween(p: char -> bool, text: string, i: nat, j: nat)
    requires i <= j <= |text| && All(p, text[i..j])
    ensures forall x :: i <= x < j ==> p(text[x])
  {
    assert forall x :: i <= x < j ==> text[x] == text[i..j][x - i];
  }

  function Span(p: char -> bool, text: string): (n: nat)
    ensures n <= |text| && All(p, text[..n]) && (n < |text| ==> !p(text[n]))
  {
    if text == [] || !p(text[0]) then 0 else
      var n := 1 + Span(p, text[1..]);
      assert text[..n] == [text[0]] + text[1..][..n - 1];
      n
  }

  function Runs(p: char -> bool, text: string): seq<string>
    decreases |text|
  {
    if text == [] then []
    else if p(text[0]) then
      var n := Span(p, text);
      [text[..n]] + Runs(p, text[n..])
    else Runs(p, text[1..])
  }

  ghost predicate MaximalRun(p: char -> bool, text: string, i: nat, j: nat) {
    && i < j <= |text| && All(p, text[i..j])
    && (i == 0 || !p(text[i - 1])) && (j == |text| || !p(text[j]))
  }

  ghost predicate IsRun(p: char -> bool, text: string, r: string) {
    exists i: nat, j: nat :: MaximalRun(p, text, i, j) && text[i..j] == r
  }

  /** A run of a suffix that starts after a break is a run of the text. */
  lemma RunOfSuffix(p: char -> bool, text: string, n: nat, r: string)
    requires n <= |text| && (n == 0 || !p(text[n - 1]) || n == |text| || !p(text[n]))
    requires IsRun(p, text[n..], r)
    ensures IsRun(p, text, r)
  {
    var rest := text[n..];
    var i: nat, j: nat :| MaximalRun(p, rest, i, j) && rest[i..j] == r;
    assert rest[i..j] == text[n + i..n + j];
    assert rest[i] == rest[i..j][0];
    assert MaximalRun(p, text, n + i, n + j);
  }

  /** A run that starts at or after the suffix is a run of the suffix. */
  lemma RunInSuffix(p: char -> bool, text: string, n: nat, i: nat, j: nat)
    requires n <= i && MaximalRun(p, text, i, j)
    ensures IsRun(p, text[n..], text[i..j])
  {
    assert text[n..][i - n..j - n] == text[i..j];
    assert MaximalRun(p, text[n..], i - n, j - n);
  }

  /** The greedy scan returns exactly the maximal runs of the class. */
  lemma {:induction false} RunsAreMaximal(p: char -> bool, text: string, r: string)
    ensures r in Runs(p, text) <==> IsRun(p, text, r)
    decreases |text|
  {
    if text != [] {
      var first := p(text[0]);
      var n := if first then Span(p, text) else 1;
      RunsAreMaximal(p, text[n..], r);
      if IsRun(p, text[n..], r) {
        RunOfSuffix(p, text, n, r);
      }
      if first {
        assert MaximalRun(p, text, 0, n);
      }
      if i: nat, j: nat :| MaximalRun(p, text, i, j) && text[i..j] == r {
        assert p(text[i..j][0]);
        if first && i < n {
          SameRun(p, text, n, i, j);
        } else {
          RunInSuffix(p, text, n, i, j);
        }
      }
    }
  }

  lemma SameRun(p: char -> bool, text: string, n: nat, i: nat, j: nat)
    requires MaximalRun(p, text, 0, n) && MaximalRun(p, text, i, j) && i < n
    ensures i == 0 && j == n
  {
    AllBetween(p, text, 0, n);
    AllBetween(p, text, i, j);
  }

  // ----- Tokens -----

  function Singles(run: string): seq<string> {
    if run == [] then [] else [run[..1]] + Singles(run[1..])
  }

  function Pairs(run: string): seq<string> {
    if |run| < 2 then [] else [run[..2]] + Pairs(run[1..])
  }

  function Pieces(runs: seq<string>): seq<string> {
    if runs == [] then [] else
      Pieces(runs[..|runs| - 1]) + Singles(runs[|runs| - 1]) + Pairs(runs[|runs| - 1])
  }

  function TokensOf(lower: Lower, text: string): seq<string> {
    Runs(IsWord, Lowered(lower, text)) + Pieces(Runs(IsCjk, text))
  }

  lemma AtStart(run: string, t: string)
    requires run != [] && 1 <= |t| <= 2
    ensures OccursAt(t, run, 0) <==> t == run[..1] || (|run| >= 2 && t == run[..2])
  {
  }

  lemma {:induction false} PiecesOfRun(run: string, t: string)
    ensures t in Singles(run) + Pairs(run) <==> 1 <= |t| <= 2 && Occurs(t, run)
  {
    if run == [] {
      assert forall i: nat :: OccursAt(t, run, i) ==> |t| == 0;
    } else {
      hide Occurs, OccursAt;
      PiecesOfRun(run[1..], t);
      OccursFromFront(t, run);
      if 1 <= |t| <= 2 {
        AtStart(run, t);
      }
    }
  }

  lemma {:induction false} PiecesOfRuns(runs: seq<string>, t: string)
    ensures t in Pieces(runs) <==> 1 <= |t| <= 2 && exists r :: r in runs && Occurs(t, r)
  {
    hide Occurs;
    if runs != [] {
      var front, last := runs[..|runs| - 1], runs[|runs| - 1];
      PiecesOfRuns(front, t);
      PiecesOfRun(last, t);
      assert runs == front + [last];
    }
  }

  function RunStart(p: char -> bool, text: string, i: nat): (k: nat)
    requires i <= |text|
    ensures k <= i && All(p, text[k..i]) && (k == 0 || !p(text[k - 1]))
  {
    if i == 0 || !p(text[i - 1]) then i else
      var k := RunStart(p, text, i - 1);
      assert text[k..i] == text[k..i - 1] + [text[i - 1]];
      k
  }

  /** Every stretch of the class lies inside one of its maximal runs. */
  lemma StretchInRun(p: char -> bool, text: string, i: nat, t: string) returns (r: string)
    requires t != [] && All(p, t) && OccursAt(t, text, i)
    ensures IsRun(p, text, r) && Occurs(t, r)
  {
    var k := RunStart(p, text, i);
    var end := i + |t|;
    var m := end + Span(p, text[end..]);
    assert text[end..][..m - end] == text[end..m];
    assert m < |text| ==> text[end..][m - end] == text[m];
    AroundStretch(p, text, k, i, end, m);
    r := text[k..m];
    SliceOfSlice(text, k, m, i - k, i - k + |t|);
    hide MaximalRun, All;
    assert OccursAt(t, r, i - k);
  }

  lemma AroundStretch(p: char -> bool, text: string, k: nat, i: nat, end: nat, m: nat)
    requires k <= i < end <= m <= |text| && All(p, text[k..i]) && All(p, text[i..end]) && All(p, text[end..m])
    requires (k == 0 || !p(text[k - 1])) && (m == |text| || !p(text[m]))
    ensures MaximalRun(p, text, k, m)
  {
    AllBetween(p, text, k, i);
    AllBetween(p, text, i, end);
    AllBetween(p, text, end, m);
    AllWithin(p, text, k, m);
    hide All;
  }

  lemma RunPart(p: char -> bool, text: string, r: string, t: string)
    requires IsRun(p, text, r) && Occurs(t, r)
    ensures Occurs(t, text) && All(p, t)
  {
    var i: nat, j: nat :| MaximalRun(p, text, i, j) && text[i..j] == r;
    var k: nat :| OccursAt(t, r, k);
    SliceOfSlice(text, i, j, k, k + |t|);
    assert OccursAt(t, text, i + k);
    forall x | 0 <= x < |t| ensures p(t[x]) {
      assert t[x] == r[k + x];
    }
  }

  /** A token is a whole word of the lowered text, or one or two CJK characters standing
      next to each other in the text. */
  lemma TokensExactly(lower: Lower, text: string, t: string)
    ensures t in TokensOf(lower, text) <==>
      IsRun(IsWord, Lowered(lower, text), t) || (1 <= |t| <= 2 && All(IsCjk, t) && Occurs(t, text))
  {
    hide IsRun, All;
    var runs := Runs(IsCjk, text);
    RunsAreMaximal(IsWord, Lowered(lower, text), t);
    PiecesOfRuns(runs, t);
    if r :| r in runs && Occurs(t, r) {
      RunsAreMaximal(IsCjk, text, r);
      RunPart(IsCjk, text, r, t);
    }
    if 1 <= |t| <= 2 && All(IsCjk, t) && Occurs(t, text) {
      var i: nat :| OccursAt(t, text, i);
      var r := StretchInRun(IsCjk, text, i, t);
      RunsAreMaximal(IsCjk, text, r);
    }
  }

  lemma RunsOfOne(p: char -> bool, c: char)
    ensures Runs(p, [c]) == if p(c) then [[c]] else []
  {
    assert [c][1..] == [];
    if p(c) {
      assert Span(p, [c]) == 1 && [c][..1] == [c];
    }
  }

  /** The characters that make tokens: a to z, 0 to 9, and U+4E00 to U+9FFF; nothing else does. */
  lemma TokensOfOne(lower: Lower, c: char)
    requires lower(c) == [c]
    ensures TokensOf(lower, [c]) == if 97 <= c as int <= 122 || 48 <= c as int <= 57 || 19968 <= c as int <= 40959 then [[c]] else []
  {
    RunsOfOne(IsWord, c);
    RunsOfOne(IsCjk, c);
    PiecesOfOne(c);
    assert Lowered(lower, [c]) == [c] && Pieces([]) == [];
    hide Runs, Pieces;
  }

  lemma PiecesOfOne(c: char)
    ensures Pieces([[c]]) == [[c]]
  {
    var run, runs := [c], [[c]];
    assert run[1..] == [] && run[..1] == run && Singles([]) == [];
    assert Singles(run) == runs && Pairs(run) == [];
    assert runs[..0] == [] && Pieces([]) == [];
  }

  method Tokens(lower: Lower, text: string) returns (out: seq<string>)
    ensures out == TokensOf(lower, text)
  {
    out := Runs(IsWord, Lowered(lower, text));
    var runs := Runs(IsCjk, text);
    for k := 0 to |runs|
      invariant out == Runs(IsWord, Lowered(lower, text)) + Pieces(runs[..k])
    {
      assert runs[..k + 1][..k] == runs[..k];
      out := out + Singles(runs[k]);
      out := out + Pairs(runs[k]);
    }
    assert runs[..|runs|] == runs;
  }

  // ----- First-occurrence deduplication -----

  function Unique(s: seq<string>): seq<string> {
    if s == [] then [] else
      var front, last := s[..|s| - 1], s[|s| - 1];
      if last in front then Unique(front) else Unique(front) + [last]
  }

  ghost predicate FirstAt(s: seq<string>, t: string, i: nat) {
    i < |s| && s[i] == t && t !in s[..i]
  }

  /** Deduplication loses no token, repeats none and keeps the order of first occurrences. */
  lemma {:induction false} UniqueKeepsAll(s: seq<string>)
    ensures forall t :: t in Unique(s) <==> t in s
    ensures forall i, j :: 0 <= i < j < |Unique(s)| ==> Unique(s)[i] != Unique(s)[j]
    ensures forall i, j, a: nat, b: nat :: 0 <= i < j < |Unique(s)| && FirstAt(s, Unique(s)[i], a) && FirstAt(s, Unique(s)[j], b) ==> a < b
  {
    if s != [] {
      var front, last := s[..|s| - 1], s[|s| - 1];
      UniqueKeepsAll(front);
      assert s == front + [last];
      var u := Unique(s);
      forall i, j, a: nat, b: nat | 0 <= i < j < |u| && FirstAt(s, u[i], a) && FirstAt(s, u[j], b) ensures a < b {
        assert u[i] in Unique(front);
        FirstStays(s, u[i], a);
        if j < |Unique(front)| {
          FirstStays(s, u[j], b);
        } else {
          LastIsNew(s, b);
        }
      }
    }
  }

  lemma FirstStays(s: seq<string>, t: string, a: nat)
    requires s != [] && t in s[..|s| - 1] && FirstAt(s, t, a)
    ensures FirstAt(s[..|s| - 1], t, a)
  {
    var front := s[..|s| - 1];
    var k :| 0 <= k < |front| && front[k] == t;
    assert forall x :: 0 <= x < a ==> s[x] in s[..a];
    assert s[k] == t;
    assert s[..a] == front[..a];
  }

  lemma LastIsNew(s: seq<string>, b: nat)
    requires s != [] && s[|s| - 1] !in s[..|s| - 1] && FirstAt(s, s[|s| - 1], b)
    ensures b == |s| - 1
  {
    assert forall x :: 0 <= x < |s| - 1 ==> s[x] in s[..|s| - 1];
  }

  lemma UniqueStep(s: seq<string>, k: nat)
    requires k < |s|
    ensures Unique(s[..k + 1]) == if s[k] in s[..k] then Unique(s[..k]) else Unique(s[..k]) + [s[k]]
    ensures forall t :: t in s[..k + 1] <==> t in s[..k] || t == s[k]
  {
    assert s[..k + 1][..k] == s[..k];
    assert s[..k + 1] == s[..k] + [s[k]];
  }

  method UniqueTokens(lower: Lower, text: string) returns (result: seq<string>)
    ensures result == Unique(TokensOf(lower, text))
  {
    hide TokensOf;
    var toks := Tokens(lower, text);
    var seen: set<string> := {};
    result := [];
    for k := 0 to |toks|
      invariant result == Unique(toks[..k])
      invariant forall t :: t in seen <==> t in toks[..k]
    {
      UniqueStep(toks, k);
      if toks[k] !in seen {
        seen := seen + {toks[k]};
        result := result + [toks[k]];
      }
    }
    assert toks[..|toks|] == toks;
  }

  // ----- The stored column and the query -----

  predicate IsToken(c: char) {
    IsWord(c) || IsCjk(c)
  }

  ghost predicate TokenLike(t: string) {
    t != [] && All(IsToken, t)
  }

  lemma TokensAreTokenLike(lower: Lower, text: string)
    ensures forall t :: t in TokensOf(lower, text) ==> TokenLike(t)
    ensures forall t :: t in Unique(TokensOf(lower, text)) ==> TokenLike(t)
  {
    UniqueKeepsAll(TokensOf(lower, text));
    forall t | t in TokensOf(lower, text) ensures TokenLike(t) {
      TokensExactly(lower, text, t);
    }
  }

  function Joined(separator: string, parts: seq<string>): string {
    if parts == [] then [] else if |parts| == 1 then parts[0]
    else parts[0] + separator + Joined(separator, parts[1..])
  }

  /** What is written to the full-text column. */
  function Segment(lower: Lower, text: string): string {
    Joined(" ", Unique(TokensOf(lower, text)))
  }

  /** The tokens the full-text index sees in a column: the runs of letters and digits. */
  function StoredTokens(column: string): seq<string> {
    Runs(IsToken, column)
  }

  lemma SpanOfToken(t: string, rest: string)
    requires TokenLike(t) && (rest == [] || !IsToken(rest[0]))
    ensures Span(IsToken, t + rest) == |t|
  {
    var n := Span(IsToken, t + rest);
    AllBetween(IsToken, t + rest, 0, n);
    assert (t + rest)[..n] == (t + rest)[0..n];
    assert forall x :: 0 <= x < |t| ==> IsToken((t + rest)[x]);
    assert rest != [] ==> (t + rest)[|t|] == rest[0];
  }

  lemma {:induction false} JoinedTokensSplit(toks: seq<string>)
    requires forall t :: t in toks ==> TokenLike(t)
    ensures Runs(IsToken, Joined(" ", toks)) == toks
  {
    hide All;
    if toks != [] {
      var t, rest := toks[0], toks[1..];
      var tail := if rest == [] then [] else " " + Joined(" ", rest);
      assert Joined(" ", toks) == t + tail;
      SpanOfToken(t, tail);
      assert (t + tail)[..|t|] == t && (t + tail)[|t|..] == tail;
      assert (t + tail)[0] == t[0];
      TokenStarts(t);
      JoinedTokensSplit(rest);
      if rest != [] {
        assert tail[1..] == Joined(" ", rest);
      }
    }
  }

  lemma TokenStarts(t: string)
    requires TokenLike(t)
    ensures IsToken(t[0])
  {
  }

  /** Reading the column back gives the deduplicated tokens, in order. */
  lemma SegmentReadsBack(lower: Lower, text: string)
    ensures StoredTokens(Segment(lower, text)) == Unique(TokensOf(lower, text))
  {
    TokensAreTokenLike(lower, text);
    JoinedTokensSplit(Unique(TokensOf(lower, text)));
  }

  function Quote(t: string): string {
    ['"'] + t + ['"']
  }

  function Quoted(toks: seq<string>): seq<string> {
    if toks == [] then [] else [Quote(toks[0])] + Quoted(toks[1..])
  }

  method MatchQuery(lower: Lower, query: string) returns (r: Option<string>)
    ensures r == Expression(lower, query)
  {
    var toks := UniqueTokens(lower, query);
    if |toks| == 0 {
      return None;
    }
    return Some(Joined(" OR ", Quoted(toks)));
  }

  function Expression(lower: Lower, query: string): Option<string> {
    var toks := Unique(TokensOf(lower, query));
    if toks == [] then None else Some(Joined(" OR ", Quoted(toks)))
  }

  /** How the search engine reads an expression: quoted phrases joined by OR. */
  function Phrases(expression: string): Option<seq<string>>
    decreases |expression|
  {
    if expression == [] || expression[0] != '"' then None else
      var n := Span(c => c != '"', expression[1..]);
      if n == |expression| - 1 then None else
        var phrase, rest := expression[1..n + 1], expression[n + 2..];
        if rest == [] then Some([phrase])
        else if |rest| < 4 || rest[..4] != " OR " then None
        else match Phrases(rest[4..]) case None => None case Some(more) => Some([phrase] + more)
  }

  lemma SpanOfPhrase(t: string, rest: string)
    requires TokenLike(t) && rest != [] && rest[0] == '"'
    ensures Span(c => c != '"', t + rest) == |t|
  {
    var n := Span(c => c != '"', t + rest);
    assert (t + rest)[..n] == (t + rest)[0..n];
    AllBetween(c => c != '"', t + rest, 0, n);
    assert forall x :: 0 <= x < |t| ==> (t + rest)[x] == t[x] && IsToken(t[x]);
    assert (t + rest)[|t|] == rest[0];
  }

  lemma JoinedParts(separator: string, part: string, rest: seq<string>)
    ensures Joined(separator, [part]) == part
    ensures rest != [] ==> Joined(separator, [part] + rest) == part + separator + Joined(separator, rest)
  {
  }

  lemma FirstPhrase(t: string, tail: string)
    requires TokenLike(t)
    ensures |Quote(t) + tail| == |t| + 2 + |tail|
    ensures (Quote(t) + tail)[0] == '"' && Span(c => c != '"', (Quote(t) + tail)[1..]) == |t|
    ensures (Quote(t) + tail)[1..|t| + 1] == t && (Quote(t) + tail)[|t| + 2..] == tail
  {
    var expression := Quote(t) + tail;
    assert expression[1..] == t + (['"'] + tail);
    SpanOfPhrase(t, ['"'] + tail);
  }

  lemma LastPhrase(t: string)
    requires TokenLike(t)
    ensures Phrases(Quote(t)) == Some([t])
  {
    hide TokenLike, Quote;
    FirstPhrase(t, []);
    assert Quote(t) + [] == Quote(t);
  }

  lemma NextPhrase(t: string, rest: string, more: seq<string>)
    requires TokenLike(t) && Phrases(rest) == Some(more)
    ensures Phrases(Quote(t) + " OR " + rest) == Some([t] + more)
  {
    hide TokenLike, Quote;
    var separator := " OR ";
    var tail := separator + rest;
    FirstPhrase(t, tail);
    assert Quote(t) + separator + rest == Quote(t) + tail;
    assert tail[..4] == separator && tail[4..] == rest;
  }

  lemma {:induction false} PhrasesReadBack(toks: seq<string>)
    requires toks != [] && forall t :: t in toks ==> TokenLike(t)
    ensures Phrases(Joined(" OR ", Quoted(toks))) == Some(toks)
  {
    hide TokenLike, Joined, Quote, Phrases;
    var t, rest := toks[0], toks[1..];
    assert toks == [t] + rest;
    JoinedParts(" OR ", Quote(t), Quoted(rest));
    if rest == [] {
      assert toks == [t] && Quoted(toks) == [Quote(t)];
      LastPhrase(t);
    } else {
      PhrasesReadBack(rest);
      NextPhrase(t, Joined(" OR ", Quoted(rest)), rest);
    }
  }

  /** A row matches when one of the phrases is among its stored tokens. */
  predicate Matches(expression: string, column: string) {
    match Phrases(expression)
    case None => false
    case Some(phrases) => exists t :: t in phrases && t in StoredTokens(column)
  }

  /** A query has an expression exactly when it has a token, and the expression matches a
      stored text exactly when the two share a token. */
  lemma MatchesSharedTokens(lower: Lower, query: string, text: string)
    ensures Expression(lower, query).Some? <==> TokensOf(lower, query) != []
    ensures Expression(lower, query).Some? ==>
      (Matches(Expression(lower, query).value, Segment(lower, text)) <==>
       exists t :: t in TokensOf(lower, query) && t in TokensOf(lower, text))
  {
    var toks := Unique(TokensOf(lower, query));
    UniqueKeepsAll(TokensOf(lower, query));
    UniqueKeepsAll(TokensOf(lower, text));
    SegmentReadsBack(lower, text);
    if TokensOf(lower, query) != [] {
      assert TokensOf(lower, query)[0] in toks;
      TokensAreTokenLike(lower, query);
      PhrasesReadBack(toks);
    }
    if toks != [] {
      assert toks[0] in TokensOf(lower, query);
    }
  }

  lemma OccursInPart(t: string, query: string, text: string)
    requires Occurs(t, query) && Occurs(query, text)
    ensures Occurs(t, text)
  {
    var i: nat :| OccursAt(t, query, i);
    var k: nat :| OccursAt(query, text, k);
    SliceOfSlice(text, k, k + |query|, i, i + |t|);
    assert OccursAt(t, text, k + i);
  }

  lemma {:induction false} CjkKeepsCase(lower: Lower, query: string)
    requires KeepsCjk(lower) && All(IsCjk, query)
    ensures Lowered(lower, query) == query
  {
    if query != [] {
      CjkKeepsCase(lower, query[1..]);
      assert IsCjk(query[0]);
    }
  }

  lemma NoWordInCjk(query: string, t: string)
    requires All(IsCjk, query)
    ensures !IsRun(IsWord, query, t)
  {
    forall i: nat, j: nat ensures !MaximalRun(IsWord, query, i, j) {
      if i < j <= |query| {
        assert query[i..j][0] == query[i] && !IsWord(query[i]);
      }
    }
  }

  /** Whatever text a non-empty CJK query is part of, every token of the query is stored for
      that text, so the query finds it. */
  lemma Recall(lower: Lower, query: string, text: string)
    requires KeepsCjk(lower) && query != [] && All(IsCjk, query) && Occurs(query, text)
    ensures forall t :: t in TokensOf(lower, query) ==> t in StoredTokens(Segment(lower, text))
    ensures Expression(lower, query).Some? && Matches(Expression(lower, query).value, Segment(lower, text))
  {
    hide Occurs, IsRun;
    CjkKeepsCase(lower, query);
    UniqueKeepsAll(TokensOf(lower, text));
    SegmentReadsBack(lower, text);
    forall t | t in TokensOf(lower, query) ensures t in TokensOf(lower, text) {
      TokensExactly(lower, query, t);
      TokensExactly(lower, text, t);
      NoWordInCjk(query, t);
      OccursInPart(t, query, text);
    }
    FirstCharacter(query);
    TokensExactly(lower, query, query[..1]);
    MatchesSharedTokens(lower, query, text);
  }

  lemma FirstCharacter(query: string)
    requires query != []
    ensures Occurs(query[..1], query)
  {
    assert OccursAt(query[..1], query, 0);
  }

  // ----- Case

  /** The texts differ in case only: characters are lowered alike, and CJK characters are the same. */
  ghost predicate SameUpToCase(lower: Lower, a: string, b: string) {
    |a| == |b| && forall i :: 0 <= i < |a| ==> lower(a[i]) == lower(b[i]) && (a[i] == b[i] || (!IsCjk(a[i]) && !IsCjk(b[i])))
  }

  lemma {:induction false} LoweredAlike(lower: Lower, a: string, b: string)
    requires |a| == |b| && forall i :: 0 <= i < |a| ==> lower(a[i]) == lower(b[i])
    ensures Lowered(lower, a) == Lowered(lower, b)
  {
    if a != [] {
      LoweredAlike(lower, a[1..], b[1..]);
    }
  }

  lemma {:induction false} SpanAlike(lower: Lower, a: string, b: string)
    requires SameUpToCase(lower, a, b)
    ensures Span(IsCjk, a) == Span(IsCjk, b) && a[..Span(IsCjk, a)] == b[..Span(IsCjk, b)]
  {
    if a != [] && IsCjk(a[0]) {
      SpanAlike(lower, a[1..], b[1..]);
      var n := Span(IsCjk, a);
      assert a[..n] == [a[0]] + a[1..][..n - 1] && b[..n] == [b[0]] + b[1..][..n - 1];
    }
  }

  lemma {:induction false} RunsAlike(lower: Lower, a: string, b: string)
    requires SameUpToCase(lower, a, b)
    ensures Runs(IsCjk, a) == Runs(IsCjk, b)
    decreases |a|
  {
    if a != [] {
      if IsCjk(a[0]) {
        SpanAlike(lower, a, b);
        RunsAlike(lower, a[Span(IsCjk, a)..], b[Span(IsCjk, a)..]);
      } else {
        RunsAlike(lower, a[1..], b[1..]);
      }
    }
  }

  /** Search does not depend on case: texts that differ in case only have the same tokens, so the same
      column is stored for them and the same expression is searched. */
  lemma CaseDoesNotMatter(lower: Lower, a: string, b: string)
    requires SameUpToCase(lower, a, b)
    ensures TokensOf(lower, a) == TokensOf(lower, b) && Segment(lower, a) == Segment(lower, b) && Expression(lower, a) == Expression(lower, b)
  {
    LoweredAlike(lower, a, b);
    RunsAlike(lower, a, b);
  }
}
