/** What the note tables hold after any sequence of calls, told from the calls alone. */
module NoteHistory {
  import opened Wrappers
  import opened Collections
  import opened TextTokens
  import opened NoteIndex

  function After(lower: Lower, ops: seq<Op>): Store {
    if ops == [] then EMPTY else Perform(lower, After(lower, ops[..|ops| - 1]), ops[|ops| - 1])
  }

  /** What a caller who only counts accepted calls expects of a note. */
  datatype Held = Held(note: Note, blocks: seq<Block>)

  function Expect(held: map<string, Held>, op: Op): map<string, Held> {
    match op
    case Replace(note, meta, blocks) =>
      held[note := Held(if note in held then meta.(created := held[note].note.created) else meta, blocks)]
    case Delete(note) => held - {note}
    case Relocate(note, title, path, folder, updated) =>
      if note in held then
        var known := held[note].note;
        held[note := held[note].(note := Note(title, path, folder, known.tags, known.created, updated))]
      else held
    case Clear => map[]
  }

  function Expected(lower: Lower, ops: seq<Op>): map<string, Held> {
    if ops == [] then map[] else
      var front, op := ops[..|ops| - 1], ops[|ops| - 1];
      if Refusal(After(lower, front), op).Some? then Expected(lower, front) else Expect(Expected(lower, front), op)
  }

  ghost predicate DistinctIds(rows: seq<BlockRow>) {
    forall i, j :: 0 <= i < j < |rows| ==> rows[i].block.id != rows[j].block.id
  }

  ghost predicate DistinctPaths(notes: map<string, Note>) {
    forall m, n :: m in notes && n in notes && m != n ==> notes[m].path != notes[n].path
  }

  ghost predicate Owned(rows: seq<BlockRow>, notes: map<string, Note>) {
    forall k :: 0 <= k < |rows| ==> rows[k].note in notes
  }

  ghost predicate Agrees(s: Store, held: map<string, Held>) {
    && s.notes.Keys == held.Keys
    && forall n :: n in held ==> s.notes[n] == held[n].note && BlocksOf(s.blocks, n) == Numbered(n, held[n].blocks)
  }

  ghost predicate Inv(lower: Lower, s: Store, held: map<string, Held>) {
    && s.fts == Projected(lower, s.blocks)
    && DistinctIds(s.blocks) && DistinctPaths(s.notes) && Owned(s.blocks, s.notes) && Agrees(s, held)
  }

  // ----- Tables as sequences -----

  lemma {:induction false} BlocksOfJoin(a: seq<BlockRow>, b: seq<BlockRow>, n: string)
    ensures BlocksOf(a + b, n) == BlocksOf(a, n) + BlocksOf(b, n)
  {
    if b == [] {
      assert a + b == a;
    } else {
      ConcatEnds(a, b);
      BlocksOfJoin(a, b[..|b| - 1], n);
    }
  }

  lemma ProjectedNone(lower: Lower)
    ensures Projected(lower, []) == []
  {
  }

  lemma ProjectedStep(lower: Lower, rows: seq<BlockRow>)
    requires rows != []
    ensures Projected(lower, rows) == Projected(lower, rows[..|rows| - 1]) + [Project(lower, rows[|rows| - 1])]
  {
    hide Project;
  }

  lemma {:induction false} ProjectedJoin(lower: Lower, a: seq<BlockRow>, b: seq<BlockRow>)
    ensures Projected(lower, a + b) == Projected(lower, a) + Projected(lower, b)
  {
    hide Project, Projected;
    ProjectedNone(lower);
    if b == [] {
      assert a + b == a && Projected(lower, a) + [] == Projected(lower, a);
    } else {
      ConcatEnds(a, b);
      ProjectedStep(lower, a + b);
      ProjectedStep(lower, b);
      ProjectedJoin(lower, a, b[..|b| - 1]);
    }
  }

  lemma {:induction false} OthersStay(rows: seq<BlockRow>, gone: string, n: string)
    ensures BlocksOf(BlocksWithout(rows, gone), n) == if n == gone then [] else BlocksOf(rows, n)
  {
    if rows != [] {
      var front, last := rows[..|rows| - 1], rows[|rows| - 1];
      OthersStay(front, gone, n);
      var kept := BlocksWithout(front, gone);
      BlocksOfJoin(kept, [last], n);
      assert [last][..0] == [] && kept + [] == kept;
    }
  }

  /** Deleting a note's rows from both tables keeps the search rows a projection. */
  lemma {:induction false} WithoutProjects(lower: Lower, rows: seq<BlockRow>, gone: string)
    ensures FtsWithout(Projected(lower, rows), gone) == Projected(lower, BlocksWithout(rows, gone))
  {
    hide Project, Segment;
    if rows != [] {
      var front, last := rows[..|rows| - 1], rows[|rows| - 1];
      WithoutProjects(lower, front, gone);
      ProjectNote(lower, last);
      var kept := BlocksWithout(front, gone);
      ProjectedJoin(lower, kept, [last]);
      assert kept + [] == kept;
      assert [last][..0] == [] && Projected(lower, [last]) == [Project(lower, last)];
      var fts := Projected(lower, rows);
      assert fts[..|fts| - 1] == Projected(lower, front) && fts[|fts| - 1] == Project(lower, last);
    }
  }

  lemma ProjectNote(lower: Lower, row: BlockRow)
    ensures Project(lower, row).note == row.note
  {
  }

  lemma {:induction false} NumberedOf(note: string, blocks: seq<Block>, n: string)
    ensures BlocksOf(Numbered(note, blocks), n) == if n == note then Numbered(note, blocks) else []
  {
    if blocks != [] {
      var front := blocks[..|blocks| - 1];
      NumberedOf(note, front, n);
      var rows := Numbered(note, blocks);
      assert rows[..|rows| - 1] == Numbered(note, front);
    }
  }

  lemma {:induction false} NumberedAt(note: string, blocks: seq<Block>)
    ensures |Numbered(note, blocks)| == |blocks|
    ensures forall k :: 0 <= k < |blocks| ==> Numbered(note, blocks)[k] == BlockRow(note, k, blocks[k])
  {
    if blocks != [] {
      NumberedAt(note, blocks[..|blocks| - 1]);
    }
  }

  /** Every row that stays was there, in the same order. */
  lemma {:induction false} WithoutIsPart(rows: seq<BlockRow>, gone: string, notes: map<string, Note>)
    requires DistinctIds(rows) && Owned(rows, notes)
    ensures DistinctIds(BlocksWithout(rows, gone)) && Owned(BlocksWithout(rows, gone), notes - {gone})
    ensures forall r :: r in BlocksWithout(rows, gone) ==> r in rows
  {
    if rows != [] {
      var front, last := rows[..|rows| - 1], rows[|rows| - 1];
      WithoutIsPart(front, gone, notes);
      forall r | r in BlocksWithout(front, gone) ensures r.block.id != last.block.id {
        var k :| 0 <= k < |front| && front[k] == r;
        assert rows[k] == r;
      }
    }
  }

  ghost predicate NewId(blocks: seq<Block>, id: string) {
    forall i :: 0 <= i < |blocks| ==> blocks[i].id != id
  }

  ghost predicate AllDiffer(blocks: seq<Block>) {
    forall i, j :: 0 <= i < j < |blocks| ==> blocks[i].id != blocks[j].id
  }

  lemma AllDifferSplits(blocks: seq<Block>)
    requires blocks != []
    ensures var front, last := blocks[..|blocks| - 1], blocks[|blocks| - 1];
            AllDiffer(blocks) <==> AllDiffer(front) && NewId(front, last.id)
  {
    var front, last := blocks[..|blocks| - 1], blocks[|blocks| - 1];
    assert blocks == front + [last];
  }

  lemma NumberedHasId(note: string, blocks: seq<Block>, id: string)
    ensures HasId(Numbered(note, blocks), id) <==> !NewId(blocks, id)
  {
    hide Numbered;
    NumberedAt(note, blocks);
    if i :| 0 <= i < |blocks| && blocks[i].id == id {
      assert Numbered(note, blocks)[i].block.id == id;
    }
  }

  /** The inserts succeed exactly when the new ids are new and differ from each other. */
  lemma {:induction false} InsertableExactly(rows: seq<BlockRow>, note: string, blocks: seq<Block>)
    ensures Insertable(rows, note, blocks) <==>
      AllDiffer(blocks) && forall i :: 0 <= i < |blocks| ==> !HasId(rows, blocks[i].id)
  {
    if blocks != [] {
      hide HasId, Numbered, AllDiffer, NewId;
      var front, last := blocks[..|blocks| - 1], blocks[|blocks| - 1];
      InsertableExactly(rows, note, front);
      AllDifferSplits(blocks);
      HasIdJoin(rows, Numbered(note, front), last.id);
      NumberedHasId(note, front, last.id);
      assert blocks == front + [last];
    }
  }

  lemma HasIdJoin(a: seq<BlockRow>, b: seq<BlockRow>, id: string)
    ensures HasId(a + b, id) <==> HasId(a, id) || HasId(b, id)
  {
    if k :| 0 <= k < |a| && a[k].block.id == id {
      assert (a + b)[k].block.id == id;
    }
    if k :| 0 <= k < |b| && b[k].block.id == id {
      assert (a + b)[|a| + k].block.id == id;
    }
  }

  lemma InsertedDistinct(rows: seq<BlockRow>, note: string, blocks: seq<Block>)
    requires DistinctIds(rows) && Insertable(rows, note, blocks)
    ensures DistinctIds(rows + Numbered(note, blocks))
  {
    hide Insertable, Numbered;
    InsertableExactly(rows, note, blocks);
    NumberedAt(note, blocks);
    var all := rows + Numbered(note, blocks);
    forall i, j | 0 <= i < j < |all| ensures all[i].block.id != all[j].block.id {
      if i < |rows| <= j {
        assert !HasId(rows, blocks[j - |rows|].id);
      }
    }
  }

  // ----- Every call keeps the invariant -----

  lemma ReplaceKeepsTables(lower: Lower, s: Store, held: map<string, Held>, op: Op)
    requires Inv(lower, s, held) && op.Replace? && Refusal(s, op).None?
    ensures var t := Perform(lower, s, op);
            t.fts == Projected(lower, t.blocks) && DistinctIds(t.blocks) && Owned(t.blocks, t.notes)
  {
    hide Projected, Numbered, BlocksOf, BlocksWithout, FtsWithout, Insertable, DistinctIds, DistinctPaths, PathFree, Agrees;
    var kept, rows := BlocksWithout(s.blocks, op.note), Numbered(op.note, op.blocks);
    WithoutProjects(lower, s.blocks, op.note);
    ProjectedJoin(lower, kept, rows);
    WithoutIsPart(s.blocks, op.note, s.notes);
    InsertedDistinct(kept, op.note, op.blocks);
    NumberedAt(op.note, op.blocks);
  }

  lemma ReplaceAgrees(lower: Lower, s: Store, held: map<string, Held>, op: Op)
    requires Inv(lower, s, held) && op.Replace? && Refusal(s, op).None?
    ensures Agrees(Perform(lower, s, op), Expect(held, op))
  {
    hide Projected, Numbered, BlocksOf, BlocksWithout, FtsWithout, Insertable, DistinctIds, DistinctPaths, PathFree, Owned;
    var kept, rows := BlocksWithout(s.blocks, op.note), Numbered(op.note, op.blocks);
    var want := Expect(held, op);
    forall n | n in want ensures BlocksOf(kept + rows, n) == Numbered(n, want[n].blocks) {
      BlocksOfJoin(kept, rows, n);
      OthersStay(s.blocks, op.note, n);
      NumberedOf(op.note, op.blocks, n);
    }
  }

  lemma ReplacePaths(notes: map<string, Note>, note: string, meta: Note)
    requires DistinctPaths(notes) && PathFree(notes, note, meta.path)
    ensures DistinctPaths(Upserted(notes, note, meta))
  {
  }

  lemma ReplaceKeepsInv(lower: Lower, s: Store, held: map<string, Held>, op: Op)
    requires Inv(lower, s, held) && op.Replace? && Refusal(s, op).None?
    ensures Inv(lower, Perform(lower, s, op), Expect(held, op))
  {
    ReplaceKeepsTables(lower, s, held, op);
    ReplaceAgrees(lower, s, held, op);
    hide Projected, Numbered, BlocksOf, BlocksWithout, FtsWithout, Insertable, DistinctIds, DistinctPaths, PathFree, Owned, Agrees, Upserted;
    ReplacePaths(s.notes, op.note, op.meta);
  }

  lemma DeleteKeepsInv(lower: Lower, s: Store, held: map<string, Held>, op: Op)
    requires Inv(lower, s, held) && op.Delete?
    ensures Inv(lower, Perform(lower, s, op), Expect(held, op))
  {
    hide Projected, Numbered, BlocksOf, BlocksWithout, FtsWithout, DistinctIds;
    var t, want := Perform(lower, s, op), Expect(held, op);
    WithoutProjects(lower, s.blocks, op.note);
    WithoutIsPart(s.blocks, op.note, s.notes);
    forall n | n in want ensures BlocksOf(t.blocks, n) == Numbered(n, want[n].blocks) {
      OthersStay(s.blocks, op.note, n);
    }
  }

  lemma RelocateKeepsInv(lower: Lower, s: Store, held: map<string, Held>, op: Op)
    requires Inv(lower, s, held) && op.Relocate? && Refusal(s, op).None?
    ensures Inv(lower, Perform(lower, s, op), Expect(held, op))
  {
    hide Projected, Numbered, BlocksOf, DistinctIds, DistinctPaths, PathFree, BlocksWithout, Insertable;
    RelocatePaths(s.notes, op.note, Perform(lower, s, op).notes[op.note]);
  }

  lemma RelocatePaths(notes: map<string, Note>, note: string, moved: Note)
    requires DistinctPaths(notes) && PathFree(notes, note, moved.path)
    ensures DistinctPaths(notes[note := moved])
  {
  }

  lemma ClearKeepsInv(lower: Lower, s: Store, held: map<string, Held>)
    ensures Inv(lower, Perform(lower, s, Clear), Expect(held, Clear))
  {
    hide Refusal;
    NothingYet(lower);
    assert Refusal(s, Clear).None? by {
      ClearIsAccepted(s);
    }
  }

  lemma ClearIsAccepted(s: Store)
    ensures Refusal(s, Clear).None?
  {
  }

  lemma {:induction false} HistoryKept(lower: Lower, ops: seq<Op>)
    ensures Inv(lower, After(lower, ops), Expected(lower, ops))
  {
    hide Inv, Perform, Expect, Refusal;
    if ops == [] {
      NothingYet(lower);
    } else {
      var front, op := ops[..|ops| - 1], ops[|ops| - 1];
      var s, held := After(lower, front), Expected(lower, front);
      HistoryKept(lower, front);
      if Refusal(s, op).Some? {
        RefusedChangesNothing(lower, s, op);
      } else if op.Replace? {
        ReplaceKeepsInv(lower, s, held, op);
      } else if op.Delete? {
        DeleteKeepsInv(lower, s, held, op);
      } else if op.Relocate? {
        RelocateKeepsInv(lower, s, held, op);
      } else {
        ClearKeepsInv(lower, s, held);
      }
    }
  }

  lemma NothingYet(lower: Lower)
    ensures Inv(lower, EMPTY, map[])
  {
  }

  lemma RefusedChangesNothing(lower: Lower, s: Store, op: Op)
    requires Refusal(s, op).Some?
    ensures Perform(lower, s, op) == s
  {
  }

  // ----- What a caller sees -----

  lemma NumberedSplits(note: string, blocks: seq<Block>)
    requires blocks != []
    ensures var rows, front := Numbered(note, blocks), blocks[..|blocks| - 1];
            |rows| == |blocks| && rows[..|rows| - 1] == Numbered(note, front) && rows[|rows| - 1] == BlockRow(note, |front|, blocks[|front|])
  {
    hide Numbered;
    NumberedAt(note, blocks);
    NumberedAt(note, blocks[..|blocks| - 1]);
  }

  ghost predicate Sorted(rows: seq<BlockRow>) {
    forall i, j :: 0 <= i < j < |rows| ==> rows[i].position <= rows[j].position
  }

  lemma SortedEnds(rows: seq<BlockRow>)
    requires rows != [] && Sorted(rows)
    ensures var front, last := rows[..|rows| - 1], rows[|rows| - 1];
            && Sorted(front) && Inserted(last, front) == rows && Ordered(rows) == Inserted(last, Ordered(front))
  {
    var front, last := rows[..|rows| - 1], rows[|rows| - 1];
    assert front + [last] == rows;
    if front != [] {
      assert front[|front| - 1] == rows[|rows| - 2];
    }
  }

  lemma {:induction false} SortedStays(rows: seq<BlockRow>)
    requires Sorted(rows)
    ensures Ordered(rows) == rows
  {
    if rows != [] {
      hide Sorted, Ordered, Inserted;
      SortedEnds(rows);
      SortedStays(rows[..|rows| - 1]);
    }
  }

  lemma SortedGrows(rows: seq<BlockRow>, row: BlockRow)
    requires Sorted(rows) && forall r :: r in multiset(rows) ==> r.position <= row.position
    ensures Sorted(rows + [row]) && multiset(rows + [row]) == multiset(rows) + multiset{row}
  {
    forall i | 0 <= i < |rows| ensures rows[i].position <= row.position {
      assert rows[i] in multiset(rows);
    }
  }

  lemma SortedSplits(rows: seq<BlockRow>)
    requires rows != [] && Sorted(rows)
    ensures var front, last := rows[..|rows| - 1], rows[|rows| - 1];
            Sorted(front) && multiset(rows) == multiset(front) + multiset{last} && forall r :: r in multiset(front) ==> r.position <= last.position
  {
    var front, last := rows[..|rows| - 1], rows[|rows| - 1];
    assert rows == front + [last];
  }

  lemma {:induction false} InsertedSorts(row: BlockRow, rows: seq<BlockRow>)
    requires Sorted(rows)
    ensures Sorted(Inserted(row, rows)) && multiset(Inserted(row, rows)) == multiset(rows) + multiset{row}
  {
    hide Sorted;
    if rows == [] {
      SortedGrows(rows, row);
    } else {
      SortedSplits(rows);
      if rows[|rows| - 1].position <= row.position {
        SortedGrows(rows, row);
      } else {
        InsertedSorts(row, rows[..|rows| - 1]);
        SortedGrows(Inserted(row, rows[..|rows| - 1]), rows[|rows| - 1]);
      }
    }
  }

  /** `ORDER BY position` returns the same rows by rising position, whatever order they are stored in. */
  lemma {:induction false} OrderedSorts(rows: seq<BlockRow>)
    ensures Sorted(Ordered(rows)) && multiset(Ordered(rows)) == multiset(rows)
  {
    if rows != [] {
      hide Sorted, Inserted;
      OrderedSorts(rows[..|rows| - 1]);
      InsertedSorts(rows[|rows| - 1], Ordered(rows[..|rows| - 1]));
      assert rows == rows[..|rows| - 1] + [rows[|rows| - 1]];
    } else {
      assert Ordered(rows) == [];
    }
  }

  lemma NumberedIsOrdered(note: string, blocks: seq<Block>)
    ensures Ordered(Numbered(note, blocks)) == Numbered(note, blocks)
  {
    hide Numbered;
    NumberedAt(note, blocks);
    SortedStays(Numbered(note, blocks));
  }

  lemma BlocksInStep(rows: seq<BlockRow>)
    requires rows != []
    ensures BlocksIn(rows) == BlocksIn(rows[..|rows| - 1]) + [rows[|rows| - 1].block]
    ensures IdsOf(rows) == IdsOf(rows[..|rows| - 1]) + [rows[|rows| - 1].block.id]
  {
  }

  lemma {:induction false} NumberedHoldsBlocks(note: string, blocks: seq<Block>)
    ensures BlocksIn(Numbered(note, blocks)) == blocks
    ensures IdsOf(Numbered(note, blocks)) == BlockIds(blocks)
  {
    if blocks != [] {
      hide Numbered, BlocksIn, IdsOf;
      NumberedSplits(note, blocks);
      BlocksInStep(Numbered(note, blocks));
      var front, last := blocks[..|blocks| - 1], blocks[|blocks| - 1];
      NumberedHoldsBlocks(note, front);
      assert front + [last] == blocks;
    }
  }

  /** After any calls, a note is found exactly when it was written and not removed since; it
      comes back as last written or moved, with the creation time it first got and the blocks
      last written, in order; and the ids the next replacement or removal reports are those of these blocks. */
  lemma LookupIsLastWritten(lower: Lower, ops: seq<Op>, note: string)
    ensures var s, held := After(lower, ops), Expected(lower, ops);
            && (Lookup(s, note).Some? <==> note in held)
            && (note in held ==> Lookup(s, note) == Some(Record(held[note].note, held[note].blocks)))
            && IdsOf(BlocksOf(s.blocks, note)) == if note in held then BlockIds(held[note].blocks) else []
  {
    hide Numbered, Ordered, IdsOf, BlocksIn, BlocksOf, After, Expected;
    HistoryKept(lower, ops);
    var s, held := After(lower, ops), Expected(lower, ops);
    if note in held {
      NumberedIsOrdered(note, held[note].blocks);
      NumberedHoldsBlocks(note, held[note].blocks);
    } else {
      NoRows(s.blocks, s.notes, note);
    }
  }

  lemma {:induction false} NoRows(rows: seq<BlockRow>, notes: map<string, Note>, note: string)
    requires Owned(rows, notes) && note !in notes
    ensures BlocksOf(rows, note) == [] && IdsOf([]) == []
  {
    if rows != [] {
      NoRows(rows[..|rows| - 1], notes, note);
    }
  }

  lemma {:induction false} ProjectedAt(lower: Lower, rows: seq<BlockRow>)
    ensures |Projected(lower, rows)| == |rows|
    ensures forall k :: 0 <= k < |rows| ==> Projected(lower, rows)[k] == Project(lower, rows[k])
  {
    hide Project, Projected;
    ProjectedNone(lower);
    if rows != [] {
      var front, last := rows[..|rows| - 1], rows[|rows| - 1];
      ProjectedStep(lower, rows);
      ProjectedAt(lower, front);
      forall k | 0 <= k < |rows| ensures Projected(lower, rows)[k] == Project(lower, rows[k]) {
        assert k < |front| ==> front[k] == rows[k];
      }
    }
  }

  /** Over every run there is exactly one search row per block, the segmented heading and
      content of that block; no note, path or block is stored twice. */
  lemma SearchRowsAreBlocks(lower: Lower, ops: seq<Op>)
    ensures var s := After(lower, ops);
            && |s.fts| == |s.blocks|
            && (forall k :: 0 <= k < |s.fts| ==>
                  && s.fts[k].block == s.blocks[k].block.id && s.fts[k].note == s.blocks[k].note && s.fts[k].note in s.notes
                  && StoredTokens(s.fts[k].heading) == Unique(TokensOf(lower, Joined(" ", s.blocks[k].block.heading)))
                  && StoredTokens(s.fts[k].content) == Unique(TokensOf(lower, s.blocks[k].block.content)))
            && (forall i, j :: 0 <= i < j < |s.fts| ==> s.fts[i].block != s.fts[j].block)
            && DistinctPaths(s.notes)
  {
    hide Projected, Segment, StoredTokens, Unique, TokensOf, Joined, After, Expected;
    HistoryKept(lower, ops);
    var s := After(lower, ops);
    ProjectedAt(lower, s.blocks);
    forall k | 0 <= k < |s.fts|
      ensures StoredTokens(s.fts[k].heading) == Unique(TokensOf(lower, Joined(" ", s.blocks[k].block.heading)))
      ensures StoredTokens(s.fts[k].content) == Unique(TokensOf(lower, s.blocks[k].block.content))
    {
      SegmentReadsBack(lower, Joined(" ", s.blocks[k].block.heading));
      SegmentReadsBack(lower, s.blocks[k].block.content);
    }
  }

  /** A CJK query is found in every stored block whose content it is part of. */
  lemma SearchFindsBlock(lower: Lower, ops: seq<Op>, note: string, i: nat, query: string)
    requires note in Expected(lower, ops) && i < |Expected(lower, ops)[note].blocks|
    requires KeepsCjk(lower) && query != [] && All(IsCjk, query)
    requires Occurs(query, Expected(lower, ops)[note].blocks[i].content)
    ensures Expression(lower, query).Some?
    ensures exists row :: row in After(lower, ops).fts && row.note == note
              && row.block == Expected(lower, ops)[note].blocks[i].id
              && Matches(Expression(lower, query).value, row.content)
  {
    hide Projected, Segment, Matches, Expression, Occurs, All, After, Expected, BlocksOf, Numbered;
    HistoryKept(lower, ops);
    var s, blocks := After(lower, ops), Expected(lower, ops)[note].blocks;
    Recall(lower, query, blocks[i].content);
    NumberedAt(note, blocks);
    var row := BlockRow(note, i, blocks[i]);
    assert row == Numbered(note, blocks)[i];
    PartOfTable(s.blocks, note, row);
    ProjectedAt(lower, s.blocks);
    var k :| 0 <= k < |s.blocks| && s.blocks[k] == row;
    assert s.fts[k] == Project(lower, row);
  }

  lemma {:induction false} PartOfTable(rows: seq<BlockRow>, note: string, row: BlockRow)
    requires row in BlocksOf(rows, note)
    ensures row in rows
  {
    if row !in BlocksOf(rows[..|rows| - 1], note) {
      assert row == rows[|rows| - 1];
    } else {
      PartOfTable(rows[..|rows| - 1], note, row);
    }
  }

  // ----- What is refused

  lemma {:induction false} WithoutMembers(rows: seq<BlockRow>, gone: string, r: BlockRow)
    ensures r in BlocksWithout(rows, gone) <==> r in rows && r.note != gone
  {
    if rows != [] {
      MembersByLast(rows);
      WithoutMembers(rows[..|rows| - 1], gone, r);
    }
  }

  lemma {:induction false} OfMembers(rows: seq<BlockRow>, note: string, r: BlockRow)
    ensures r in BlocksOf(rows, note) <==> r in rows && r.note == note
  {
    if rows != [] {
      MembersByLast(rows);
      OfMembers(rows[..|rows| - 1], note, r);
    }
  }

  /** Another note than `note` has a block with this id. */
  ghost predicate IdElsewhere(held: map<string, Held>, note: string, id: string) {
    exists n, k :: n in held && n != note && 0 <= k < |held[n].blocks| && held[n].blocks[k].id == id
  }

  lemma TakenElsewhere(lower: Lower, s: Store, held: map<string, Held>, note: string, id: string)
    requires Inv(lower, s, held)
    ensures HasId(BlocksWithout(s.blocks, note), id) <==> IdElsewhere(held, note, id)
  {
    hide Projected, Numbered, BlocksOf, BlocksWithout, DistinctIds, DistinctPaths;
    var rows := BlocksWithout(s.blocks, note);
    if k :| 0 <= k < |rows| && rows[k].block.id == id {
      var row := rows[k];
      WithoutMembers(s.blocks, note, row);
      var m :| 0 <= m < |s.blocks| && s.blocks[m] == row;
      var n := row.note;
      OfMembers(s.blocks, n, row);
      NumberedAt(n, held[n].blocks);
      var i :| 0 <= i < |held[n].blocks| && Numbered(n, held[n].blocks)[i] == row;
      assert held[n].blocks[i].id == id;
    }
    if n, i :| n in held && n != note && 0 <= i < |held[n].blocks| && held[n].blocks[i].id == id {
      NumberedAt(n, held[n].blocks);
      var row := BlockRow(n, i, held[n].blocks[i]);
      assert row == Numbered(n, held[n].blocks)[i];
      OfMembers(s.blocks, n, row);
      WithoutMembers(s.blocks, note, row);
      var k :| 0 <= k < |rows| && rows[k] == row;
      assert rows[k].block.id == id;
    }
  }

  /** Another note than `note` has this path. */
  ghost predicate PathElsewhere(held: map<string, Held>, note: string, path: string) {
    exists n :: n in held && n != note && held[n].note.path == path
  }

  /** A call is refused exactly when its path or one of its block ids is another note's, its block ids
      repeat, or it moves a note that is not there. */
  lemma RefusedExactly(lower: Lower, ops: seq<Op>, op: Op)
    ensures var held, refusal := Expected(lower, ops), Refusal(After(lower, ops), op);
            match op
            case Replace(note, meta, blocks) =>
              refusal == if PathElsewhere(held, note, meta.path) then Some(PathTaken)
                         else if !AllDiffer(blocks) || (exists k :: 0 <= k < |blocks| && IdElsewhere(held, note, blocks[k].id)) then Some(BlockTaken)
                         else None
            case Relocate(note, _, path, _, _) =>
              refusal == if note !in held then Some(NotFound) else if PathElsewhere(held, note, path) then Some(PathTaken) else None
            case Delete(_) => refusal == None
            case Clear => refusal == None
  {
    hide After, Expected, Projected, Numbered, BlocksOf, BlocksWithout, DistinctIds, DistinctPaths, Insertable, HasId, AllDiffer, IdElsewhere;
    HistoryKept(lower, ops);
    var s, held := After(lower, ops), Expected(lower, ops);
    if op.Replace? {
      InsertableExactly(BlocksWithout(s.blocks, op.note), op.note, op.blocks);
      forall k | 0 <= k < |op.blocks|
        ensures HasId(BlocksWithout(s.blocks, op.note), op.blocks[k].id) <==> IdElsewhere(held, op.note, op.blocks[k].id)
      {
        TakenElsewhere(lower, s, held, op.note, op.blocks[k].id);
      }
    }
  }
}
