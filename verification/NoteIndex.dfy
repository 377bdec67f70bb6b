/**
 The notes, blocks and full-text tables of one vault.  Every call runs in its caller's
 transaction, so a refused call leaves the tables as they were.
 */
module NoteIndex {
  import opened Wrappers
  import opened TextTokens

  datatype Block = Block(id: string, heading: seq<string>, start: int, end: int, content: string, hash: string, tokenCount: int)

  datatype Note = Note(title: string, path: string, folder: string, tags: seq<string>, created: int, updated: int)

  datatype BlockRow = BlockRow(note: string, position: nat, block: Block)

  datatype FtsRow = FtsRow(block: string, note: string, heading: string, content: string)

  /** `notes` by key; `blocks` and `fts` in row order. */
  datatype Store = Store(notes: map<string, Note>, blocks: seq<BlockRow>, fts: seq<FtsRow>)

  datatype Record = Record(note: Note, blocks: seq<Block>)

  datatype Error = PathTaken | BlockTaken | NotFound

  const EMPTY := Store(map[], [], [])

  // ----- Tables -----

  function BlocksOf(rows: seq<BlockRow>, note: string): seq<BlockRow> {
    if rows == [] then [] else
      var last := rows[|rows| - 1];
      BlocksOf(rows[..|rows| - 1], note) + if last.note == note then [last] else []
  }

  function BlocksWithout(rows: seq<BlockRow>, note: string): seq<BlockRow> {
    if rows == [] then [] else
      var last := rows[|rows| - 1];
      BlocksWithout(rows[..|rows| - 1], note) + if last.note != note then [last] else []
  }

  function FtsWithout(rows: seq<FtsRow>, note: string): seq<FtsRow> {
    if rows == [] then [] else
      var last := rows[|rows| - 1];
      FtsWithout(rows[..|rows| - 1], note) + if last.note != note then [last] else []
  }

  function IdsOf(rows: seq<BlockRow>): seq<string> {
    if rows == [] then [] else IdsOf(rows[..|rows| - 1]) + [rows[|rows| - 1].block.id]
  }

  function BlocksIn(rows: seq<BlockRow>): seq<Block> {
    if rows == [] then [] else BlocksIn(rows[..|rows| - 1]) + [rows[|rows| - 1].block]
  }

  function BlockIds(blocks: seq<Block>): seq<string> {
    if blocks == [] then [] else BlockIds(blocks[..|blocks| - 1]) + [blocks[|blocks| - 1].id]
  }

  /** The rows a note's blocks become. */
  function Numbered(note: string, blocks: seq<Block>): seq<BlockRow> {
    if blocks == [] then [] else
      Numbered(note, blocks[..|blocks| - 1]) + [BlockRow(note, |blocks| - 1, blocks[|blocks| - 1])]
  }

  /** The search row of a block: its segmented heading and content. */
  function Project(lower: Lower, row: BlockRow): FtsRow {
    FtsRow(row.block.id, row.note, Segment(lower, Joined(" ", row.block.heading)), Segment(lower, row.block.content))
  }

  function Projected(lower: Lower, rows: seq<BlockRow>): seq<FtsRow> {
    if rows == [] then [] else Projected(lower, rows[..|rows| - 1]) + [Project(lower, rows[|rows| - 1])]
  }

  // ----- Calls -----

  predicate PathFree(notes: map<string, Note>, note: string, path: string) {
    forall n :: n in notes && n != note ==> notes[n].path != path
  }

  predicate HasId(rows: seq<BlockRow>, id: string) {
    exists k :: 0 <= k < |rows| && rows[k].block.id == id
  }

  /** Whether every block can be inserted in turn. */
  predicate Insertable(rows: seq<BlockRow>, note: string, blocks: seq<Block>) {
    blocks != [] ==>
      var front := blocks[..|blocks| - 1];
      Insertable(rows, note, front) && !HasId(rows + Numbered(note, front), blocks[|blocks| - 1].id)
  }

  /** The creation time of a stored note stays. */
  function Upserted(notes: map<string, Note>, note: string, meta: Note): map<string, Note> {
    notes[note := meta.(created := if note in notes then notes[note].created else meta.created)]
  }

  datatype Op =
    | Replace(note: string, meta: Note, blocks: seq<Block>)
    | Delete(note: string)
    | Relocate(note: string, title: string, path: string, folder: string, updated: int)
    | Clear

  function Refusal(s: Store, op: Op): Option<Error> {
    match op
    case Replace(note, meta, blocks) =>
      if !PathFree(s.notes, note, meta.path) then Some(PathTaken)
      else if !Insertable(BlocksWithout(s.blocks, note), note, blocks) then Some(BlockTaken)
      else None
    case Relocate(note, _, path, _, _) =>
      if note !in s.notes then Some(NotFound)
      else if !PathFree(s.notes, note, path) then Some(PathTaken)
      else None
    case Delete(_) => None
    case Clear => None
  }

  function Perform(lower: Lower, s: Store, op: Op): Store {
    if Refusal(s, op).Some? then s else
      match op
      case Replace(note, meta, blocks) =>
        var rows := Numbered(note, blocks);
        Store(Upserted(s.notes, note, meta), BlocksWithout(s.blocks, note) + rows, FtsWithout(s.fts, note) + Projected(lower, rows))
      case Delete(note) => Store(s.notes - {note}, BlocksWithout(s.blocks, note), FtsWithout(s.fts, note))
      case Relocate(note, title, path, folder, updated) =>
        s.(notes := s.notes[note := s.notes[note].(title := title, path := path, folder := folder, updated := updated)])
      case Clear => EMPTY
  }

  /** `ORDER BY position`. */
  function Inserted(row: BlockRow, rows: seq<BlockRow>): seq<BlockRow> {
    if rows == [] || rows[|rows| - 1].position <= row.position then rows + [row]
    else Inserted(row, rows[..|rows| - 1]) + [rows[|rows| - 1]]
  }

  function Ordered(rows: seq<BlockRow>): seq<BlockRow> {
    if rows == [] then [] else Inserted(rows[|rows| - 1], Ordered(rows[..|rows| - 1]))
  }

  class Tables {
    var notes: map<string, Note>
    var blocks: seq<BlockRow>
    var fts: seq<FtsRow>

    ghost function Value(): Store
      reads this
    {
      Store(notes, blocks, fts)
    }

    constructor ()
      ensures Value() == EMPTY
    {
      notes, blocks, fts := map[], [], [];
    }

    method InsertBlock(lower: Lower, note: string, position: nat, block: Block) returns (ok: bool)
      modifies this`blocks, this`fts
      ensures ok <==> !HasId(old(blocks), block.id)
      ensures ok ==> blocks == old(blocks) + [BlockRow(note, position, block)]
      ensures ok ==> fts == old(fts) + [Project(lower, BlockRow(note, position, block))]
    {
      if HasId(blocks, block.id) {
        return false;
      }
      var row := BlockRow(note, position, block);
      blocks := blocks + [row];
      fts := fts + [Project(lower, row)];
      return true;
    }

    method InsertBlocks(lower: Lower, note: string, given: seq<Block>) returns (ok: bool)
      modifies this`blocks, this`fts
      ensures ok <==> Insertable(old(blocks), note, given)
      ensures ok ==> blocks == old(blocks) + Numbered(note, given)
      ensures ok ==> fts == old(fts) + Projected(lower, Numbered(note, given))
    {
      hide Numbered, Projected, Insertable, Project, HasId;
      InsertNone(lower, blocks, note);
      for k := 0 to |given|
        invariant Insertable(old(blocks), note, given[..k])
        invariant blocks == old(blocks) + Numbered(note, given[..k])
        invariant fts == old(fts) + Projected(lower, Numbered(note, given[..k]))
      {
        NumberedStep(lower, note, given, k);
        InsertableStep(old(blocks), note, given, k);
        var inserted := InsertBlock(lower, note, k, given[k]);
        if !inserted {
          NotInsertable(old(blocks), note, given, k + 1);
          return false;
        }
      }
      assert given[..|given|] == given;
      return true;
    }

    /** Replaces a note's metadata, blocks and search rows; returns the block ids it had. */
    method ReplaceNote(lower: Lower, note: string, meta: Note, given: seq<Block>) returns (r: Result<seq<string>, Error>)
      modifies this
      ensures Value() == Perform(lower, old(Value()), Replace(note, meta, given))
      ensures Refusal(old(Value()), Replace(note, meta, given)) == if r.Ok? then None else Some(r.error)
      ensures r.Ok? ==> r.value == IdsOf(BlocksOf(old(blocks), note))
    {
      hide Numbered, Projected, Insertable, IdsOf, BlocksOf, BlocksWithout, FtsWithout, PathFree, Upserted;
      var notes0, blocks0, fts0 := notes, blocks, fts;
      var ids := IdsOf(BlocksOf(blocks, note));
      if !PathFree(notes, note, meta.path) {
        return Err(PathTaken);
      }
      notes := Upserted(notes, note, meta);
      blocks := BlocksWithout(blocks, note);
      fts := FtsWithout(fts, note);
      var ok := InsertBlocks(lower, note, given);
      if !ok {
        notes, blocks, fts := notes0, blocks0, fts0;
        return Err(BlockTaken);
      }
      return Ok(ids);
    }

    /** Removes a note with its blocks and search rows; returns the block ids it had. */
    method DeleteNote(lower: Lower, note: string) returns (ids: seq<string>)
      modifies this
      ensures Value() == Perform(lower, old(Value()), Delete(note))
      ensures ids == IdsOf(BlocksOf(old(blocks), note))
    {
      ids := IdsOf(BlocksOf(blocks, note));
      fts := FtsWithout(fts, note);
      notes := notes - {note};
      blocks := BlocksWithout(blocks, note);
    }

    method UpdateLocation(lower: Lower, note: string, title: string, path: string, folder: string, updated: int) returns (r: Option<Error>)
      modifies this`notes
      ensures Value() == Perform(lower, old(Value()), Relocate(note, title, path, folder, updated))
      ensures r == Refusal(old(Value()), Relocate(note, title, path, folder, updated))
    {
      if note !in notes {
        return Some(NotFound);
      }
      if !PathFree(notes, note, path) {
        return Some(PathTaken);
      }
      notes := notes[note := notes[note].(title := title, path := path, folder := folder, updated := updated)];
      return None;
    }

    method ClearAll(lower: Lower)
      modifies this
      ensures Value() == Perform(lower, old(Value()), Clear)
    {
      fts := [];
      blocks := [];
      notes := map[];
    }

    /** The stored note with its blocks in order of position. */
    method GetNote(note: string) returns (r: Option<Record>)
      ensures r == Lookup(Value(), note)
    {
      if note !in notes {
        return None;
      }
      return Some(Record(notes[note], BlocksIn(Ordered(BlocksOf(blocks, note)))));
    }
  }

  function Lookup(s: Store, note: string): Option<Record> {
    if note !in s.notes then None else Some(Record(s.notes[note], BlocksIn(Ordered(BlocksOf(s.blocks, note)))))
  }

  lemma NumberedStep(lower: Lower, note: string, blocks: seq<Block>, k: nat)
    requires k < |blocks|
    ensures Numbered(note, blocks[..k + 1]) == Numbered(note, blocks[..k]) + [BlockRow(note, k, blocks[k])]
    ensures Projected(lower, Numbered(note, blocks[..k + 1])) ==
      Projected(lower, Numbered(note, blocks[..k])) + [Project(lower, BlockRow(note, k, blocks[k]))]
  {
    assert blocks[..k + 1][..k] == blocks[..k];
    var rows := Numbered(note, blocks[..k]);
    assert (rows + [BlockRow(note, k, blocks[k])])[..|rows|] == rows;
  }

  lemma InsertNone(lower: Lower, rows: seq<BlockRow>, note: string)
    ensures Insertable(rows, note, []) && Numbered(note, []) == [] && Projected(lower, []) == []
  {
  }

  lemma InsertableStep(rows: seq<BlockRow>, note: string, blocks: seq<Block>, k: nat)
    requires k < |blocks|
    ensures Insertable(rows, note, blocks[..k + 1]) <==>
      Insertable(rows, note, blocks[..k]) && !HasId(rows + Numbered(note, blocks[..k]), blocks[k].id)
  {
    assert blocks[..k + 1][..k] == blocks[..k];
  }

  lemma {:induction false} NotInsertable(rows: seq<BlockRow>, note: string, blocks: seq<Block>, k: nat)
    requires 0 < k <= |blocks| && HasId(rows + Numbered(note, blocks[..k - 1]), blocks[k - 1].id)
    ensures !Insertable(rows, note, blocks)
    decreases |blocks|
  {
    var front := blocks[..|blocks| - 1];
    if k < |blocks| {
      assert front[..k - 1] == blocks[..k - 1];
      NotInsertable(rows, note, front, k);
    } else {
      assert blocks[..k - 1] == front;
    }
  }
}
