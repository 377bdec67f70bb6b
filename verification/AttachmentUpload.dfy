/**
 Resumable attachment upload for one upload identity.  A process death may follow
 any file operation; `Crashed` stands for it.  A digest is represented by the bytes
 it is taken of.
 */
module AttachmentUpload {
  import opened Wrappers
  import opened Collections

  type Bytes = seq<bv8>

  const MAX_UPLOAD_BYTES: nat := 200 * 1024 * 1024
  const MAX_CHUNK_BYTES: nat := 4 * 1024 * 1024
  const MEDIA_SUFFIXES: set<string> := {
    ".wav", ".mp3", ".flac", ".ogg", ".m4a", ".mp4", ".webm", ".txt", ".md",
    ".docx", ".pptx", ".ppt", ".png", ".jpg", ".jpeg", ".webp"
  }

  /** A file name and its lower-case suffix, which is part of the destination's name. */
  datatype FileName = FileName(text: string, suffix: string)

  datatype Metadata = Torn | Recorded(name: FileName, total: nat)

  datatype Row = Row(suffix: string, name: FileName, content: Bytes)

  /** The call that holds the upload lock while the digest of the partial file is taken. */
  datatype Flight = Flight(name: FileName, total: nat, content: Bytes, chunk: Chunk)

  datatype Stored = Destination(suffix: string) | PartialFile | MetadataFile

  datatype Chunk = Chunk(offset: nat, data: Bytes)

  /** A chunk the client was told is stored, for the file with this suffix. */
  datatype Ack = Ack(suffix: string, chunk: Chunk)

  datatype Code =
    | UnsupportedMedia | ChunkTooLarge | InvalidChunk | IdempotencyConflict | IdempotencyExpired
    | UploadStateInvalid | UploadOffsetConflict | AttachmentTooLarge | EmptyAttachment

  datatype Reply =
    | Refused(code: Code)
    | Acknowledged(size: nat, complete: bool)
    | Digesting
    | Ignored
    | Crashed

  ghost predicate Agrees(content: Bytes, c: Chunk) {
    c.offset + |c.data| <= |content| && content[c.offset..c.offset + |c.data|] == c.data
  }

  /** The byte a chunk claims for position `i` of the file, if it covers it. */
  ghost function ByteAt(c: Chunk, i: nat): Option<bv8> {
    if c.offset <= i < c.offset + |c.data| then Some(c.data[i - c.offset]) else None
  }

  ghost predicate Agree(a: Chunk, b: Chunk) {
    forall i: nat :: ByteAt(a, i).Some? && ByteAt(b, i).Some? ==> ByteAt(a, i) == ByteAt(b, i)
  }

  ghost predicate Stores(content: Bytes, chunks: set<Chunk>) {
    forall c :: c in chunks ==> Agrees(content, c)
  }

  /** Some byte of the chunks is another one in the file. */
  ghost predicate Differ(chunks: set<Chunk>, content: Bytes) {
    exists c, i: nat :: c in chunks && ByteAt(c, i).Some? && i < |content| && ByteAt(c, i) != Some(content[i])
  }

  lemma NoChunks(content: Bytes)
    ensures Stores(content, {}) && !Differ({}, content)
  {
  }

  lemma LongerAgrees(content: Bytes, more: Bytes, c: Chunk)
    requires Agrees(content, c)
    ensures Agrees(content + more, c)
  {
    assert (content + more)[c.offset..c.offset + |c.data|] == content[c.offset..c.offset + |c.data|];
  }

  /** The call sends a slice of `file` with the right name and total. */
  ghost predicate Honest(file: Bytes, name: FileName, c: Chunk, sentAs: FileName, total: nat) {
    sentAs == name && total == |file| && Agrees(file, c)
  }

  function BytesOf(partial: Option<Bytes>): Bytes {
    if partial.Some? then partial.value else []
  }

  /** The answer to a chunk call that is not cut off, from the files as they are. */
  function ChunkReply(destinations: map<string, Bytes>, partial: Option<Bytes>, metadata: Option<Metadata>,
                      name: FileName, offset: nat, total: nat, data: Bytes): (r: Reply)
    ensures r.Refused? || r.Acknowledged? || r.Digesting?
    ensures r.Acknowledged? ==> r.size <= total && (r.complete <==> r.size == total)
  {
    var stored, end := BytesOf(partial), offset + |data|;
    if name.suffix !in MEDIA_SUFFIXES then Refused(UnsupportedMedia)
    else if |data| > 4_194_304 then Refused(ChunkTooLarge)
    else if data == [] || end > total then Refused(InvalidChunk)
    else if name.suffix in destinations then
      var file := destinations[name.suffix];
      if |file| == total && file[offset..end] == data then Acknowledged(total, true) else Refused(IdempotencyConflict)
    else if metadata == Some(Torn) then Refused(UploadStateInvalid)
    else if metadata.Some? && metadata != Some(Recorded(name, total)) then Refused(IdempotencyConflict)
    else if metadata.None? && !(offset == 0 && partial.None?) then Refused(UploadOffsetConflict)
    else if offset < |stored| then
      if end > |stored| then Refused(UploadOffsetConflict)
      else if stored[offset..end] != data then Refused(IdempotencyConflict)
      else if |stored| < total then Acknowledged(|stored|, false) else Digesting
    else if offset > |stored| then Refused(UploadOffsetConflict)
    else if end < total then Acknowledged(end, false) else Digesting
  }

  /** The answers to a well-formed chunk while there is no destination. */
  lemma NewChunkReplies(destinations: map<string, Bytes>, partial: Option<Bytes>, metadata: Option<Metadata>,
                        name: FileName, offset: nat, total: nat, data: Bytes)
    requires name.suffix in MEDIA_SUFFIXES && 0 < |data| <= MAX_CHUNK_BYTES && offset + |data| <= total && name.suffix !in destinations
    ensures var stored, end, reply := BytesOf(partial), offset + |data|, ChunkReply(destinations, partial, metadata, name, offset, total, data);
            && (metadata == Some(Torn) ==> reply == Refused(UploadStateInvalid))
            && (metadata.Some? && metadata != Some(Torn) && metadata != Some(Recorded(name, total)) ==> reply == Refused(IdempotencyConflict))
            && (metadata.None? && !(offset == 0 && partial.None?) ==> reply == Refused(UploadOffsetConflict))
            && (metadata == Some(Recorded(name, total)) || (metadata.None? && offset == 0 && partial.None?) ==>
                  && (offset > |stored| || (offset < |stored| && end > |stored|) ==> reply == Refused(UploadOffsetConflict))
                  && (offset < |stored| && end <= |stored| && stored[offset..end] != data ==> reply == Refused(IdempotencyConflict))
                  && (offset < |stored| && end <= |stored| && stored[offset..end] == data ==>
                        reply == if |stored| < total then Acknowledged(|stored|, false) else Digesting)
                  && (offset == |stored| ==> reply == if end < total then Acknowledged(end, false) else Digesting))
  {
  }

  class Upload {
    const reliable: bool
    var destinations: map<string, Bytes>
    var partial: Option<Bytes>
    var metadata: Option<Metadata>
    var row: Option<Row>
    var flight: Option<Flight>
    ghost var accepted: set<Chunk>
    ghost var holder: string
    ghost var delivered: map<string, set<Chunk>>

    /** Whatever clients send: the partial file stays within the recorded total, and
        every accepted chunk is what is stored at its offset: in the partial file, for the file
        with the suffix `holder`, or in the destination it was delivered to. */
    ghost predicate Valid()
      reads this
    {
      && (partial.Some? && metadata.Some? ==> metadata.value.Recorded? && |partial.value| <= metadata.value.total)
      && (accepted != {} ==> partial.Some? && Stores(partial.value, accepted))
      && (accepted != {} && metadata.Some? && metadata.value.Recorded? ==> metadata.value.name.suffix == holder)
      && (accepted != {} && flight.Some? ==> flight.value.name.suffix == holder)
      && (flight.Some? && partial.Some? ==> flight.value.chunk in accepted)
      && (accepted != {} ==> holder in MEDIA_SUFFIXES)
      && (forall x :: x in destinations ==> 0 < |destinations[x]| <= MAX_UPLOAD_BYTES)
      && (forall x :: x in delivered ==> x in destinations && Stores(destinations[x], delivered[x]))
      && (flight.Some? ==>
            && (partial.Some? ==> partial.value == flight.value.content) && 0 < |flight.value.content| == flight.value.total <= MAX_UPLOAD_BYTES
            && (row.None? ==> flight.value.name.suffix !in delivered))
    }

    /** While every call is honest about `file`. */
    ghost predicate AllHonest(file: Bytes, name: FileName)
      reads this
    {
      && (partial.Some? ==> partial.value <= file)
      && (metadata.Some? && metadata.value.Recorded? ==> metadata.value == Recorded(name, |file|))
      && (forall x :: x in destinations ==> x == name.suffix && destinations[x] == file)
      && (row.Some? ==> row.value == Row(name.suffix, name, file))
    }

    /** Once the idempotency row is there it stays, and no destination appears or changes. */
    twostate predicate Sealed()
      reads this
    {
      old(row).Some? ==>
        && row == old(row)
        && forall x :: x in destinations ==> x in old(destinations) && destinations[x] == old(destinations[x])
    }

    ghost predicate InPartial(a: Ack)
      reads `accepted, `holder
    {
      a.chunk in accepted && holder == a.suffix
    }

    ghost predicate InDestination(a: Ack)
      reads `delivered
    {
      a.suffix in delivered && a.chunk in delivered[a.suffix]
    }

    /** Some file of the upload holds the chunk. */
    ghost predicate Holds(a: Ack)
      reads `accepted, `holder, `delivered
    {
      InPartial(a) || InDestination(a)
    }

    /** A destination appeared beside the partial file that is to become it. */
    ghost predicate Forked()
      reads `accepted, `holder, `destinations
    {
      accepted != {} && holder in destinations
    }

    /** Such a destination says the same as the accepted chunks wherever both reach. */
    ghost predicate Consistent()
      reads `accepted, `holder, `destinations
    {
      Forked() ==> !Contradicts(destinations[holder])
    }

    ghost predicate Contradicts(body: Bytes)
      reads `accepted
    {
      Differ(accepted, body)
    }

    /** A whole file that becomes the destination although the partial file says otherwise. */
    ghost predicate Conflicts(name: FileName, body: Bytes)
      reads this
    {
      && name.suffix in MEDIA_SUFFIXES && 0 < |body| <= MAX_UPLOAD_BYTES && row.None? && name.suffix !in destinations
      && holder == name.suffix && Contradicts(body)
    }

    /** Acknowledged chunks are only forgotten with the file that held them. */
    twostate predicate Remembers()
      reads this
    {
      forall a :: old(Holds(a)) ==> Holds(a)
    }

    /** `reliable` keeps the process from dying. */
    constructor (reliable: bool)
      ensures Valid() && forall file, name :: AllHonest(file, name)
      ensures this.reliable == reliable && destinations == map[] && partial.None? && metadata.None? && row.None? && flight.None? && accepted == {} && delivered == map[]
    {
      this.reliable := reliable;
      destinations, partial, metadata, row, flight := map[], None, None, None, None;
      accepted, delivered, holder := {}, map[], "";
    }

    /** A chunk call up to its digest; it holds the lock from here on if that is reached. */
    method ReceiveChunk(name: FileName, offset: nat, total: nat, data: Bytes, ghost file: Bytes, ghost honestName: FileName) returns (r: Reply)
      requires Valid() && flight.None? && 1 <= total <= MAX_UPLOAD_BYTES
      modifies this
      ensures Valid() && Sealed() && Remembers() && row == old(row) && destinations == old(destinations)
      ensures old(AllHonest(file, honestName)) && Honest(file, honestName, Chunk(offset, data), name, total) ==> AllHonest(file, honestName)
      ensures !r.Ignored? && (r.Digesting? <==> flight.Some?)
      ensures r.Digesting? ==> flight.value.name == name && flight.value.total == total && flight.value.chunk == Chunk(offset, data)
      ensures r.Acknowledged? ==> Holds(Ack(name.suffix, Chunk(offset, data)))
      ensures old(Consistent()) ==> Consistent()
      ensures r == ChunkReply(old(destinations), old(partial), old(metadata), name, offset, total, data)
              || (r.Crashed? && !reliable && name.suffix !in destinations)
      ensures r.Refused? ==> partial == old(partial) && metadata == old(metadata)
      ensures (r.Acknowledged? && !r.complete) || r.Digesting? ==>
                && metadata == Some(Recorded(name, total))
                && partial == Some(if offset < |BytesOf(old(partial))| then old(partial).value else BytesOf(old(partial)) + data)
      ensures r.Digesting? ==> flight == Some(Flight(name, total, partial.value, Chunk(offset, data)))
      ensures r.Acknowledged? && r.complete ==>
                && name.suffix in destinations && r.size == total == |destinations[name.suffix]|
                && name.suffix in delivered && Chunk(offset, data) in delivered[name.suffix]
      ensures r.Acknowledged? && !r.complete ==>
                partial.Some? && r.size == |partial.value| < total && Chunk(offset, data) in accepted
    {
      if name.suffix !in MEDIA_SUFFIXES {
        return Refused(UnsupportedMedia);
      }
      if |data| > MAX_CHUNK_BYTES {
        return Refused(ChunkTooLarge);
      }
      if data == [] || offset + |data| > total {
        return Refused(InvalidChunk);
      }
      if name.suffix in destinations {
        r := CompareStored(name, offset, total, data);
        return;
      }
      r := StoreChunk(name, offset, total, data, file, honestName);
    }

    /** There is no destination yet: the chunk goes to the partial file. */
    method StoreChunk(name: FileName, offset: nat, total: nat, data: Bytes, ghost file: Bytes, ghost honestName: FileName) returns (r: Reply)
      requires Valid() && flight.None? && name.suffix !in destinations && data != [] && offset + |data| <= total <= MAX_UPLOAD_BYTES
      requires name.suffix in MEDIA_SUFFIXES && |data| <= MAX_CHUNK_BYTES
      modifies this`partial, this`metadata, this`flight, this`accepted, this`holder
      ensures Valid() && Remembers() && (accepted != {} ==> (accepted == old(accepted) && holder == old(holder)) || holder == name.suffix)
      ensures old(AllHonest(file, honestName)) && Honest(file, honestName, Chunk(offset, data), name, total) ==> AllHonest(file, honestName)
      ensures r.Digesting? <==> flight.Some?
      ensures r.Digesting? ==> flight.value.name == name && flight.value.total == total && flight.value.chunk == Chunk(offset, data)
      ensures r.Acknowledged? ==> !r.complete && partial.Some? && r.size == |partial.value| < total && InPartial(Ack(name.suffix, Chunk(offset, data)))
      ensures r == ChunkReply(destinations, old(partial), old(metadata), name, offset, total, data) || (r.Crashed? && !reliable)
      ensures r.Refused? ==> partial == old(partial) && metadata == old(metadata)
      ensures r.Acknowledged? || r.Digesting? ==>
                && metadata == Some(Recorded(name, total))
                && partial == Some(if offset < |BytesOf(old(partial))| then old(partial).value else BytesOf(old(partial)) + data)
      ensures r.Digesting? ==> flight == Some(Flight(name, total, partial.value, Chunk(offset, data)))
    {
      hide Stores, Differ, ChunkReply;
      NewChunkReplies(destinations, partial, metadata, name, offset, total, data);
      var refused := RecordUpload(name, offset, total);
      if refused.Some? {
        return refused.value;
      }
      assert old(metadata).None? ==> offset == 0 && partial.None?;
      assert old(metadata).Some? ==> old(metadata) == Some(Recorded(name, total));
      r := PutChunk(name, offset, total, data, file, honestName);
    }

    /** The upload is recorded: the chunk is compared or appended, and the last one waits for the digest. */
    method PutChunk(name: FileName, offset: nat, total: nat, data: Bytes, ghost file: Bytes, ghost honestName: FileName) returns (r: Reply)
      requires Valid() && flight.None? && data != [] && offset + |data| <= total <= MAX_UPLOAD_BYTES
      requires name.suffix in MEDIA_SUFFIXES && name.suffix !in destinations && metadata == Some(Recorded(name, total))
      modifies this`partial, this`flight, this`accepted, this`holder
      ensures Valid() && Remembers() && (accepted != {} ==> holder == name.suffix)
      ensures old(AllHonest(file, honestName)) && Honest(file, honestName, Chunk(offset, data), name, total) ==> AllHonest(file, honestName)
      ensures r.Digesting? <==> flight.Some?
      ensures r.Acknowledged? ==> !r.complete && partial.Some? && r.size == |partial.value| < total && InPartial(Ack(name.suffix, Chunk(offset, data)))
      ensures var stored, end := BytesOf(old(partial)), offset + |data|;
              && (r == Refused(UploadOffsetConflict) <==> offset > |stored| || (offset < |stored| && end > |stored|))
              && (r == Refused(IdempotencyConflict) <==> offset < |stored| && end <= |stored| && stored[offset..end] != data)
              && (r.Refused? ==> partial == old(partial) && r.code in {UploadOffsetConflict, IdempotencyConflict})
              && (r.Crashed? ==> !reliable) && !r.Ignored?
              && (r.Acknowledged? || r.Digesting? ==> partial == Some(if offset < |stored| then stored else stored + data))
      ensures r.Digesting? ==> flight == Some(Flight(name, total, partial.value, Chunk(offset, data))) && |partial.value| == total
    {
      hide Stores, Differ;
      var appended := Append(offset, data);
      if appended.Some? {
        return appended.value;
      }
      if |partial.value| < total {
        return Acknowledged(|partial.value|, false);
      }
      flight := Some(Flight(name, total, partial.value, Chunk(offset, data)));
      return Digesting;
    }

    /** Checks what was recorded of the upload, or records it with its first chunk. */
    method RecordUpload(name: FileName, offset: nat, total: nat) returns (r: Option<Reply>)
      requires Valid() && flight.None?
      modifies this`metadata
      ensures Valid() && Remembers()
      ensures r.None? ==> metadata == Some(Recorded(name, total))
      ensures r.Some? ==> (r.value.Crashed? && !reliable) || r.value.Refused?
      ensures metadata == old(metadata) || metadata == Some(Torn) || metadata == Some(Recorded(name, total))
      ensures r == Some(Refused(UploadStateInvalid)) <==> old(metadata) == Some(Torn)
      ensures r == Some(Refused(IdempotencyConflict)) <==> old(metadata).Some? && old(metadata) != Some(Torn) && old(metadata) != Some(Recorded(name, total))
      ensures r == Some(Refused(UploadOffsetConflict)) <==> old(metadata).None? && !(offset == 0 && partial.None?)
      ensures r.Some? && r.value.Refused? ==>
                metadata == old(metadata) && r.value.code in {UploadStateInvalid, IdempotencyConflict, UploadOffsetConflict}
    {
      hide Agrees, Stores, Differ;
      if metadata.Some? {
        if metadata.value.Torn? {
          return Some(Refused(UploadStateInvalid));
        }
        if metadata.value != Recorded(name, total) {
          return Some(Refused(IdempotencyConflict));
        }
      } else if offset == 0 && partial.None? {
        var died: bool, torn: bool := *, *;
        if died && !reliable {
          metadata := if torn then Some(Torn) else None;
          return Some(Crashed);
        }
        metadata := Some(Recorded(name, total));
      } else {
        return Some(Refused(UploadOffsetConflict));
      }
      return None;
    }

    /** The destination exists: the chunk must be what it holds. */
    method CompareStored(name: FileName, offset: nat, total: nat, data: Bytes) returns (r: Reply)
      requires Valid() && flight.None? && name.suffix in destinations && offset + |data| <= total
      modifies this`delivered
      ensures Valid() && Remembers()
      ensures r.Acknowledged? <==> total == |destinations[name.suffix]| && destinations[name.suffix][offset..offset + |data|] == data
      ensures r == Refused(IdempotencyConflict) || (r == Acknowledged(total, true) && total == |destinations[name.suffix]|
                && name.suffix in delivered && Chunk(offset, data) in delivered[name.suffix])
    {
      var stored := destinations[name.suffix];
      if |stored| != total || stored[offset..offset + |data|] != data {
        return Refused(IdempotencyConflict);
      }
      ghost var before := if name.suffix in delivered then delivered[name.suffix] else {};
      delivered := delivered[name.suffix := before + {Chunk(offset, data)}];
      assert Agrees(stored, Chunk(offset, data));
      return Acknowledged(total, true);
    }

    /** Checks a repeated chunk or appends a new one; an interrupted append may leave any prefix of it. */
    method Append(offset: nat, data: Bytes) returns (r: Option<Reply>)
      requires Valid() && flight.None? && data != []
      requires metadata.Some? && metadata.value.Recorded? && offset + |data| <= metadata.value.total && metadata.value.name.suffix in MEDIA_SUFFIXES
      modifies this`partial, this`accepted, this`holder
      ensures Valid() && Remembers() && (accepted != {} ==> holder == metadata.value.name.suffix)
      ensures r.Some? ==> r.value.Crashed? || r.value.Refused?
      ensures r.None? ==> partial.Some? && Chunk(offset, data) in accepted
      ensures var stored, end := BytesOf(old(partial)), offset + |data|;
              && (r == Some(Refused(UploadOffsetConflict)) <==> offset > |stored| || (offset < |stored| && end > |stored|))
              && (r == Some(Refused(IdempotencyConflict)) <==> offset < |stored| && end <= |stored| && stored[offset..end] != data)
              && (r.Some? && r.value.Refused? ==> partial == old(partial) && (r.value == Refused(UploadOffsetConflict) || r.value == Refused(IdempotencyConflict)))
              && (r.Some? && r.value.Crashed? ==> !reliable)
              && (r.None? ==> partial == Some(if offset < |stored| then stored else stored + data))
      ensures partial != old(partial) ==>
                var stored := if old(partial).Some? then old(partial).value else [];
                offset == |stored| && partial.Some? && stored <= partial.value <= stored + data
    {
      var stored := if partial.Some? then partial.value else [];
      var current := |stored|;
      if offset > current || (offset < current && offset + |data| > current) {
        return Some(Refused(UploadOffsetConflict));
      }
      if offset < current {
        if stored[offset..offset + |data|] != data {
          return Some(Refused(IdempotencyConflict));
        }
        accepted, holder := accepted + {Chunk(offset, data)}, metadata.value.name.suffix;
        assert Agrees(partial.value, Chunk(offset, data));
        return None;
      }
      var died: bool, written: nat := *, *;
      died := died && !reliable;
      if written > |data| || !died {
        written := |data|;
      }
      forall c | c in accepted ensures Agrees(stored + data[..written], c) {
        LongerAgrees(stored, data[..written], c);
      }
      partial := Some(stored + data[..written]);
      if died {
        return Some(Crashed);
      }
      assert data[..written] == data;
      accepted, holder := accepted + {Chunk(offset, data)}, metadata.value.name.suffix;
      assert Agrees(stored + data, Chunk(offset, data));
      return None;
    }

    /** The rest of a chunk call: the transaction that moves the file and inserts the row. */
    method FinishChunk(ghost file: Bytes, ghost honestName: FileName) returns (r: Reply)
      requires Valid() && flight.Some?
      modifies this
      ensures Valid() && Sealed() && Remembers() && flight.None? && (old(Consistent()) ==> Consistent()) && !r.Ignored? && !r.Digesting?
      ensures old(AllHonest(file, honestName)) && old(flight).value.name == honestName && old(flight).value.total == |file| ==>
                AllHonest(file, honestName)
      ensures r.Acknowledged? ==>
                var f := old(flight).value;
                && r.complete && r.size == f.total
                && f.name.suffix in destinations && destinations[f.name.suffix] == f.content && |f.content| == f.total
                && row == Some(Row(f.name.suffix, f.name, f.content)) && Holds(Ack(f.name.suffix, f.chunk))
      ensures var f := old(flight).value;
              && (old(row).Some? ==>
                    && r == Refused(if old(row).value == Row(f.name.suffix, f.name, f.content) then IdempotencyExpired else IdempotencyConflict)
                    && destinations == old(destinations) && partial == old(partial) && metadata == old(metadata))
              && (reliable && old(row).None? && old(partial).Some? ==>
                    && r == Acknowledged(f.total, true) && destinations == old(destinations)[f.name.suffix := f.content]
                    && row == Some(Row(f.name.suffix, f.name, f.content)) && partial.None? && metadata.None?)
    {
      hide Agrees, Stores, Differ, Holds, Consistent;
      var f := flight.value;
      flight := None;
      if row.Some? {
        if row.value != Row(f.name.suffix, f.name, f.content) {
          return Refused(IdempotencyConflict);
        }
        return Refused(IdempotencyExpired);
      }
      if partial.None? {
        return Crashed;
      }
      r := Commit(f, file, honestName);
    }

    /** The transaction itself; it may be cut off before or after it takes effect. */
    method Commit(f: Flight, ghost file: Bytes, ghost honestName: FileName) returns (r: Reply)
      requires Valid() && flight.None? && row.None? && partial == Some(f.content) && 0 < |f.content| <= MAX_UPLOAD_BYTES
      requires f.chunk in accepted && f.name.suffix !in delivered && holder == f.name.suffix
      modifies this
      ensures Valid() && Remembers() && Consistent() && flight.None?
      ensures old(AllHonest(file, honestName)) && f.name == honestName && f.total == |file| == |f.content| ==> AllHonest(file, honestName)
      ensures !r.Digesting? && !r.Ignored?
      ensures r.Acknowledged? ==>
                && r == Acknowledged(f.total, true) && f.name.suffix in destinations && destinations[f.name.suffix] == f.content
                && row == Some(Row(f.name.suffix, f.name, f.content)) && Holds(Ack(f.name.suffix, f.chunk))
      ensures reliable ==>
                && r == Acknowledged(f.total, true) && destinations == old(destinations)[f.name.suffix := f.content]
                && row == Some(Row(f.name.suffix, f.name, f.content)) && partial.None? && metadata.None?
    {
      hide Agrees, Stores, Differ, Holds, Consistent;
      MovePartial(f, file, honestName);
      var uncommitted: bool := *;
      if uncommitted && !reliable {
        return Crashed;
      }
      row := Some(Row(f.name.suffix, f.name, f.content));
      var died: bool := *;
      if died && !reliable {
        return Crashed;
      }
      metadata := None;
      return Acknowledged(f.total, true);
    }

    /** The partial file becomes the destination, and its chunks are delivered. */
    method MovePartial(f: Flight, ghost file: Bytes, ghost honestName: FileName)
      requires Valid() && flight.None? && partial == Some(f.content) && 0 < |f.content| <= MAX_UPLOAD_BYTES
      requires f.name.suffix !in delivered && (accepted != {} ==> holder == f.name.suffix)
      modifies this`destinations, this`delivered, this`accepted, this`partial
      ensures Valid() && partial.None? && accepted == {} && destinations == old(destinations)[f.name.suffix := f.content]
      ensures Remembers() && Consistent() && forall c :: c in old(accepted) ==> Holds(Ack(f.name.suffix, c))
      ensures delivered == old(delivered)[f.name.suffix := old(accepted)]
      ensures old(AllHonest(file, honestName)) && f.name == honestName && f.total == |file| == |f.content| ==> AllHonest(file, honestName)
    {
      hide Agrees, Stores, Differ;
      NoChunks(f.content);
      destinations := destinations[f.name.suffix := f.content];
      delivered := delivered[f.name.suffix := accepted];
      accepted := {};
      partial := None;
    }

    /** A process death loses the call that was waiting for its digest. */
    method Restart()
      requires Valid()
      modifies this`flight
      ensures Valid() && flight.None? && Remembers()
    {
      flight := None;
    }

    /** The single-request endpoint with the same key. */
    method UploadWhole(name: FileName, body: Bytes, ghost file: Bytes, ghost honestName: FileName) returns (r: Reply)
      requires Valid()
      modifies this
      ensures Valid() && Sealed() && Remembers() && flight == old(flight) && partial == old(partial) && metadata == old(metadata)
      ensures old(AllHonest(file, honestName)) && name == honestName && body == file ==> AllHonest(file, honestName)
      ensures r.Acknowledged? ==>
                && r.complete && r.size == |body| && row.Some? && row.value.content == body && row.value.name == name
                && row.value.suffix in destinations && destinations[row.value.suffix] == body
      ensures !r.Digesting? && !r.Ignored?
      ensures (r.Crashed? && !reliable && old(row).None?) ||
              r == (if name.suffix !in MEDIA_SUFFIXES then Refused(UnsupportedMedia)
                    else if |body| > 209_715_200 then Refused(AttachmentTooLarge)
                    else if body == [] then Refused(EmptyAttachment)
                    else if old(row).Some? then
                      (if old(row).value.name != name || old(row).value.content != body then Refused(IdempotencyConflict)
                       else if old(row).value.suffix in old(destinations) && old(destinations)[old(row).value.suffix] == body then Acknowledged(|body|, true)
                       else Refused(IdempotencyExpired))
                    else if name.suffix in old(destinations) && old(destinations)[name.suffix] != body then Refused(IdempotencyConflict)
                    else Acknowledged(|body|, true))
      ensures destinations == (if old(row).None? && (r.Acknowledged? || r.Crashed?) then old(destinations)[name.suffix := body] else old(destinations))
      ensures r.Acknowledged? && old(row).None? ==> row == Some(Row(name.suffix, name, body))
      ensures accepted == old(accepted) && holder == old(holder)
      ensures old(Consistent()) ==> (Consistent() <==> !old(Conflicts(name, body)))
    {
      hide Agrees, Stores, Differ;
      NoChunks(body);
      if name.suffix !in MEDIA_SUFFIXES {
        return Refused(UnsupportedMedia);
      }
      if |body| > MAX_UPLOAD_BYTES {
        return Refused(AttachmentTooLarge);
      }
      if body == [] {
        return Refused(EmptyAttachment);
      }
      if row.Some? {
        if row.value.name != name || row.value.content != body {
          return Refused(IdempotencyConflict);
        }
        if row.value.suffix !in destinations || destinations[row.value.suffix] != body {
          return Refused(IdempotencyExpired);
        }
        return Acknowledged(|body|, true);
      }
      if name.suffix in destinations && destinations[name.suffix] != body {
        return Refused(IdempotencyConflict);
      }
      if name.suffix !in destinations {
        destinations := destinations[name.suffix := body];
      }
      var uncommitted: bool := *;
      if uncommitted && !reliable {
        return Crashed;
      }
      row := Some(Row(name.suffix, name, body));
      return Acknowledged(|body|, true);
    }

    /** Cleanup removes one file by its name, be it a destination, the partial
        file or the metadata, and leaves the row. */
    method Cleanup(target: Stored, ghost file: Bytes, ghost honestName: FileName)
      requires Valid()
      modifies this
      ensures Valid() && Sealed() && flight == old(flight) && row == old(row) && (old(Consistent()) ==> Consistent())
      ensures old(AllHonest(file, honestName)) ==> AllHonest(file, honestName)
      ensures match target
              case Destination(suffix) => destinations == old(destinations) - {suffix} && partial == old(partial) && metadata == old(metadata)
              case PartialFile => destinations == old(destinations) && partial.None? && metadata == old(metadata)
              case MetadataFile => destinations == old(destinations) && partial == old(partial) && metadata.None?
      ensures forall a :: old(Holds(a)) ==>
                match target
                case Destination(suffix) => a.suffix != suffix || old(InPartial(a)) ==> Holds(a)
                case PartialFile => old(InDestination(a)) ==> Holds(a)
                case MetadataFile => Holds(a)
    {
      hide Agrees, Stores, Differ;
      match target
      case Destination(suffix) =>
        destinations := destinations - {suffix};
        delivered := delivered - {suffix};
      case PartialFile =>
        partial := None;
        accepted := {};
      case MetadataFile =>
        metadata := None;
    }
  }

  // ----- Runs

  datatype Call =
    | SendChunk(name: FileName, offset: nat, total: nat, data: Bytes)
    | FinishDigest
    | SendWhole(name: FileName, body: Bytes)
    | CleanUp(target: Stored)
    | ProcessRestart

  ghost predicate HonestCall(file: Bytes, name: FileName, call: Call) {
    match call
    case SendChunk(n, offset, total, data) => Honest(file, name, Chunk(offset, data), n, total)
    case SendWhole(n, body) => n == name && body == file
    case _ => true
  }

  // ----- What the client was told

  /** What the files of the upload hold. */
  datatype Files = Files(accepted: set<Chunk>, holder: string, delivered: map<string, set<Chunk>>)

  /** A call with its reply, what the files held before it, and whether it was a whole file
      that contradicts them. */
  datatype Turn = Turn(call: Call, reply: Reply, before: Files, conflict: bool)

  ghost function Now(u: Upload, call: Call, reply: Reply): Turn
    reads u
  {
    Turn(call, reply, Files(u.accepted, u.holder, u.delivered), call.SendWhole? && u.Conflicts(call.name, call.body))
  }

  /** Whether a file other than the one that is removed holds the chunk. */
  ghost predicate Survives(f: Files, target: Stored, a: Ack) {
    match target
    case Destination(x) => a.suffix != x || (a.chunk in f.accepted && f.holder == a.suffix)
    case PartialFile => a.suffix in f.delivered && a.chunk in f.delivered[a.suffix]
    case MetadataFile => true
  }

  /** The acknowledged chunks, and the one whose call waits for the digest. */
  datatype Ledger = Ledger(acks: set<Ack>, pending: Option<Ack>)

  /** An acknowledgement counts until the last file that holds the chunk is cleaned up. */
  ghost function Noted(l: Ledger, t: Turn): Ledger {
    match t.call
    case SendChunk(n, offset, _, data) =>
      var ack := Ack(n.suffix, Chunk(offset, data));
      if t.reply.Acknowledged? then l.(acks := l.acks + {ack})
      else if t.reply.Digesting? then l.(pending := Some(ack))
      else l
    case FinishDigest =>
      Ledger(if t.reply.Acknowledged? && l.pending.Some? then l.acks + {l.pending.value} else l.acks,
             if t.reply.Ignored? then l.pending else None)
    case SendWhole(_, _) => l
    case CleanUp(target) => l.(acks := set a | a in l.acks && Survives(t.before, target, a))
    case ProcessRestart => l.(pending := None)
  }

  ghost function Book(turns: seq<Turn>): Ledger {
    if turns == [] then Ledger({}, None) else Noted(Book(turns[..|turns| - 1]), turns[|turns| - 1])
  }

  lemma BookGrows(turns: seq<Turn>, t: Turn)
    ensures Book(turns + [t]) == Noted(Book(turns), t)
    ensures forall x :: x in turns + [t] <==> x in turns || x == t
  {
    assert (turns + [t])[..|turns|] == turns;
  }

  lemma BookOfNothing()
    ensures Book([]) == Ledger({}, None)
  {
  }

  /** Everything acknowledged is held, and the chunk in flight is the one that waits. */
  ghost predicate Keeps(u: Upload, l: Ledger)
    reads u
  {
    && (forall a :: a in l.acks ==> u.Holds(a))
    && (u.flight.Some? ==> l.pending == Some(Ack(u.flight.value.name.suffix, u.flight.value.chunk)))
  }

  /** One call in any order: a chunk call waits while another holds the lock. */
  method Perform(u: Upload, call: Call, ghost file: Bytes, ghost name: FileName, ghost book: Ledger) returns (r: Reply)
    requires u.Valid() && Keeps(u, book)
    modifies u
    ensures u.Valid() && Keeps(u, Noted(book, old(Now(u, call, r))))
    ensures old(u.Consistent()) ==> (u.Consistent() <==> !old(Now(u, call, r)).conflict)
    ensures r.Ignored? ==>
              match call
              case SendChunk(_, _, total, _) => old(u.flight).Some? || !(1 <= total <= 209_715_200)
              case FinishDigest => old(u.flight).None?
              case SendWhole(_, _) => false
              case _ => true
    ensures old(u.row).Some? ==>
              && u.row == old(u.row)
              && forall x :: x in u.destinations ==> x in old(u.destinations) && u.destinations[x] == old(u.destinations[x])
    ensures old(u.AllHonest(file, name)) && (old(u.flight).Some? ==> old(u.flight).value.name == name && old(u.flight).value.total == |file|)
            && HonestCall(file, name, call) ==>
              && u.AllHonest(file, name)
              && (u.flight.Some? ==> u.flight.value.name == name && u.flight.value.total == |file|)
  {
    r := Ignored;
    match call
    case SendChunk(n, offset, total, data) =>
      if u.flight.None? && 1 <= total <= MAX_UPLOAD_BYTES {
        r := u.ReceiveChunk(n, offset, total, data, file, name);
      }
    case FinishDigest =>
      if u.flight.Some? {
        r := u.FinishChunk(file, name);
      }
    case SendWhole(n, body) => r := u.UploadWhole(n, body, file, name);
    case CleanUp(target) => u.Cleanup(target, file, name);
    case ProcessRestart => u.Restart();
  }

  lemma StoredByte(content: Bytes, c: Chunk, i: nat)
    requires Agrees(content, c) && ByteAt(c, i).Some?
    ensures i < |content| && content[i] == ByteAt(c, i).value
  {
    assert content[c.offset..c.offset + |c.data|][i - c.offset] == content[i];
  }

  /** In a consistent state any two chunks held for one file agree. */
  lemma HeldAgree(u: Upload, a: Ack, b: Ack)
    requires u.Valid() && u.Consistent() && u.Holds(a) && u.Holds(b) && a.suffix == b.suffix
    ensures Agree(a.chunk, b.chunk)
  {
    hide Agrees;
    assert u.InPartial(a) ==> Agrees(u.partial.value, a.chunk);
    assert u.InPartial(b) ==> Agrees(u.partial.value, b.chunk);
    forall i: nat | ByteAt(a.chunk, i).Some? && ByteAt(b.chunk, i).Some? ensures ByteAt(a.chunk, i) == ByteAt(b.chunk, i) {
      if u.InPartial(a) {
        StoredByte(u.partial.value, a.chunk, i);
      } else {
        StoredByte(u.destinations[a.suffix], a.chunk, i);
      }
      if u.InPartial(b) {
        StoredByte(u.partial.value, b.chunk, i);
      } else {
        StoredByte(u.destinations[b.suffix], b.chunk, i);
      }
    }
  }

  /** In any other state one more chunk call is acknowledged and disagrees: for every byte of an
      accepted chunk that differs from the destination's, sending the latter. */
  method ForkDisagrees(u: Upload, name: FileName, i: nat, ghost c: Chunk) returns (r: Reply)
    requires u.Valid() && u.flight.None? && u.Forked() && name.suffix == u.holder
    requires c in u.accepted && ByteAt(c, i).Some? && i < |u.destinations[u.holder]| && ByteAt(c, i) != Some(u.destinations[u.holder][i])
    modifies u
    ensures u.Valid() && r.Acknowledged? && u.destinations == old(u.destinations)
    ensures var sent := Chunk(i, [u.destinations[name.suffix][i]]);
            u.Holds(Ack(name.suffix, c)) && u.Holds(Ack(name.suffix, sent)) && !Agree(c, sent)
  {
    var stored := u.destinations[name.suffix];
    assert stored[i..i + 1] == [stored[i]];
    assert u.Holds(Ack(name.suffix, c));
    assert ChunkReply(u.destinations, u.partial, u.metadata, name, i, |stored|, [stored[i]]) == Acknowledged(|stored|, true);
    r := u.ReceiveChunk(name, i, |stored|, [stored[i]], [], name);
    assert ByteAt(Chunk(i, [stored[i]]), i) == Some(stored[i]);
  }

  /** Whatever any clients send, in any order and with any interruptions: every acknowledged chunk
      is held until the last file with it is cleaned up, and the partial file stays within the
      recorded total.  As long as no whole file was sent that contradicts an accepted chunk of the
      partial file it comes to stand beside, any two of these chunks of one file agree wherever
      they overlap, and so they do after any further such calls. */
  method AnyRun(calls: seq<Call>) returns (u: Upload, ghost turns: seq<Turn>)
    ensures u.Valid() && |turns| == |calls| && forall k :: 0 <= k < |calls| ==> turns[k].call == calls[k]
    ensures forall a :: a in Book(turns).acks ==> u.Holds(a)
    ensures u.partial.Some? && u.metadata.Some? ==> u.metadata.value.Recorded? && |u.partial.value| <= u.metadata.value.total
    ensures (forall t :: t in turns ==> !t.conflict) ==> u.Consistent()
    ensures u.Consistent() ==>
      forall a, b :: a in Book(turns).acks && b in Book(turns).acks && a.suffix == b.suffix ==> Agree(a.chunk, b.chunk)
  {
    hide Agree, Noted, Differ, Stores, Book;
    u := new Upload(false);
    BookOfNothing();
    turns := [];
    for k := 0 to |calls|
      invariant u.Valid() && |turns| == k && Keeps(u, Book(turns))
      invariant forall i :: 0 <= i < k ==> turns[i].call == calls[i]
      invariant (forall t :: t in turns ==> !t.conflict) ==> u.Consistent()
    {
      ghost var before := Now(u, calls[k], Ignored);
      var r := Perform(u, calls[k], [], FileName("", ""), Book(turns));
      ghost var turn := before.(reply := r);
      BookGrows(turns, turn);
      turns := turns + [turn];
    }
    forall a, b | u.Consistent() && a in Book(turns).acks && b in Book(turns).acks && a.suffix == b.suffix ensures Agree(a.chunk, b.chunk) {
      HeldAgree(u, a, b);
    }
  }

  /** That does happen: a chunk, a whole file and a second chunk with the same key, all
      acknowledged without any interruption, and the two chunks disagree. */
  method TwoFilesDisagree() returns (u: Upload, replies: seq<Reply>)
    ensures replies == [Acknowledged(1, false), Acknowledged(2, true), Acknowledged(2, true)]
    ensures u.Holds(Ack(".txt", Chunk(0, [1]))) && u.Holds(Ack(".txt", Chunk(0, [2]))) && !Agree(Chunk(0, [1]), Chunk(0, [2]))
  {
    hide Agrees, Stores, Differ;
    u := new Upload(true);
    var name := FileName("a.txt", ".txt");
    var one := u.ReceiveChunk(name, 0, 2, [1], [], name);
    var whole := u.UploadWhole(name, [2, 2], [], name);
    assert u.Holds(Ack(".txt", Chunk(0, [1])));
    var file: Bytes := [2, 2];
    assert file[0..1] == [2];
    var two := u.ReceiveChunk(name, 0, 2, [2], [], name);
    assert one == Acknowledged(1, false);
    assert whole == Acknowledged(2, true);
    assert two == Acknowledged(2, true);
    replies := [one, whole, two];
    assert ByteAt(Chunk(0, [1]), 0) == Some(1) && ByteAt(Chunk(0, [2]), 0) == Some(2);
  }

  /** Whatever the order, repetition and interruptions of honest calls, the partial
      file is a prefix of the file and every stored file is the file. */
  method HonestRun(file: Bytes, name: FileName, calls: seq<Call>) returns (u: Upload)
    requires forall call :: call in calls ==> HonestCall(file, name, call)
    ensures u.Valid()
    ensures u.partial.Some? ==> u.partial.value <= file
    ensures forall x :: x in u.destinations ==> x == name.suffix && u.destinations[x] == file
    ensures u.row.Some? ==> u.row.value == Row(name.suffix, name, file)
  {
    u := new Upload(false);
    ghost var book := Ledger({}, None);
    for k := 0 to |calls|
      invariant u.Valid() && u.AllHonest(file, name) && Keeps(u, book)
      invariant u.flight.Some? ==> u.flight.value.name == name && u.flight.value.total == |file|
    {
      ghost var before := Now(u, calls[k], Ignored);
      var r := Perform(u, calls[k], file, name, book);
      book := Noted(book, before.(reply := r));
    }
  }

  /** After the row is committed, no calls of any client write a destination again. */
  method AfterCommit(u: Upload, calls: seq<Call>)
    requires u.Valid() && u.row.Some?
    modifies u
    ensures u.Valid() && u.row == old(u.row)
    ensures forall x :: x in u.destinations ==> x in old(u.destinations) && u.destinations[x] == old(u.destinations[x])
  {
    ghost var book := Ledger({}, if u.flight.Some? then Some(Ack(u.flight.value.name.suffix, u.flight.value.chunk)) else None);
    for k := 0 to |calls|
      invariant u.Valid() && u.row == old(u.row) && Keeps(u, book)
      invariant forall x :: x in u.destinations ==> x in old(u.destinations) && u.destinations[x] == old(u.destinations[x])
    {
      ghost var before := Now(u, calls[k], Ignored);
      var r := Perform(u, calls[k], [], FileName("", ""), book);
      book := Noted(book, before.(reply := r));
    }
  }

  /** A client that sends a file in consecutive slices to a fresh upload, without interruptions: each
      answer reports what is stored so far, and the last one finds the file in place with its row. */
  method SendSlices(name: FileName, slices: seq<Bytes>) returns (u: Upload, replies: seq<Reply>)
    requires name.suffix in MEDIA_SUFFIXES && slices != [] && |Concat(slices)| <= MAX_UPLOAD_BYTES
    requires forall k :: 0 <= k < |slices| ==> 0 < |slices[k]| <= MAX_CHUNK_BYTES
    ensures |replies| == |slices|
    ensures forall k :: 0 <= k < |slices| ==> replies[k] == Acknowledged(|Concat(slices[..k + 1])|, k + 1 == |slices|)
    ensures u.destinations == map[name.suffix := Concat(slices)] && u.row == Some(Row(name.suffix, name, Concat(slices)))
    ensures u.partial.None? && u.metadata.None? && u.flight.None?
  {
    hide Upload.Valid;
    u := new Upload(true);
    replies := [];
    var file := Concat(slices);
    for k := 0 to |slices|
      invariant u.Valid() && u.reliable && |replies| == k
      invariant forall i :: 0 <= i < k ==> replies[i] == Acknowledged(|Concat(slices[..i + 1])|, i + 1 == |slices|)
      invariant k < |slices| ==> u.row.None? && u.flight.None? && u.destinations == map[] && BytesOf(u.partial) == Concat(slices[..k])
      invariant k < |slices| ==> if Concat(slices[..k]) == [] then u.partial.None? && u.metadata.None? else u.metadata == Some(Recorded(name, |file|))
      invariant k == |slices| ==>
        && u.destinations == map[name.suffix := file] && u.row == Some(Row(name.suffix, name, file))
        && u.partial.None? && u.metadata.None? && u.flight.None?
    {
      ConcatGrows(slices, k);
      var r := SendSlice(u, name, Concat(slices[..k]), slices[k], |file|);
      replies := replies + [r];
    }
  }

  /** One slice that goes right behind the stored bytes. */
  method SendSlice(u: Upload, name: FileName, stored: Bytes, slice: Bytes, total: nat) returns (r: Reply)
    requires u.Valid() && u.reliable && u.row.None? && u.flight.None? && u.destinations == map[]
    requires name.suffix in MEDIA_SUFFIXES && 0 < |slice| <= MAX_CHUNK_BYTES && |stored + slice| <= total <= MAX_UPLOAD_BYTES
    requires BytesOf(u.partial) == stored && if stored == [] then u.partial.None? && u.metadata.None? else u.metadata == Some(Recorded(name, total))
    modifies u
    ensures u.Valid() && r == Acknowledged(|stored + slice|, |stored + slice| == total)
    ensures if |stored + slice| < total then
              && u.row.None? && u.flight.None? && u.destinations == map[]
              && u.partial == Some(stored + slice) && u.metadata == Some(Recorded(name, total))
            else
              && u.destinations == map[name.suffix := stored + slice] && u.row == Some(Row(name.suffix, name, stored + slice))
              && u.partial.None? && u.metadata.None? && u.flight.None?
  {
    hide Agrees, Stores, Differ;
    r := u.ReceiveChunk(name, |stored|, total, slice, [], name);
    if r.Digesting? {
      r := u.FinishChunk([], name);
    }
  }

  /** The next slice goes right behind the stored ones, and completes the file if it is the last. */
  lemma ConcatGrows(slices: seq<Bytes>, k: nat)
    requires k < |slices| && forall i :: 0 <= i < |slices| ==> 0 < |slices[i]|
    ensures Concat(slices[..k + 1]) == Concat(slices[..k]) + slices[k]
    ensures if k + 1 == |slices| then Concat(slices[..k + 1]) == Concat(slices) else |Concat(slices[..k + 1])| < |Concat(slices)|
  {
    assert slices[..k + 1][..k] == slices[..k];
    if k + 1 == |slices| {
      assert slices[..k + 1] == slices;
    } else {
      PrefixIsShorter(slices, k + 1);
    }
  }

  lemma {:induction false} PrefixIsShorter(slices: seq<Bytes>, k: nat)
    requires k < |slices| && forall i :: 0 <= i < |slices| ==> 0 < |slices[i]|
    ensures |Concat(slices[..k])| < |Concat(slices)|
  {
    var front := slices[..|slices| - 1];
    if k < |front| {
      PrefixIsShorter(front, k);
      assert front[..k] == slices[..k];
    } else {
      assert slices[..k] == front;
    }
  }
}
