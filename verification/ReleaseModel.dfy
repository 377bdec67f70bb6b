/**
 The fixed release plan, the remote repository it is published to, the durable
 journal and the local backup directory, as plain values.  The functions named
 `Do...` are what the service does when a request takes effect; whether the
 answer arrives is decided in ReleasePublisher.
 */
module ReleaseModel {
  import opened Wrappers

  type Id = nat
  type Sha = string

  /** An asset name: as planned, `pending-<marker>-<base>` or `original-<marker>-<base>`. */
  datatype Name = Canonical(base: string) | Pending(base: string) | Preserved(base: string)

  datatype Fingerprint = Fingerprint(bytes: nat, sha256: Sha)

  /** A tag ref: the object it names and the commit reached through annotated tags. */
  datatype TagRef = TagRef(refSha: Sha, commit: Sha)

  datatype OldAsset = OldAsset(name: string, fp: Fingerprint)

  /** The release being replaced; `order` lists `assets` as the plan file does. */
  datatype Original = Original(releaseId: Id, tag: TagRef, body: Sha, order: seq<Id>, assets: map<Id, OldAsset>)

  /** `order` lists the planned asset names as the plan file does; `fps` gives their bytes. */
  datatype Plan = Plan(tag: string, commit: Sha, notes: Sha, prerelease: bool,
                       order: seq<string>, fps: map<string, Fingerprint>, original: Option<Original>)
  {
    function Olds(): map<Id, OldAsset> {
      if original.Some? then original.value.assets else map[]
    }

    function OldOrder(): seq<Id> {
      if original.Some? then original.value.order else []
    }

    function OldTag(): Option<TagRef> {
      if original.Some? then Some(original.value.tag) else None
    }

    function Lease(): Option<Sha> {
      if original.Some? then Some(original.value.tag.refSha) else None
    }

    function PreservedName(id: Id): Name
      requires id in Olds()
    {
      Preserved(Olds()[id].name)
    }

    function OldNames(): seq<string> {
      seq(|OldOrder()|, k requires 0 <= k < |OldOrder()| => if OldOrder()[k] in Olds() then Olds()[OldOrder()[k]].name else "")
    }

    function OldFps(): seq<Fingerprint> {
      seq(|OldOrder()|, k requires 0 <= k < |OldOrder()| =>
        if OldOrder()[k] in Olds() then Olds()[OldOrder()[k]].fp else Fingerprint(0, ""))
    }
  }

  // ----- Remote state

  datatype Asset = Asset(id: Id, name: Name, uploaded: bool, fp: Fingerprint, created: int)

  /** `body` is the digest of the newline-normalised notes. */
  datatype Release = Release(id: Id, tagName: string, target: Sha, body: Sha, draft: bool, prerelease: bool, created: int)

  predicate Matches(a: Asset, fp: Fingerprint) {
    a.uploaded && a.fp == fp
  }

  // ----- Journal

  datatype Action =
    | CreateIntent
    | Created(id: Id)
    | UploadIntent(name: Name, sha256: Sha)
    | UnfinishedDeleteIntent(id: Id, name: Name)
    | TagIntent(lease: Option<Sha>, commit: Sha)
    | PreserveIntent(id: Id, name: Name)
    | PromoteIntent(id: Id, name: Name)
    | PublishIntent(id: Id, notes: Sha)
    | DeleteIntent(id: Id, name: Name)
    | Receipt(step: Step)

  /** Outcomes that are recorded and never read back. */
  datatype Step = Staged | UnfinishedDeleted | TagPromoted | OriginalPreserved | Promoted | BackedUp | DeletedOriginal | Verified

  datatype Entry = Entry(at: int, action: Action)

  function Actions(journal: seq<Entry>): set<Action> {
    set e | e in journal :: e.action
  }

  lemma ActionsAppend(journal: seq<Entry>, e: Entry)
    ensures Actions(journal + [e]) == Actions(journal) + {e.action}
  {
    assert forall x :: x in journal + [e] <==> x in journal || x == e;
  }

  datatype Query = ByCreateIntent | ByCreated | ByUploadIntent(name: Name) | ByTagIntent

  predicate Selects(q: Query, a: Action) {
    match q
    case ByCreateIntent => a.CreateIntent?
    case ByCreated => a.Created?
    case ByUploadIntent(n) => a.UploadIntent? && a.name == n
    case ByTagIntent => a.TagIntent?
  }

  /** The journal entries of one kind, oldest first. */
  function Events(journal: seq<Entry>, q: Query): seq<Entry> {
    if journal == [] then []
    else
      var last := journal[|journal| - 1];
      Events(journal[..|journal| - 1], q) + (if Selects(q, last.action) then [last] else [])
  }

  lemma {:induction false} EventsSelect(journal: seq<Entry>, q: Query)
    ensures forall e :: e in Events(journal, q) <==> e in journal && Selects(q, e.action)
  {
    if journal != [] {
      EventsSelect(journal[..|journal| - 1], q);
      assert journal == journal[..|journal| - 1] + [journal[|journal| - 1]];
    }
  }

  /** In a journal whose times never go back, the first entry of a kind is the earliest. */
  lemma {:induction false} FirstIsEarliest(journal: seq<Entry>, q: Query, e: Entry)
    requires forall i, k :: 0 <= i < k < |journal| ==> journal[i].at <= journal[k].at
    requires e in journal && Selects(q, e.action)
    ensures Events(journal, q) != [] && Events(journal, q)[0].at <= e.at
  {
    var front := journal[..|journal| - 1];
    if e in front {
      FirstIsEarliest(front, q, e);
    } else {
      assert e == journal[|journal| - 1];
      EventsSelect(front, q);
      if Events(front, q) != [] {
        assert Events(front, q)[0] in front;
      }
    }
  }

  // ----- Local backup directory

  datatype File = Metadata(body: Sha, releaseId: Id) | Blob(fp: Fingerprint)

  const METADATA: string := "release.json"
  const INCOMPLETE: string := ".incomplete"

  // ----- The whole system

  datatype Mutation =
    | CreateRelease(id: Id)
    | UploadAsset(id: Id, name: Name, complete: bool)
    | RenameAsset(id: Id, name: Name)
    | DeleteAsset(id: Id, removed: Asset)
    | MoveTag(lease: Option<Sha>, commit: Sha)
    | PublishRelease(id: Id)

  /** A remote mutation that took effect, with the journal length it was issued at. */
  datatype Write = Write(what: Mutation, seen: nat)

  datatype State = State(tag: Option<TagRef>, releases: map<Id, Release>, latest: Option<Id>, assets: map<Id, Asset>,
                         nextId: Id, now: int, journal: seq<Entry>, disk: map<string, File>, writes: seq<Write>)
  {
    ghost function Acts(): set<Action> {
      Actions(journal)
    }

    function Wrote(m: Mutation): seq<Write> {
      writes + [Write(m, |journal|)]
    }
  }

  predicate NameFree(s: State, name: Name) {
    forall i :: i in s.assets ==> s.assets[i].name != name
  }

  function DoLog(s: State, action: Action, at: int): State {
    s.(journal := s.journal + [Entry(at, action)], now := at)
  }

  function DoCreate(s: State, p: Plan, created: int): State {
    s.(releases := s.releases[s.nextId := Release(s.nextId, p.tag, p.commit, p.notes, true, p.prerelease, created)],
       nextId := s.nextId + 1,
       writes := s.Wrote(CreateRelease(s.nextId)))
  }

  function DoUpload(s: State, name: Name, fp: Fingerprint, complete: bool, created: int): State {
    s.(assets := s.assets[s.nextId := Asset(s.nextId, name, complete, fp, created)],
       nextId := s.nextId + 1,
       writes := s.Wrote(UploadAsset(s.nextId, name, complete)))
  }

  function DoRename(s: State, id: Id, name: Name): State
    requires id in s.assets
  {
    s.(assets := s.assets[id := s.assets[id].(name := name)], writes := s.Wrote(RenameAsset(id, name)))
  }

  function DoDelete(s: State, id: Id): State
    requires id in s.assets
  {
    s.(assets := s.assets - {id}, writes := s.Wrote(DeleteAsset(id, s.assets[id])))
  }

  function DoMoveTag(s: State, lease: Option<Sha>, commit: Sha): State {
    s.(tag := Some(TagRef(commit, commit)), writes := s.Wrote(MoveTag(lease, commit)))
  }

  /** Publishing a stable release makes it the latest; a prerelease never is,
      so another release (or none) takes its place. */
  function DoPublish(s: State, p: Plan, id: Id, otherLatest: Option<Id>): State
    requires id in s.releases
  {
    var r := s.releases[id].(body := p.notes, target := p.commit, draft := false, prerelease := p.prerelease);
    s.(releases := s.releases[id := r],
       latest := if !p.prerelease then Some(id) else if s.latest == Some(id) then otherLatest else s.latest,
       writes := s.Wrote(PublishRelease(id)))
  }
}
