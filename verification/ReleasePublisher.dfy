/**
 The publisher itself.  Every request, journal record and download may fail
 unless `reliable`: a failing mutation may or may not have taken effect, and the
 failure ends the run, so a return with `Err` is also what a process death at
 that point leaves behind.
 */
module ReleasePublisher {
  import opened Wrappers
  import opened ReleaseModel
  import opened ReleaseInvariant
  import opened ReleaseSteps
  import opened ReleaseBackup

  datatype Failure =
    | OutcomeUnknown | Rejected
    | OriginalTagCommitChanged | RemoteTagChanged
    | OwnedReleaseDisappeared | AmbiguousReleases | OriginalReleaseChanged | ReleaseAlreadyExists
    | ReleaseIdChanged | OwnedReleaseNotesChanged | UnownedDraft | DraftPredatesIntent
    | DuplicateRemoteAsset | UnexpectedRemoteAsset | OriginalNotesChanged | OriginalAssetDisappeared | OriginalAssetChanged
    | BackupChanged
    | UnownedPendingAsset | PendingPredatesIntent | PendingUncertain | StagedAssetMismatch
    | ExplicitModeRequired | StageRequired | AllAssetsMustBeStaged | TagPromotionMismatch | UnexpectedCanonicalAsset
    | StagedAssetDisappeared | PublishedNotesMismatch | PreservedAssetChanged
    | PublishedReleaseRequired | ReleaseStageMismatch | NotesOrCommitMismatch | ReleaseTagMismatch | LatestMismatch
    | AssetSetMismatch | AssetHashMismatch | AssetBytesChanged

  /** `current` is the listing of the release's assets, by name. */
  ghost predicate Listing(current: map<Name, Asset>, assets: map<Id, Asset>) {
    && (forall n :: n in current ==> current[n].name == n && current[n].id in assets && assets[current[n].id] == current[n])
    && (forall i :: i in assets ==> assets[i].name in current)
  }

  function Lookup(current: map<Name, Asset>, n: Name): Option<Asset> {
    if n in current then Some(current[n]) else None
  }

  /** Time has passed every unfinished upload by five minutes. */
  ghost predicate Aged(s: State) {
    forall i :: i in s.assets && !s.assets[i].uploaded ==> s.assets[i].created + 300 <= s.now
  }

  ghost predicate AllReady(p: Plan, s: State) {
    forall n :: n in p.fps ==> Ready(p, s.assets, n)
  }

  /** The journal and the write history only grow. */
  ghost predicate Grew(s: State, t: State) {
    s.journal <= t.journal && s.writes <= t.writes && s.now <= t.now
  }

  lemma GrewOn(s: State)
    ensures forall t, u :: Grew(s, t) && Grew(t, u) ==> Grew(s, u)
  {
  }

  ghost predicate SameButAssets(s: State, t: State) {
    t.tag == s.tag && t.releases == s.releases && t.latest == s.latest && t.disk == s.disk
  }

  /** No request changed anything at the service. */
  ghost predicate SameRemote(s: State, t: State) {
    SameButAssets(s, t.(disk := s.disk)) && t.assets == s.assets && t.writes == s.writes
  }

  lemma StepsJoin(a: State, b: State, c: State)
    ensures Grew(a, a) && SameButAssets(a, a) && SameRemote(a, a)
    ensures Grew(a, b) && Grew(b, c) ==> Grew(a, c)
    ensures SameButAssets(a, b) && SameButAssets(b, c) ==> SameButAssets(a, c)
    ensures SameRemote(a, b) && SameRemote(b, c) ==> SameRemote(a, c)
    ensures SameRemote(a, b) ==> a.assets == b.assets
  {
  }

  // ----- Single facts out of the invariant

  lemma InvIds(p: Plan, s: State)
    requires ValidPlan(p) && Inv(p, s)
    ensures IdsKnown(p, s.assets, s.releases, s.nextId)
  {
  }

  lemma InvTag(p: Plan, s: State)
    requires ValidPlan(p) && Inv(p, s)
    ensures TagKnown(p, s.Acts(), s.tag)
  {
  }

  lemma InvRelease(p: Plan, s: State)
    requires ValidPlan(p) && Inv(p, s)
    ensures ReleaseKnown(p, s.journal, s.releases)
  {
  }

  lemma InvAsset(p: Plan, s: State, i: Id)
    requires ValidPlan(p) && Inv(p, s) && i in s.assets
    ensures s.assets[i].id == i && i < s.nextId && AssetKnown(p, s.journal, s.assets[i])
  {
  }

  /** Uploads for the same asset are the same, and so are assets of the same name. */
  lemma InvSame(p: Plan, s: State, i: Id, k: Id)
    requires ValidPlan(p) && Inv(p, s) && i in s.assets && k in s.assets
    ensures SameUpload(p, s.assets[i], s.assets[k]) || s.assets[i].name == s.assets[k].name ==> i == k
  {
  }

  lemma InvOriginal(p: Plan, s: State, i: Id)
    requires ValidPlan(p) && Inv(p, s) && i in p.Olds()
    ensures i in s.assets ==> s.assets[i].id == i && AssetKnown(p, s.journal, s.assets[i])
    ensures i in s.assets || DeleteIntended(s.journal, i)
  {
  }

  lemma InvMetadata(p: Plan, s: State)
    requires ValidPlan(p) && Inv(p, s) && p.original.Some? && METADATA in s.disk
    ensures s.disk[METADATA] == Metadata(p.original.value.body, p.original.value.releaseId)
  {
  }

  lemma InvAnnounces(p: Plan, s: State, a: Action, at: int)
    requires ValidPlan(p) && Inv(p, s)
    ensures Announcing(DoLog(s, a, at), a)
  {
    LogAnnounces(p, s, a, at);
  }

  lemma InvExplained(p: Plan, s: State)
    requires ValidPlan(p) && Inv(p, s) && p.original.Some?
    ensures Explained(s.disk, p.OldNames(), p.OldFps())
  {
  }

  lemma PreserveNameFree(p: Plan, s: State, id: Id)
    requires ValidPlan(p) && Inv(p, s) && id in s.assets && id in p.Olds() && s.assets[id].name.Canonical?
    ensures NameFree(s, p.PreservedName(id))
  {
    PreserveFacts(p, s, id);
  }

  lemma RecordedTag(p: Plan, s: State)
    requires ValidPlan(p) && Inv(p, s)
    requires TagIntent(p.Lease(), p.commit) in s.Acts()
    ensures var own := Events(s.journal, ByTagIntent);
            own != [] && own[|own| - 1].action == TagIntent(p.Lease(), p.commit)
  {
    var own := Events(s.journal, ByTagIntent);
    EventsSelect(s.journal, ByTagIntent);
    var e :| e in s.journal && e.action == TagIntent(p.Lease(), p.commit);
    assert e in own;
    assert own[|own| - 1].action in s.Acts();
    assert ActionSound(p, s, own[|own| - 1].action);
  }

  lemma RecordedRelease(p: Plan, s: State)
    requires ValidPlan(p) && Inv(p, s)
    ensures var known := Events(s.journal, ByCreated);
            if known == [] then forall i :: Created(i) !in s.Acts()
            else known[|known| - 1].action.Created? && ReleaseRecorded(p, s.journal, s.releases, known[|known| - 1].action.id)
  {
    var known := Events(s.journal, ByCreated);
    EventsSelect(s.journal, ByCreated);
    if known != [] {
      assert known[|known| - 1].action in s.Acts();
      assert ActionSound(p, s, known[|known| - 1].action);
    }
  }

  /** What the journal says about a release with the plan's tag when there was no original. */
  lemma OwnReleaseAccepted(p: Plan, s: State, r: Release)
    requires ValidPlan(p) && Inv(p, s)
    requires p.original.None?
    requires Tagged(p, s.releases, r.id) && s.releases[r.id] == r
    ensures r.target == p.commit && r.body == p.notes && r.prerelease == p.prerelease
    ensures Events(s.journal, ByCreateIntent) != [] && Events(s.journal, ByCreateIntent)[0].at - 5 <= r.created
    ensures Created(r.id) !in s.Acts() ==> r.draft
  {
    assert OwnRelease(p, s.journal, r);
    var e :| e in s.journal && Selects(ByCreateIntent, e.action) && e.at - 5 <= r.created;
    FirstIsEarliest(s.journal, ByCreateIntent, e);
  }

  lemma MayPromote(p: Plan, s: State, a: Asset, base: string)
    requires ValidPlan(p) && Inv(p, s) && a.id in s.assets && s.assets[a.id] == a && a.id !in p.Olds()
    requires a.name == Pending(base) && base in p.fps
    ensures MayLog(p, s, PromoteIntent(a.id, Canonical(base)))
  {
    hide Inv;
    InvAsset(p, s, a.id);
  }

  lemma MayDeleteUnfinished(p: Plan, s: State, a: Asset)
    requires ValidPlan(p) && Inv(p, s) && a.id in s.assets && s.assets[a.id] == a && a.id !in p.Olds() && !a.uploaded
    ensures MayLog(p, s, UnfinishedDeleteIntent(a.id, a.name))
  {
    hide Inv;
    InvAsset(p, s, a.id);
  }

  lemma MayDelete(p: Plan, s: State, id: Id)
    requires ValidPlan(p) && Settled(p, s.assets, s.tag, s.releases, s.disk) && id in p.Olds()
    ensures MayLog(p, s, DeleteIntent(id, p.PreservedName(id)))
  {
  }

  lemma MayUploadNext(p: Plan, s: State, base: string, sha256: Sha)
    requires ValidPlan(p) && base in p.fps
    ensures MayLog(p, s, UploadIntent(Pending(base), sha256))
  {
  }

  lemma NextIsNew(p: Plan, s: State)
    requires ValidPlan(p) && Inv(p, s)
    ensures s.nextId !in s.assets && s.nextId !in p.Olds()
  {
  }

  lemma MayReceipt(p: Plan)
    requires ValidPlan(p)
    ensures forall s, step :: MayLog(p, s, Receipt(step))
  {
  }

  lemma PendingFree(p: Plan, s: State, base: string)
    requires ValidPlan(p) && Inv(p, s)
    requires NotUploaded(p, s.assets, base)
    ensures NameFree(s, Pending(base))
  {
    forall i | i in s.assets ensures s.assets[i].name != Pending(base) {
      assert AssetKnown(p, s.journal, s.assets[i]);
    }
  }

  // ----- What the checks before every change accept

  /** The tag is untouched, or was moved to the plan's commit by this plan. */
  ghost predicate LeaseHolds(p: Plan, s: State, promoted: bool) {
    || s.tag == p.OldTag()
    || (&& promoted && s.tag == Some(TagRef(p.commit, p.commit))
        && var own := Events(s.journal, ByTagIntent);
           own != [] && own[|own| - 1].action.TagIntent? && own[|own| - 1].action.lease == p.Lease())
  }

  lemma LeaseIsHeld(p: Plan, s: State)
    requires ValidPlan(p) && Inv(p, s)
    ensures LeaseHolds(p, s, true)
  {
    hide Inv;
    InvTag(p, s);
    if s.tag != p.OldTag() {
      RecordedTag(p, s);
    }
  }

  /** A name an asset may have while the plan is in progress. */
  ghost predicate NameExpected(p: Plan, journal: seq<Entry>, name: Name) {
    || (name.Pending? && name.base in p.fps)
    || (!name.Pending? && exists i :: i in p.Olds() && p.Olds()[i].name == name.base)
    || (exists e :: e in journal && e.action.PromoteIntent? && e.action.name == name)
  }

  /** The original is there with its bytes under its own or, once intended, its preserved
      name, or its deletion was intended. */
  ghost predicate OldAccepted(p: Plan, journal: seq<Entry>, assets: map<Id, Asset>, id: Id, progressed: bool)
    requires id in p.Olds()
  {
    var o := p.Olds()[id];
    if id in assets then
      && Matches(assets[id], o.fp)
      && (assets[id].name == Canonical(o.name) || (progressed && PreserveIntended(journal, id) && assets[id].name == Preserved(o.name)))
    else progressed && DeleteIntended(journal, id)
  }

  ghost predicate OriginalAccepted(p: Plan, journal: seq<Entry>, assets: map<Id, Asset>, release: Release, progressed: bool) {
    && (forall i :: i in assets ==> NameExpected(p, journal, assets[i].name))
    && (p.original.Some? ==>
          && !release.draft
          && (release.body == p.original.value.body || (progressed && PublishIntended(journal) && release.body == p.notes))
          && forall i :: i in p.Olds() ==> OldAccepted(p, journal, assets, i, progressed))
  }

  lemma AllowedNames(p: Plan, s: State, current: map<Name, Asset>, allowed: set<Name>)
    requires Listing(current, s.assets)
    requires allowed == (set n | n in p.fps :: Pending(n))
                        + (set i | i in p.Olds() :: Canonical(p.Olds()[i].name))
                        + (set i | i in p.Olds() :: Preserved(p.Olds()[i].name))
                        + (set e | e in s.journal && e.action.PromoteIntent? :: e.action.name)
    ensures current.Keys <= allowed <==> forall i :: i in s.assets ==> NameExpected(p, s.journal, s.assets[i].name)
  {
    forall name ensures name in allowed <==> NameExpected(p, s.journal, name) {
      match name
      case Pending(_) =>
      case Canonical(_) =>
      case Preserved(_) =>
    }
  }

  /** Nothing this plan's own runs leave behind is refused. */
  lemma OwnStateAccepted(p: Plan, s: State, release: Release)
    requires ValidPlan(p) && Inv(p, s)
    requires Tagged(p, s.releases, release.id) && s.releases[release.id] == release
    ensures OriginalAccepted(p, s.journal, s.assets, release, true)
  {
    hide Inv;
    InvRelease(p, s);
    forall i | i in s.assets ensures NameExpected(p, s.journal, s.assets[i].name) {
      OwnNameExpected(p, s, i);
    }
    forall i | i in p.Olds() ensures OldAccepted(p, s.journal, s.assets, i, true) {
      InvOriginal(p, s, i);
    }
    if p.original.Some? {
      assert Tagged(p, s.releases, p.original.value.releaseId);
    }
  }

  lemma OwnNameExpected(p: Plan, s: State, i: Id)
    requires ValidPlan(p) && Inv(p, s) && i in s.assets
    ensures NameExpected(p, s.journal, s.assets[i].name)
  {
    var a := s.assets[i];
    assert AssetKnown(p, s.journal, a);
    if a.id !in p.Olds() && a.name.Canonical? {
      var e :| e in s.journal && e.action.PromoteIntent? && e.action.id == a.id;
      assert e.action in s.Acts();
      assert ActionSound(p, s, e.action);
    }
  }

  ghost predicate SameButDisk(s: State, t: State) {
    t == s.(disk := t.disk, journal := t.journal, now := t.now)
  }

  // ----- Backups

  ghost function Started(p: Plan, disk: Disk): Disk
    requires p.original.Some?
  {
    if METADATA in disk then disk else disk[METADATA := Metadata(p.original.value.body, p.original.value.releaseId)]
  }

  /** What one backup without faults makes of the directory, if it succeeds. */
  ghost function Pass(p: Plan, disk: Disk): Option<Disk> {
    if p.original.None? then Some(disk)
    else BackupTo(Started(p, disk), p.OldNames(), p.OldFps(), |p.OldNames()|)
  }

  /** Nothing is changed or removed but unfinished uploads that were begun five minutes ago. */
  ghost predicate Spared(p: Plan, s: State, t: State) {
    forall i :: i in s.assets && (i in p.Olds() || s.assets[i].uploaded || t.now < s.assets[i].created + 300) ==>
      i in t.assets && t.assets[i] == s.assets[i]
  }

  lemma SparedSame(p: Plan, s: State)
    ensures forall t: State :: t.assets == s.assets ==> Spared(p, s, t)
  {
  }

  lemma SparedWith(p: Plan, s: State, id: Id)
    requires id !in s.assets
    ensures forall t: State :: id in t.assets && t.assets == s.assets[id := t.assets[id]] ==> Spared(p, s, t)
  {
  }

  lemma SparedWithout(p: Plan, s: State, id: Id)
    requires id in s.assets && id !in p.Olds() && !s.assets[id].uploaded
    ensures forall t: State :: t.assets == s.assets - {id} && s.assets[id].created + 300 <= t.now ==> Spared(p, s, t)
  {
  }

  lemma SparedJoin(p: Plan, s: State, t: State, u: State)
    requires Spared(p, s, t) && Spared(p, t, u) && t.now <= u.now
    ensures Spared(p, s, u)
  {
  }

  ghost predicate OriginalsThere(p: Plan, assets: map<Id, Asset>) {
    forall i :: i in p.Olds() ==> i in assets
  }

  /** What a first fault in the download of original `j` leaves, if the backup gets there. */
  ghost function Interrupted(p: Plan, disk: Disk, j: nat, rest: Fingerprint): Option<Disk>
    requires p.original.Some? && j < |p.OldNames()|
  {
    match BackupTo(Started(p, disk), p.OldNames(), p.OldFps(), j)
    case None => None
    case Some(reached) => if p.OldNames()[j] in reached then None else Some(reached[p.OldNames()[j] + INCOMPLETE := Blob(rest)])
  }

  /** Without faults the next backup succeeds. */
  ghost predicate CanBackUp(p: Plan, s: State) {
    p.original.Some? ==> SafeNames(p.OldNames()) || (OriginalsThere(p, s.assets) && Pass(p, s.disk).Some?)
  }

  /** Some file in the directory makes every backup fail. */
  ghost predicate Jammed(p: Plan, disk: Disk) {
    p.original.Some? && exists i: nat :: i < |p.OldNames()| && Blocked(disk, p.OldNames(), p.OldFps(), i)
  }

  class Publisher {
    const plan: Plan
    const local: map<string, Fingerprint>
    const reliable: bool
    const broken: Option<(nat, Fingerprint)>
    var s: State

    /** `local` is what the planned files are on disk during this run; `broken` names an original
        whose download breaks off, and the bytes it leaves. */
    constructor (plan: Plan, local: map<string, Fingerprint>, reliable: bool, broken: Option<(nat, Fingerprint)>, s: State)
      ensures this.plan == plan && this.local == local && this.reliable == reliable && this.broken == broken && this.s == s
    {
      this.plan := plan;
      this.local := local;
      this.reliable := reliable;
      this.broken := broken;
      this.s := s;
    }

    // ----- Requests

    method Fails() returns (b: bool)
      ensures reliable ==> !b
    {
      b := *;
      b := b && !reliable;
    }

    /** Appends to the journal file, whose replacement is atomic. */
    method Record(a: Action) returns (r: Result<(), Failure>)
      requires ValidPlan(plan) && Inv(plan, s) && MayLog(plan, s, a)
      modifies `s
      ensures Inv(plan, s) && Grew(old(s), s)
      ensures s == old(s) || s == DoLog(old(s), a, s.now)
      ensures r.Ok? ==> s == DoLog(old(s), a, s.now) && s.Acts() == old(s.Acts()) + {a} && Announcing(s, a)
      ensures reliable ==> r.Ok?
    {
      hide Inv, Settled;
      var before := Fails();
      if before {
        return Err(OutcomeUnknown);
      }
      var at: int := *;
      if at < s.now {
        at := s.now;
      }
      LogKeepsInv(plan, s, a, at);
      InvAnnounces(plan, s, a, at);
      ActionsAppend(s.journal, Entry(at, a));
      s := DoLog(s, a, at);
      var after := Fails();
      return if after then Err(OutcomeUnknown) else Ok(());
    }

    method GetTag() returns (r: Result<Option<TagRef>, Failure>)
      ensures r.Ok? ==> r.value == s.tag
      ensures reliable ==> r.Ok?
    {
      var fault := Fails();
      return if fault then Err(OutcomeUnknown) else Ok(s.tag);
    }

    method GetRelease(id: Id) returns (r: Result<Option<Release>, Failure>)
      ensures r.Ok? ==> r.value == if id in s.releases then Some(s.releases[id]) else None
      ensures reliable ==> r.Ok?
    {
      var fault := Fails();
      return if fault then Err(OutcomeUnknown) else Ok(if id in s.releases then Some(s.releases[id]) else None);
    }

    /** A lookup by tag sees published releases only. */
    method GetPublished() returns (r: Result<Option<Release>, Failure>)
      ensures r.Ok? && r.value.Some? ==>
                !r.value.value.draft && exists i :: Tagged(plan, s.releases, i) && s.releases[i] == r.value.value
      ensures r.Ok? && r.value.None? ==> forall i :: Tagged(plan, s.releases, i) ==> s.releases[i].draft
      ensures reliable ==> r.Ok?
    {
      var fault := Fails();
      if fault {
        return Err(OutcomeUnknown);
      }
      var hits := set i | i in s.releases && s.releases[i].tagName == plan.tag && !s.releases[i].draft;
      if hits == {} {
        assert forall i :: Tagged(plan, s.releases, i) && !s.releases[i].draft ==> i in hits;
        return Ok(None);
      }
      var i :| i in hits;
      assert Tagged(plan, s.releases, i);
      return Ok(Some(s.releases[i]));
    }

    /** The authenticated listing shows drafts too. */
    method ListTagged() returns (r: Result<set<Id>, Failure>)
      ensures r.Ok? ==> forall i :: i in r.value <==> Tagged(plan, s.releases, i)
      ensures reliable ==> r.Ok?
    {
      var fault := Fails();
      return if fault then Err(OutcomeUnknown) else Ok(set i | i in s.releases && s.releases[i].tagName == plan.tag);
    }

    method GetLatest() returns (r: Result<Option<Id>, Failure>)
      ensures r.Ok? ==> r.value == s.latest
      ensures reliable ==> r.Ok?
    {
      var fault := Fails();
      return if fault then Err(OutcomeUnknown) else Ok(s.latest);
    }

    method Assets() returns (r: Result<map<Name, Asset>, Failure>)
      requires forall i :: i in s.assets ==> s.assets[i].id == i
      ensures r.Ok? ==> Listing(r.value, s.assets)
      ensures reliable && IdsKnown(plan, s.assets, s.releases, s.nextId) ==> r.Ok?
    {
      var fault := Fails();
      if fault {
        return Err(OutcomeUnknown);
      }
      if exists i, k :: i in s.assets && k in s.assets && i != k && s.assets[i].name == s.assets[k].name {
        return Err(DuplicateRemoteAsset);
      }
      return Ok(map i | i in s.assets :: s.assets[i].name := s.assets[i]);
    }

    ghost predicate Posted(before: State, after: State) {
      && before.nextId in after.releases
      && before.now - 5 <= after.releases[before.nextId].created
      && after == DoCreate(before, plan, after.releases[before.nextId].created)
    }

    method PostRelease() returns (r: Result<Release, Failure>)
      modifies `s
      ensures (s == old(s) && r.Err?) || Posted(old(s), s)
      ensures r.Ok? ==> r.value == s.releases[old(s.nextId)]
      ensures reliable ==> r.Ok?
    {
      var before := Fails();
      if before {
        return Err(OutcomeUnknown);
      }
      var created: int := *;
      if created < s.now - 5 {
        created := s.now - 5;
      }
      r := Ok(Release(s.nextId, plan.tag, plan.commit, plan.notes, true, plan.prerelease, created));
      s := DoCreate(s, plan, created);
      var after := Fails();
      if after {
        r := Err(OutcomeUnknown);
      }
    }

    ghost predicate PostedAsset(before: State, after: State, name: Name, fp: Fingerprint) {
      && before.nextId in after.assets
      && var a := after.assets[before.nextId];
      && before.now - 5 <= a.created && (a.uploaded ==> a.fp == fp)
      && after == DoUpload(before, name, a.fp, a.uploaded, a.created)
    }

    /** An interrupted upload may leave an unfinished asset with any size and digest. */
    method PostAsset(name: Name, fp: Fingerprint) returns (r: Result<Asset, Failure>)
      modifies `s
      ensures (s == old(s) && r.Err?) || PostedAsset(old(s), s, name, fp)
      ensures r.Ok? ==> PostedAsset(old(s), s, name, fp) && r.value == s.assets[old(s.nextId)] && r.value.uploaded
      ensures reliable && NameFree(old(s), name) ==> r.Ok?
    {
      var before := Fails();
      if before || exists i :: i in s.assets && s.assets[i].name == name {
        return Err(Rejected);
      }
      var created: int := *;
      if created < s.now - 5 {
        created := s.now - 5;
      }
      var broken := Fails();
      var found: Fingerprint := *;
      if !broken {
        found := fp;
      }
      r := Ok(Asset(s.nextId, name, !broken, found, created));
      s := DoUpload(s, name, found, !broken, created);
      var after := Fails();
      if broken || after {
        r := Err(OutcomeUnknown);
      }
    }

    method PatchAsset(id: Id, name: Name) returns (r: Result<Asset, Failure>)
      modifies `s
      ensures (s == old(s) && r.Err?) || (id in old(s.assets) && NameFree(old(s), name) && s == DoRename(old(s), id, name))
      ensures r.Ok? ==> id in s.assets && r.value == s.assets[id]
      ensures reliable && id in old(s.assets) && NameFree(old(s), name) ==> r.Ok?
    {
      var before := Fails();
      if before || id !in s.assets || exists i :: i in s.assets && s.assets[i].name == name {
        return Err(Rejected);
      }
      r := Ok(s.assets[id].(name := name));
      s := DoRename(s, id, name);
      var after := Fails();
      if after {
        r := Err(OutcomeUnknown);
      }
    }

    method DeleteRemote(id: Id) returns (r: Result<(), Failure>)
      modifies `s
      ensures (s == old(s) && r.Err?) || (id in old(s.assets) && s == DoDelete(old(s), id))
      ensures reliable && id in old(s.assets) ==> r.Ok?
    {
      var before := Fails();
      if before || id !in s.assets {
        return Err(Rejected);
      }
      s := DoDelete(s, id);
      var after := Fails();
      return if after then Err(OutcomeUnknown) else Ok(());
    }

    /** A push with a lease on the current ref. */
    method PushTag(commit: Sha, lease: Option<Sha>) returns (r: Result<(), Failure>)
      modifies `s
      ensures (s == old(s) && r.Err?) || s == DoMoveTag(old(s), lease, commit)
      ensures reliable && old(if s.tag.Some? then Some(s.tag.value.refSha) else None) == lease ==> r.Ok?
    {
      var before := Fails();
      if before || (if s.tag.Some? then Some(s.tag.value.refSha) else None) != lease {
        return Err(Rejected);
      }
      s := DoMoveTag(s, lease, commit);
      var after := Fails();
      return if after then Err(OutcomeUnknown) else Ok(());
    }

    method PatchRelease(id: Id) returns (r: Result<Release, Failure>)
      modifies `s
      ensures (s == old(s) && r.Err?)
              || (id in old(s.releases) && s == DoPublish(old(s), plan, id, s.latest) && (plan.prerelease ==> s.latest != Some(id)))
      ensures r.Ok? ==> id in s.releases && r.value == s.releases[id]
      ensures reliable && id in old(s.releases) ==> r.Ok?
    {
      var before := Fails();
      if before || id !in s.releases {
        return Err(Rejected);
      }
      var other: Option<Id> := *;
      if other == Some(id) {
        other := None;
      }
      s := DoPublish(s, plan, id, other);
      var after := Fails();
      return if after then Err(OutcomeUnknown) else Ok(s.releases[id]);
    }

    // ----- Checks

    /** The tag may only have been moved by this plan; the lease is always the original ref. */
    method CheckLease(promoted: bool) returns (r: Result<Option<Sha>, Failure>)
      requires ValidPlan(plan)
      ensures r.Ok? ==> r.value == plan.Lease() && LeaseHolds(plan, s, promoted)
      ensures reliable && LeaseHolds(plan, s, promoted) ==> r.Ok?
    {
      var actual :- GetTag();
      if (if actual.Some? then Some(actual.value.refSha) else None) == plan.Lease() {
        if plan.original.Some? && actual.value.commit != plan.original.value.tag.commit {
          return Err(OriginalTagCommitChanged);
        }
        return Ok(plan.Lease());
      }
      var own := Events(s.journal, ByTagIntent);
      EventsSelect(s.journal, ByTagIntent);
      if !(promoted && actual == Some(TagRef(plan.commit, plan.commit)) && own != [] && own[|own| - 1].action.lease == plan.Lease()) {
        return Err(RemoteTagChanged);
      }
      return Ok(plan.Lease());
    }

    method FindRelease() returns (r: Result<Option<Release>, Failure>)
      requires ValidPlan(plan) && Inv(plan, s)
      ensures r.Ok? && r.value.Some? ==> Tagged(plan, s.releases, r.value.value.id) && s.releases[r.value.value.id] == r.value.value
      ensures r.Ok? && r.value.None? ==> plan.original.None? && forall i :: !Tagged(plan, s.releases, i)
      ensures reliable ==> r.Ok?
    {
      hide Inv, Settled;
      InvIds(plan, s);
      InvRelease(plan, s);
      var known := Events(s.journal, ByCreated);
      RecordedRelease(plan, s);
      var found: Option<Release>;
      if plan.original.None? && known != [] {
        found :- GetRelease(known[|known| - 1].action.id);
        if found.None? {
          return Err(OwnedReleaseDisappeared);
        }
      } else {
        found :- GetPublished();
        if found.None? && plan.original.None? {
          var candidates :- ListTagged();
          if candidates != {} {
            var i :| i in candidates;
            if candidates != {i} {
              return Err(AmbiguousReleases);
            }
            found := Some(s.releases[i]);
          }
        }
      }
      assert found.Some? ==> Tagged(plan, s.releases, found.value.id) && s.releases[found.value.id] == found.value;
      if plan.original.Some? {
        assert Tagged(plan, s.releases, plan.original.value.releaseId);
        if !(found.Some? && found.value.id == plan.original.value.releaseId && found.value.tagName == plan.tag) {
          return Err(OriginalReleaseChanged);
        }
      } else if found.Some? {
        OwnReleaseAccepted(plan, s, found.value);
        var ok, error := CheckOwnRelease(found.value, known);
        if !ok {
          return Err(error);
        }
      }
      return Ok(found);
    }

    /** A release with the plan's tag is taken over only if the journal announced exactly it. */
    method CheckOwnRelease(release: Release, known: seq<Entry>) returns (ok: bool, error: Failure)
      requires known == Events(s.journal, ByCreated) && (known != [] ==> known[|known| - 1].action.Created?)
      ensures ok <==>
              && Events(s.journal, ByCreateIntent) != [] && release.tagName == plan.tag && release.target == plan.commit
              && release.body == plan.notes && release.prerelease == plan.prerelease
              && (if known != [] then release.id == known[|known| - 1].action.id
                  else release.draft && Events(s.journal, ByCreateIntent)[0].at - 5 <= release.created)
    {
      var created := Events(s.journal, ByCreateIntent);
      if !(created != [] && release.tagName == plan.tag && release.target == plan.commit) {
        return false, ReleaseAlreadyExists;
      }
      if known != [] {
        if release.id != known[|known| - 1].action.id {
          return false, ReleaseIdChanged;
        }
        if !(release.body == plan.notes && release.prerelease == plan.prerelease) {
          return false, OwnedReleaseNotesChanged;
        }
      } else {
        if !(release.draft && release.prerelease == plan.prerelease && release.body == plan.notes) {
          return false, UnownedDraft;
        }
        if release.created < created[0].at - 5 {
          return false, DraftPredatesIntent;
        }
      }
      return true, OutcomeUnknown;
    }

    /** Accepts the release exactly when no asset, note or original was changed by anyone else. */
    method CheckOriginal(release: Release, current: map<Name, Asset>, progressed: bool) returns (ok: bool, error: Failure)
      requires ValidPlan(plan) && Listing(current, s.assets) && IdsAndNamesUnique(s.assets)
      ensures ok <==> OriginalAccepted(plan, s.journal, s.assets, release, progressed)
    {
      hide NameExpected, OldAccepted, Listing, IdsAndNamesUnique, PublishIntended;
      var expected := CheckNames(current);
      if !expected {
        return false, UnexpectedRemoteAsset;
      }
      if plan.original.None? {
        return true, OutcomeUnknown;
      }
      var original := plan.original.value;
      if !((release.body == original.body || (progressed && PublishIntended(s.journal) && release.body == plan.notes)) && !release.draft) {
        return false, OriginalNotesChanged;
      }
      for k := 0 to |original.order|
        invariant forall i :: 0 <= i < k ==> OldAccepted(plan, s.journal, s.assets, original.order[i], progressed)
      {
        ok, error := CheckOld(original.order[k], current, progressed);
        if !ok {
          return;
        }
      }
      return true, OutcomeUnknown;
    }

    method CheckNames(current: map<Name, Asset>) returns (ok: bool)
      requires Listing(current, s.assets)
      ensures ok <==> forall i :: i in s.assets ==> NameExpected(plan, s.journal, s.assets[i].name)
    {
      var allowed := (set n | n in plan.fps :: Pending(n))
                     + (set i | i in plan.Olds() :: Canonical(plan.Olds()[i].name))
                     + (set i | i in plan.Olds() :: Preserved(plan.Olds()[i].name))
                     + (set e | e in s.journal && e.action.PromoteIntent? :: e.action.name);
      AllowedNames(plan, s, current, allowed);
      ok := current.Keys <= allowed;
    }

    /** An original must still be there with its bytes, unless its deletion was intended. */
    method CheckOld(id: Id, current: map<Name, Asset>, progressed: bool) returns (ok: bool, error: Failure)
      requires id in plan.Olds() && Listing(current, s.assets) && IdsAndNamesUnique(s.assets)
      ensures ok <==> OldAccepted(plan, s.journal, s.assets, id, progressed)
    {
      var hits := set n | n in current && current[n].id == id;
      assert id in s.assets ==> s.assets[id].name in hits;
      if hits == {} {
        if !(progressed && DeleteIntended(s.journal, id)) {
          return false, OriginalAssetDisappeared;
        }
      } else {
        var n :| n in hits;
        var o := plan.Olds()[id];
        if !((n == Canonical(o.name) || (progressed && PreserveIntended(s.journal, id) && n == Preserved(o.name)))
             && Matches(current[n], o.fp)) {
          return false, OriginalAssetChanged;
        }
      }
      return true, OutcomeUnknown;
    }

    // ----- Announced mutations

    method CreateAnnounced() returns (r: Result<Release, Failure>)
      requires ValidPlan(plan) && Inv(plan, s) && plan.original.None? && forall i :: !Tagged(plan, s.releases, i)
      modifies `s
      ensures Inv(plan, s) && Grew(old(s), s) && s.assets == old(s.assets) && s.disk == old(s.disk)
      ensures r.Ok? ==> ReleaseRecorded(plan, s.journal, s.releases, r.value.id) && s.releases[r.value.id] == r.value
      ensures reliable ==> r.Ok?
    {
      hide Inv, Settled;
      var _ :- Record(CreateIntent);
      ghost var before := s;
      forall created | before.now - 5 <= created ensures Inv(plan, DoCreate(before, plan, created)) {
        CreateKeepsInv(plan, before, created);
      }
      var release :- PostRelease();
      var _ :- Record(Created(release.id));
      return Ok(release);
    }

    method UploadAnnounced(base: string, ghost id: Id) returns (r: Result<Asset, Failure>)
      requires ValidPlan(plan) && Inv(plan, s)
      requires base in plan.fps && NotUploaded(plan, s.assets, base) && ReleaseRecorded(plan, s.journal, s.releases, id)
      requires Backed(plan, s.disk, 1)
      modifies `s
      ensures Inv(plan, s) && Grew(old(s), s) && SameButAssets(old(s), s)
      ensures r.Ok? ==> old(s.nextId) !in old(s.assets) && s.assets == old(s.assets)[old(s.nextId) := r.value]
                        && r.value.id == old(s.nextId) && ReadyAs(plan, r.value, base)
      ensures reliable ==> r.Ok?
      ensures Spared(plan, old(s), s)
    {
      hide Inv, Settled, Backed, ReleaseRecorded, NotUploaded, MayLog, NameFree, Spared, ValidPlan;
      NextIsNew(plan, s);
      SparedSame(plan, s);
      SparedWith(plan, s, s.nextId);
      var fp := plan.fps[base];
      MayUploadNext(plan, s, base, fp.sha256);
      var _ :- Record(UploadIntent(Pending(base), fp.sha256));
      PendingFree(plan, s, base);
      ghost var before := s;
      RecordedStays(plan, old(s), s, id);
      forall found, complete, created | before.now - 5 <= created && (complete ==> found == fp)
        ensures Inv(plan, DoUpload(before, Pending(base), found, complete, created)) {
        UploadKeepsInv(plan, before, base, found, complete, created, id);
      }
      r := PostAsset(Pending(base), fp);
    }

    method DeleteUnfinished(a: Asset) returns (r: Result<(), Failure>)
      requires ValidPlan(plan) && Inv(plan, s)
      requires a.id in s.assets && s.assets[a.id] == a && a.id !in plan.Olds() && !a.uploaded && a.created + 300 <= s.now
      modifies `s
      ensures Inv(plan, s) && Grew(old(s), s) && SameButAssets(old(s), s)
      ensures r.Ok? ==> s.assets == old(s.assets) - {a.id}
      ensures r.Ok? ==> Receipt(UnfinishedDeleted) in s.Acts()
      ensures reliable ==> r.Ok?
      ensures Spared(plan, old(s), s)
    {
      hide Inv, Settled, ValidPlan, MayLog, Spared;
      SparedSame(plan, s);
      SparedWithout(plan, s, a.id);
      MayDeleteUnfinished(plan, s, a);
      MayReceipt(plan);
      var _ :- Record(UnfinishedDeleteIntent(a.id, a.name));
      DeleteUnfinishedKeepsInv(plan, s, a.id);
      var _ :- DeleteRemote(a.id);
      var _ :- Record(Receipt(UnfinishedDeleted));
      return Ok(());
    }

    method PreserveAnnounced(id: Id) returns (r: Result<(), Failure>)
      requires ValidPlan(plan) && Inv(plan, s)
      requires id in plan.Olds() && id in s.assets && s.assets[id].name.Canonical?
      modifies `s
      ensures Inv(plan, s) && Grew(old(s), s) && SameButAssets(old(s), s)
      ensures r.Ok? ==> s.assets == old(s.assets)[id := old(s.assets[id]).(name := plan.PreservedName(id))]
      ensures reliable ==> r.Ok?
    {
      hide Inv, Settled;
      InvAsset(plan, s, id);
      PreserveNameFree(plan, s, id);
      var _ :- Record(PreserveIntent(id, plan.PreservedName(id)));
      PreserveKeepsInv(plan, s, id);
      var renamed :- PatchAsset(id, plan.PreservedName(id));
      if !(renamed.id == id && renamed.name == plan.PreservedName(id) && Matches(renamed, plan.Olds()[id].fp)) {
        return Err(OriginalAssetChanged);
      }
      return Ok(());
    }

    method PromoteAnnounced(a: Asset, base: string) returns (r: Result<(), Failure>)
      requires ValidPlan(plan) && Inv(plan, s)
      requires a.id in s.assets && s.assets[a.id] == a && a.id !in plan.Olds() && a.name == Pending(base)
      requires base in plan.fps && Matches(a, plan.fps[base]) && NameFree(s, Canonical(base))
      modifies `s
      ensures Inv(plan, s) && Grew(old(s), s) && SameButAssets(old(s), s)
      ensures r.Ok? ==> s.assets == old(s.assets)[a.id := a.(name := Canonical(base))]
      ensures r.Ok? ==> Receipt(Promoted) in s.Acts()
      ensures reliable ==> r.Ok?
    {
      hide Inv, Settled, ValidPlan, MayLog;
      MayPromote(plan, s, a, base);
      MayReceipt(plan);
      var _ :- Record(PromoteIntent(a.id, Canonical(base)));
      PromoteKeepsInv(plan, s, a.id, base);
      var promoted :- PatchAsset(a.id, Canonical(base));
      if !(promoted.id == a.id && promoted.name == Canonical(base) && Matches(promoted, plan.fps[base])) {
        return Err(StagedAssetMismatch);
      }
      var _ :- Record(Receipt(Promoted));
      return Ok(());
    }

    method PublishAnnounced(release: Release) returns (r: Result<Release, Failure>)
      requires ValidPlan(plan) && Inv(plan, s) && ReleaseRecorded(plan, s.journal, s.releases, release.id)
      requires plan.original.Some? ==> METADATA in s.disk
      modifies `s
      ensures Inv(plan, s) && Grew(old(s), s) && s.assets == old(s.assets) && s.tag == old(s.tag) && s.disk == old(s.disk)
      ensures r.Ok? ==> Published(plan, s.releases, release.id) && LatestKnown(release.id)
      ensures r.Ok? ==> r.value.id == release.id && r.value == s.releases[release.id]
      ensures reliable ==> r.Ok?
    {
      hide Inv, Settled;
      InvIds(plan, s);
      var _ :- Record(PublishIntent(release.id, plan.notes));
      LogGrows(old(s.journal), s.journal[|s.journal| - 1]);
      ghost var before := s;
      forall other ensures Inv(plan, DoPublish(before, plan, release.id, other)) {
        PublishKeepsInv(plan, before, release.id, other);
      }
      r := PatchRelease(release.id);
    }

    /** Whether the release is shown as the latest exactly when it is a stable one. */
    ghost predicate LatestKnown(id: Id)
      reads `s
    {
      plan.prerelease <==> s.latest != Some(id)
    }

    method DeleteAnnounced(id: Id) returns (r: Result<(), Failure>)
      requires ValidPlan(plan) && Inv(plan, s) && Settled(plan, s.assets, s.tag, s.releases, s.disk) && id in plan.Olds() && id in s.assets
      modifies `s
      ensures Inv(plan, s) && Grew(old(s), s) && SameButAssets(old(s), s)
      ensures r.Ok? ==> s.assets == old(s.assets) - {id} && Settled(plan, s.assets, s.tag, s.releases, s.disk) && Arranged(plan, s.assets)
      ensures r.Ok? ==> Receipt(DeletedOriginal) in s.Acts()
      ensures reliable ==> r.Ok?
    {
      hide Inv, Settled, ValidPlan, Published, Backed, MayLog;
      MayDelete(plan, s, id);
      MayReceipt(plan);
      var _ :- Record(DeleteIntent(id, plan.PreservedName(id)));
      DeleteOriginalKeepsInv(plan, s, id);
      StaysSettled(plan, s, id);
      var _ :- DeleteRemote(id);
      var _ :- Record(Receipt(DeletedOriginal));
      return Ok(());
    }

    method MoveTagAnnounced(lease: Option<Sha>) returns (r: Result<(), Failure>)
      requires ValidPlan(plan) && Inv(plan, s) && lease == plan.Lease()
      modifies `s
      ensures Inv(plan, s) && Grew(old(s), s)
      ensures s.assets == old(s.assets) && s.releases == old(s.releases) && s.latest == old(s.latest) && s.disk == old(s.disk)
      ensures r.Ok? ==> s.tag == Some(TagRef(plan.commit, plan.commit))
      ensures reliable && old(s.tag) == plan.OldTag() ==> r.Ok?
    {
      hide Inv, Settled;
      var _ :- Record(TagIntent(lease, plan.commit));
      MoveTagKeepsInv(plan, s);
      r := PushTag(plan.commit, lease);
    }

    // ----- Backup

    /** Writes the download file; an interrupted transfer leaves nothing or any bytes there. */
    method Download(id: Id, fp: Fingerprint, temporary: string) returns (r: Result<(), Failure>)
      modifies `s
      ensures s == old(s) || (temporary in s.disk && s == old(s).(disk := old(s.disk)[temporary := s.disk[temporary]]))
      ensures r.Ok? ==> temporary in s.disk && s.disk[temporary] == Blob(fp)
      ensures reliable && !Trips(id) && id in old(s.assets) && Matches(old(s.assets[id]), fp) ==> r.Ok?
      ensures reliable && Trips(id) && id in old(s.assets) ==> r.Err? && s == old(s).(disk := old(s.disk)[temporary := Blob(broken.value.1)])
    {
      var before := Fails();
      if before || id !in s.assets {
        return Err(OutcomeUnknown);
      }
      var got: Fingerprint := *;
      var torn := Fails();
      if Trips(id) {
        got := broken.value.1;
        torn := true;
      } else if !torn {
        got := s.assets[id].fp;
      }
      s := s.(disk := s.disk[temporary := Blob(got)]);
      return if torn || got != fp then Err(OutcomeUnknown) else Ok(());
    }

    predicate Trips(id: Id) {
      broken.Some? && broken.value.0 < |plan.OldOrder()| && plan.OldOrder()[broken.value.0] == id
    }

    ghost predicate Faultless() {
      reliable && broken.None?
    }

    /** Replaces any earlier unfinished download, and moves a checked one into place. */
    method Fetch(id: Id, name: string, fp: Fingerprint) returns (r: Result<(), Failure>)
      modifies `s
      ensures s == old(s).(disk := s.disk)
      ensures r.Ok? ==> s.disk == (old(s.disk) - {name + INCOMPLETE})[name := Blob(fp)]
      ensures r.Err? ==> SameExcept(old(s.disk), s.disk, name + INCOMPLETE)
      ensures reliable && !Trips(id) && id in old(s.assets) && Matches(old(s.assets[id]), fp) ==> r.Ok?
      ensures reliable && Trips(id) && id in old(s.assets) ==> r.Err? && s.disk == old(s.disk)[name + INCOMPLETE := Blob(broken.value.1)]
    {
      var temporary := name + INCOMPLETE;
      if temporary in s.disk {
        s := s.(disk := s.disk - {temporary});
      }
      var fetched := Download(id, fp, temporary);
      if fetched.Err? || s.disk[temporary] != Blob(fp) {
        return Err(BackupChanged);
      }
      s := s.(disk := (s.disk - {temporary})[name := s.disk[temporary]]);
      return Ok(());
    }

    /** Fetches original `k`, which is missing. */
    method FetchOriginal(k: nat) returns (r: Result<(), Failure>)
      requires ValidPlan(plan) && Inv(plan, s) && plan.original.Some? && k < |plan.OldOrder()|
      requires METADATA in s.disk && plan.OldNames()[k] !in s.disk
      modifies `s
      ensures Inv(plan, s) && s == old(s).(disk := s.disk) && METADATA in s.disk
      ensures r.Ok? ==> s.disk == Moved(old(s.disk), plan.OldNames()[k], plan.OldFps()[k])
      ensures r.Err? ==> SameExcept(old(s.disk), s.disk, plan.OldNames()[k] + INCOMPLETE)
      ensures reliable && !Trips(plan.OldOrder()[k]) && plan.OldOrder()[k] in old(s.assets) ==> r.Ok?
      ensures reliable && Trips(plan.OldOrder()[k]) && plan.OldOrder()[k] in old(s.assets) ==>
        r.Err? && s.disk == old(s.disk)[plan.OldNames()[k] + INCOMPLETE := Blob(broken.value.1)]
    {
      hide Inv, Settled;
      NamesAreDistinct(plan);
      var id := plan.OldOrder()[k];
      ghost var start := s;
      InvOriginal(plan, s, id);
      r := Fetch(id, plan.OldNames()[k], plan.OldFps()[k]);
      if r.Ok? {
        MoveKeepsInv(plan, start, k);
      } else {
        DownloadKeepsInv(plan, start, k, s.disk);
      }
    }

    /** Saves original `k`, or finds it saved. */
    method SaveOriginal(k: nat, ghost level: nat) returns (r: Result<(), Failure>)
      requires ValidPlan(plan) && Inv(plan, s) && plan.original.Some? && k < |plan.OldOrder()| && METADATA in s.disk
      requires PassedTo(s.disk, plan.OldNames(), plan.OldFps(), level, k)
      modifies `s
      ensures Inv(plan, s) && s == old(s).(disk := s.disk) && METADATA in s.disk
      ensures r.Ok? ==> PassedTo(s.disk, plan.OldNames(), plan.OldFps(), level, k + 1)
      ensures Faultless() && SafeNames(plan.OldNames()) ==> r.Ok?
      ensures reliable && Trips(plan.OldOrder()[k]) && plan.OldNames()[k] !in old(s.disk) && OriginalsThere(plan, s.assets) ==>
        r.Err? && s.disk == old(s.disk)[plan.OldNames()[k] + INCOMPLETE := Blob(broken.value.1)]
      ensures reliable && !Trips(plan.OldOrder()[k]) && OriginalsThere(plan, s.assets) ==>
        var one := BackupOne(old(s.disk), plan.OldNames()[k], plan.OldFps()[k]);
        (r.Ok? <==> one.Some?) && (r.Ok? ==> s.disk == one.value)
      ensures forall i :: k <= i < |plan.OldNames()| && Blocked(old(s.disk), plan.OldNames(), plan.OldFps(), i) ==>
        Blocked(s.disk, plan.OldNames(), plan.OldFps(), i) && (i == k ==> r.Err?)
    {
      hide Inv, Settled, PassedTo, SafeNames, Blocked, SameExcept;
      NamesAreDistinct(plan);
      SaveFacts(plan, s, k, level);
      var name, fp := plan.OldNames()[k], plan.OldFps()[k];
      if name !in s.disk {
        r := FetchOriginal(k);
        SavedFacts(plan, old(s), s.disk, r.Ok?, k);
        if r.Err? {
          return;
        }
      }
      if s.disk[name] != Blob(fp) {
        return Err(BackupChanged);
      }
      return Ok(());
    }

    /** A backup that succeeds from a directory with the originals below `level` gains a level. */
    method Backup(release: Release, ghost level: nat) returns (r: Result<(), Failure>)
      requires ValidPlan(plan) && Inv(plan, s) && (level > 0 ==> Backed(plan, s.disk, level))
      requires Tagged(plan, s.releases, release.id) && s.releases[release.id] == release
      modifies `s
      ensures Inv(plan, s) && SameButDisk(old(s), s) && Grew(old(s), s)
      ensures r.Ok? ==> Backed(plan, s.disk, level + 1)
      ensures r.Ok? && plan.original.Some? ==> Receipt(BackedUp) in s.Acts()
      ensures Faultless() && old(CanBackUp(plan, s)) ==> r.Ok?
      ensures Faultless() && old(OriginalsThere(plan, s.assets)) && r.Ok? ==> Some(s.disk) == Pass(plan, old(s.disk))
      ensures reliable && old(OriginalsThere(plan, s.assets)) && BreaksOff(old(s.disk)) ==> r.Err? && s.disk == BrokenOff(old(s.disk))
      ensures Jammed(plan, old(s.disk)) ==> r.Err? && Jammed(plan, s.disk)
    {
      hide Inv, Settled, PassedTo, Blocked, SafeNames, HeldBelow, Started, BackupTo, Interrupted;
      StartedAgain(plan, s.disk);
      if plan.original.None? {
        return Ok(());
      }
      PassStarts(plan, s, level);
      r := StartBackup(release);
      if r.Err? {
        return;
      }
      r := SaveOriginals(level);
      if r.Err? {
        return;
      }
      PassGainsALevel(s.disk, plan.OldNames(), plan.OldFps(), level);
      r := Record(Receipt(BackedUp));
    }

    method StartBackup(release: Release) returns (r: Result<(), Failure>)
      requires ValidPlan(plan) && Inv(plan, s) && plan.original.Some?
      requires Tagged(plan, s.releases, release.id) && s.releases[release.id] == release
      modifies `s
      ensures Inv(plan, s) && s == old(s).(disk := s.disk)
      ensures r.Ok? ==> s.disk == Started(plan, old(s.disk)) && METADATA in s.disk
      ensures r.Err? ==> s.disk == old(s.disk)
      ensures reliable ==> r.Ok?
    {
      hide Inv, Settled;
      var original := plan.original.value;
      if METADATA !in s.disk {
        var before := Fails();
        if before {
          return Err(OutcomeUnknown);
        }
        MetadataMayBeWritten(plan, s, release);
        s := s.(disk := s.disk[METADATA := Metadata(release.body, release.id)]);
      }
      InvMetadata(plan, s);
      if s.disk[METADATA] != Metadata(original.body, original.releaseId) {
        return Err(BackupChanged);
      }
      return Ok(());
    }

    /** The backup gets to the download that breaks off. */
    ghost predicate BreaksOff(disk: Disk) {
      && plan.original.Some? && broken.Some? && broken.value.0 < |plan.OldNames()|
      && Interrupted(plan, disk, broken.value.0, broken.value.1).Some?
    }

    ghost function BrokenOff(disk: Disk): Disk
      requires BreaksOff(disk)
    {
      Interrupted(plan, disk, broken.value.0, broken.value.1).value
    }

    method SaveOriginals(ghost level: nat) returns (r: Result<(), Failure>)
      requires ValidPlan(plan) && Inv(plan, s) && plan.original.Some? && METADATA in s.disk
      requires PassedTo(s.disk, plan.OldNames(), plan.OldFps(), level, 0)
      modifies `s
      ensures Inv(plan, s) && s == old(s).(disk := s.disk) && METADATA in s.disk
      ensures r.Ok? ==> PassedTo(s.disk, plan.OldNames(), plan.OldFps(), level, |plan.OldNames()|)
      ensures Faultless() && SafeNames(plan.OldNames()) ==> r.Ok?
      ensures reliable && OriginalsThere(plan, s.assets) && BreaksOff(old(s.disk)) ==> r.Err? && s.disk == BrokenOff(old(s.disk))
      ensures Faultless() && OriginalsThere(plan, s.assets) ==>
        var all := BackupTo(old(s.disk), plan.OldNames(), plan.OldFps(), |plan.OldNames()|);
        (r.Ok? <==> all.Some?) && (r.Ok? ==> s.disk == all.value)
      ensures forall i :: 0 <= i < |plan.OldNames()| && Blocked(old(s.disk), plan.OldNames(), plan.OldFps(), i) ==>
        Blocked(s.disk, plan.OldNames(), plan.OldFps(), i) && r.Err?
    {
      hide Inv, Settled, PassedTo, Blocked, SafeNames, BackupOne, BackupTo, OriginalsThere, Interrupted, ValidPlan;
      ghost var j := if broken.Some? then broken.value.0 else 0;
      OrderIsDistinct(plan);
      PassFrom(plan, s.disk, j, if broken.Some? then broken.value.1 else Fingerprint(0, ""));
      var names, fps := plan.OldNames(), plan.OldFps();
      for k := 0 to |names|
        invariant Inv(plan, s) && s == old(s).(disk := s.disk) && METADATA in s.disk
        invariant PassedTo(s.disk, names, fps, level, k)
        invariant reliable && OriginalsThere(plan, s.assets) && !(broken.Some? && broken.value.0 < k) ==> BackupTo(old(s.disk), names, fps, k) == Some(s.disk)
        invariant reliable && OriginalsThere(plan, s.assets) && BreaksOff(old(s.disk)) ==> k <= broken.value.0
        invariant forall i :: 0 <= i < |names| && Blocked(old(s.disk), names, fps, i) ==> k <= i && Blocked(s.disk, names, fps, i)
      {
        BackupNext(old(s.disk), names, fps, k);
        r := SaveOriginal(k, level);
        if r.Err? {
          FailsBefore(old(s.disk), names, fps, k + 1, |names|);
          if k + 1 <= j <= |names| {
            FailsBefore(old(s.disk), names, fps, k + 1, j);
          }
          return;
        }
      }
      return Ok(());
    }

    // ----- Stage

    /** Whether a pending asset can be used as it is, or has to be and may be removed.  Only one that
        the journal announced counts, and an unfinished one only after five minutes. */
    method CheckCandidate(base: string, a: Asset) returns (r: Result<bool, Failure>)
      requires base in plan.fps
      ensures var intents := Events(s.journal, ByUploadIntent(Pending(base)));
              var owned := intents != [] && intents[0].at - 5 <= a.created;
              && (r == Ok(true) <==> owned && Matches(a, plan.fps[base]))
              && (r == Ok(false) <==> owned && !a.uploaded && a.created + 300 <= s.now)
              && (r == Err(PendingUncertain) <==> owned && !Matches(a, plan.fps[base]) && (a.uploaded || s.now < a.created + 300))
              && (r == Err(UnownedPendingAsset) <==> intents == [])
              && (r == Err(PendingPredatesIntent) <==> intents != [] && a.created < intents[0].at - 5)
    {
      var intents := Events(s.journal, ByUploadIntent(Pending(base)));
      if intents == [] {
        return Err(UnownedPendingAsset);
      }
      if a.created < intents[0].at - 5 {
        return Err(PendingPredatesIntent);
      }
      if Matches(a, plan.fps[base]) {
        return Ok(true);
      }
      if a.uploaded || s.now - a.created < 300 {
        return Err(PendingUncertain);
      }
      return Ok(false);
    }

    /** A complete upload under the pending name is kept; an unfinished one is removed once it is old enough. */
    method ClearCandidate(base: string, a: Asset) returns (r: Result<bool, Failure>)
      requires ValidPlan(plan) && Inv(plan, s) && base in plan.fps
      requires a.id in s.assets && s.assets[a.id] == a && a.name == Pending(base)
      modifies `s
      ensures Inv(plan, s) && Grew(old(s), s) && SameButAssets(old(s), s)
      ensures r.Ok? && r.value ==> s == old(s) && Ready(plan, s.assets, base)
      ensures r.Ok? && !r.value ==> !a.uploaded && s.assets == old(s.assets) - {a.id}
      ensures a.id !in s.assets ==> a.created + 300 <= old(s.now)
      ensures !a.uploaded && old(s.now) < a.created + 300 ==> r == Err(PendingUncertain) && s == old(s)
      ensures reliable && old(Aged(s)) ==> r.Ok?
      ensures a.uploaded ==> s == old(s)
      ensures Spared(plan, old(s), s)
    {
      hide Inv, Settled, Ready, Spared;
      SparedSame(plan, s);
      CandidateKnown(plan, s, a, base);
      var checked := CheckCandidate(base, a);
      if checked.Err? || checked.value {
        return checked;
      }
      var _ :- DeleteUnfinished(a);
      return Ok(false);
    }

    /** Leaves one complete upload of the asset, without ever making a second one. */
    method StageAsset(base: string, ghost id: Id) returns (r: Result<(), Failure>)
      requires ValidPlan(plan) && Inv(plan, s) && base in plan.fps && ReleaseRecorded(plan, s.journal, s.releases, id)
      requires Backed(plan, s.disk, 1)
      modifies `s
      ensures Inv(plan, s) && Grew(old(s), s) && SameButAssets(old(s), s)
      ensures r.Ok? ==> Ready(plan, s.assets, base) && ReadyStays(plan, old(s.assets), s.assets)
      ensures reliable && local == plan.fps && old(Aged(s)) ==> r.Ok? && Aged(s)
      ensures old(Ready(plan, s.assets, base)) ==> SameRemote(old(s), s)
      ensures Spared(plan, old(s), s)
    {
      hide Inv, Settled, ValidPlan, Ready, ReleaseRecorded;
      InvIds(plan, s);
      var current :- Assets();
      var canonical := Lookup(current, Canonical(base));
      if canonical.Some? && Matches(canonical.value, plan.fps[base]) && PromoteIntended(s.journal, canonical.value.id) {
        PromotedIsReady(plan, s, canonical.value, base);
        return Ok(());
      }
      StagedIsReady(plan, s, current, base);
      r := StageCandidate(base, current, id);
    }

    method StageCandidate(base: string, current: map<Name, Asset>, ghost id: Id) returns (r: Result<(), Failure>)
      requires ValidPlan(plan) && Inv(plan, s) && base in plan.fps && ReleaseRecorded(plan, s.journal, s.releases, id)
      requires Backed(plan, s.disk, 1) && Listing(current, s.assets)
      requires var c := Lookup(current, Canonical(base));
               !(c.Some? && Matches(c.value, plan.fps[base]) && PromoteIntended(s.journal, c.value.id))
      modifies `s
      ensures Inv(plan, s) && Grew(old(s), s) && SameButAssets(old(s), s)
      ensures r.Ok? ==> Ready(plan, s.assets, base) && ReadyStays(plan, old(s.assets), s.assets)
      ensures r.Ok? ==> Receipt(Staged) in s.Acts()
      ensures reliable && local == plan.fps && old(Aged(s)) ==> r.Ok? && Aged(s)
      ensures var c := Lookup(current, Pending(base));
              c.Some? && Matches(c.value, plan.fps[base]) ==> SameRemote(old(s), s)
      ensures Spared(plan, old(s), s)
    {
      hide Inv, Settled, ValidPlan, Ready, ReleaseRecorded, MayLog, Backed, PromoteIntended, Spared;
      MayReceipt(plan);
      SparedSame(plan, s);
      InvIds(plan, s);
      NothingElseUploaded(plan, s, current, base);
      var candidate := Lookup(current, Pending(base));
      if candidate.Some? {
        var complete :- ClearCandidate(base, candidate.value);
        if complete {
          r := Record(Receipt(Staged));
          return;
        }
        DeleteLeavesNothing(plan, old(s.assets), candidate.value, base);
        RecordedStays(plan, old(s), s, id);
      }
      ghost var cleared := s;
      r := UploadMissing(base, id);
      SparedJoin(plan, old(s), cleared, s);
    }

    method UploadMissing(base: string, ghost id: Id) returns (r: Result<(), Failure>)
      requires ValidPlan(plan) && Inv(plan, s) && base in plan.fps && NotUploaded(plan, s.assets, base)
      requires ReleaseRecorded(plan, s.journal, s.releases, id) && Backed(plan, s.disk, 1)
      modifies `s
      ensures Inv(plan, s) && Grew(old(s), s) && SameButAssets(old(s), s)
      ensures r.Ok? ==> Ready(plan, s.assets, base) && ReadyStays(plan, old(s.assets), s.assets)
      ensures r.Ok? ==> Receipt(Staged) in s.Acts()
      ensures !(base in local && local[base] == plan.fps[base]) ==> r == Err(AssetBytesChanged) && s == old(s)
      ensures reliable && local == plan.fps && old(Aged(s)) ==> r.Ok? && Aged(s)
      ensures Spared(plan, old(s), s)
    {
      hide Inv, Settled, Backed;
      if !(base in local && local[base] == plan.fps[base]) {
        return Err(AssetBytesChanged);
      }
      var added :- UploadAnnounced(base, id);
      UploadLeavesReady(plan, old(s.assets), added, base);
      if !Matches(added, plan.fps[base]) {
        return Err(StagedAssetMismatch);
      }
      r := Record(Receipt(Staged));
    }

    method EnsureRelease() returns (r: Result<Release, Failure>)
      requires ValidPlan(plan) && Inv(plan, s)
      modifies `s
      ensures Inv(plan, s) && Grew(old(s), s) && s.assets == old(s.assets) && s.disk == old(s.disk)
      ensures r.Ok? ==> ReleaseRecorded(plan, s.journal, s.releases, r.value.id) && s.releases[r.value.id] == r.value
      ensures reliable ==> r.Ok?
      ensures (exists i :: Tagged(plan, old(s.releases), i)) ==> SameRemote(old(s), s)
    {
      hide Inv, Settled;
      RecordedRelease(plan, s);
      var found :- FindRelease();
      if found.None? {
        r := CreateAnnounced();
        return;
      }
      RecordedIsFound(plan, s, found.value.id);
      if plan.original.None? && Events(s.journal, ByCreated) == [] {
        var _ :- Record(Created(found.value.id));
      }
      return Ok(found.value);
    }

    /** Afterwards every planned asset is uploaded once, completely, and the originals are backed up. */
    method Stage() returns (r: Result<(), Failure>)
      requires ValidPlan(plan) && Inv(plan, s)
      modifies `s
      ensures Inv(plan, s) && Grew(old(s), s)
      ensures r.Ok? ==> AllReady(plan, s) && Backed(plan, s.disk, 1)
      ensures Faultless() && local == plan.fps && old(Aged(s)) && old(CanBackUp(plan, s)) ==> r.Ok?
      ensures Faultless() && old(OriginalsThere(plan, s.assets)) && r.Ok? ==> Some(s.disk) == Pass(plan, old(s.disk))
      ensures reliable && old(OriginalsThere(plan, s.assets)) && BreaksOff(old(s.disk)) ==>
        r.Err? && s.disk == BrokenOff(old(s.disk)) && SameRemote(old(s), s)
      ensures old(AllReady(plan, s)) ==> SameRemote(old(s), s)
      ensures Jammed(plan, old(s.disk)) ==> r.Err? && SameRemote(old(s), s) && Jammed(plan, s.disk)
      ensures Spared(plan, old(s), s)
      ensures (exists i :: i in old(s.assets) && !old(s.assets)[i].uploaded && s.now < old(s.assets)[i].created + 300) ==> r.Err?
    {
      hide Inv, Settled, Jammed, Pass, Backed, OriginalsThere, SafeNames, AllReady, Aged, BrokenOff, CanBackUp, ReleaseRecorded, Interrupted;
      ReadyNeedsRelease(plan, s);
      OriginalHasRelease(plan, s);
      StageReads(plan, old(s));
      var release :- Prepare();
      ghost var recorded := s;
      SameCanBackUp(plan, old(s), s);
      RecordedIsTagged(plan, s, release.id);
      var _ :- Backup(release, 0);
      RecordedStays(plan, recorded, s, release.id);
      r := StageAll(release.id);
      if i :| i in old(s.assets) && !old(s.assets)[i].uploaded && s.now < old(s.assets)[i].created + 300 {
        UnfinishedIsNotReady(plan, s, i);
      }
    }

    /** The checks before anything is backed up or uploaded; creates the release if there is none. */
    method Prepare() returns (r: Result<Release, Failure>)
      requires ValidPlan(plan) && Inv(plan, s)
      modifies `s
      ensures Inv(plan, s) && Grew(old(s), s) && s.assets == old(s.assets) && s.disk == old(s.disk)
      ensures r.Ok? ==> ReleaseRecorded(plan, s.journal, s.releases, r.value.id) && s.releases[r.value.id] == r.value
      ensures reliable ==> r.Ok?
      ensures (exists i :: Tagged(plan, old(s.releases), i)) ==> SameRemote(old(s), s)
    {
      hide Inv, Settled, OriginalAccepted, LeaseHolds;
      LeaseIsHeld(plan, s);
      var lease :- CheckLease(true);
      var release :- EnsureRelease();
      InvIds(plan, s);
      var current :- Assets();
      OwnStateAccepted(plan, s, release);
      var ok, error := CheckOriginal(release, current, true);
      if !ok {
        return Err(error);
      }
      return Ok(release);
    }

    method StageAll(ghost id: Id) returns (r: Result<(), Failure>)
      requires ValidPlan(plan) && Inv(plan, s) && ReleaseRecorded(plan, s.journal, s.releases, id)
      requires Backed(plan, s.disk, 1)
      modifies `s
      ensures Inv(plan, s) && Grew(old(s), s) && s.disk == old(s.disk)
      ensures r.Ok? ==> AllReady(plan, s)
      ensures reliable && local == plan.fps && old(Aged(s)) ==> r.Ok?
      ensures old(AllReady(plan, s)) ==> SameRemote(old(s), s)
      ensures Spared(plan, old(s), s)
    {
      hide Inv, Settled, Backed, Spared;
      SparedSame(plan, s);
      for k := 0 to |plan.order|
        invariant Inv(plan, s) && Grew(old(s), s) && ReleaseRecorded(plan, s.journal, s.releases, id)
        invariant forall i :: 0 <= i < k ==> Ready(plan, s.assets, plan.order[i])
        invariant s.disk == old(s.disk) && Spared(plan, old(s), s)
        invariant reliable && local == plan.fps && old(Aged(s)) ==> Aged(s)
        invariant old(AllReady(plan, s)) ==> SameRemote(old(s), s)
      {
        ghost var before := s;
        r := StageAsset(plan.order[k], id);
        SparedJoin(plan, old(s), before, s);
        if r.Err? {
          return;
        }
        RecordedStays(plan, before, s, id);
      }
      return Ok(());
    }

    // ----- Verify

    /** Succeeds, unless a request fails, exactly when the remote shows the plan. */
    method Verify(allowOriginals: bool) returns (r: Result<(), Failure>)
      requires ValidPlan(plan) && Inv(plan, s)
      modifies `s
      ensures Inv(plan, s) && Grew(old(s), s) && SameRemote(old(s), s) && s.disk == old(s.disk)
      ensures r.Ok? ==> Shown(plan, s, allowOriginals)
      ensures r.Ok? ==> Receipt(Verified) in s.Acts()
      ensures reliable && old(Shown(plan, s, allowOriginals)) ==> r.Ok?
    {
      hide Inv, Settled;
      InvIds(plan, s);
      var found :- FindRelease();
      ShownIsFound(plan, s, allowOriginals, found);
      if found.None? || found.value.draft {
        return Err(PublishedReleaseRequired);
      }
      var release := found.value;
      if release.prerelease != plan.prerelease {
        return Err(ReleaseStageMismatch);
      }
      if !(release.body == plan.notes && release.target == plan.commit) {
        return Err(NotesOrCommitMismatch);
      }
      var tag :- GetTag();
      if tag != Some(TagRef(plan.commit, plan.commit)) {
        return Err(ReleaseTagMismatch);
      }
      var latest :- GetLatest();
      if plan.prerelease == (latest == Some(release.id)) {
        return Err(LatestMismatch);
      }
      var _ :- VerifyAssets(allowOriginals);
      assert ShownAs(plan, s, allowOriginals, release.id);
      r := Record(Receipt(Verified));
      assert ShownAs(plan, s, allowOriginals, release.id);
    }

    method VerifyAssets(allowOriginals: bool) returns (r: Result<(), Failure>)
      requires ValidPlan(plan) && IdsKnown(plan, s.assets, s.releases, s.nextId)
      ensures r.Ok? ==> AssetsShown(plan, s.assets, allowOriginals)
      ensures reliable && AssetsShown(plan, s.assets, allowOriginals) ==> r.Ok?
    {
      hide AssetsShown, IdsKnown, Expected;
      IdsGiveIds(plan, s);
      var current :- Assets();
      var present := set n | n in current :: current[n].id;
      var expected := Expected(plan, present, allowOriginals);
      ShownByListing(plan, s, current, allowOriginals);
      if current.Keys != expected {
        return Err(AssetSetMismatch);
      }
      for k := 0 to |plan.order|
        invariant forall i :: 0 <= i < k ==> Canonical(plan.order[i]) in current && Matches(current[Canonical(plan.order[i])], plan.fps[plan.order[i]])
      {
        var n := plan.order[k];
        ExpectedHas(plan, present, allowOriginals, n);
        if !Matches(current[Canonical(n)], plan.fps[n]) {
          return Err(AssetHashMismatch);
        }
      }
      return Ok(());
    }

    // ----- Publish

    method PromoteTag() returns (r: Result<(), Failure>)
      requires ValidPlan(plan) && Inv(plan, s)
      modifies `s
      ensures Inv(plan, s) && Grew(old(s), s)
      ensures s.assets == old(s.assets) && s.releases == old(s.releases) && s.latest == old(s.latest) && s.disk == old(s.disk)
      ensures r.Ok? ==> s.tag == Some(TagRef(plan.commit, plan.commit))
      ensures r.Ok? ==> Receipt(TagPromoted) in s.Acts()
      ensures reliable ==> r.Ok?
      ensures old(s.tag) == Some(TagRef(plan.commit, plan.commit)) ==> SameRemote(old(s), s)
    {
      hide Inv, Settled;
      InvTag(plan, s);
      LeaseIsHeld(plan, s);
      var lease :- CheckLease(true);
      var actual :- GetTag();
      if !(actual.Some? && actual.value.refSha == plan.commit) {
        var _ :- MoveTagAnnounced(lease);
      }
      var after :- GetTag();
      if after != Some(TagRef(plan.commit, plan.commit)) {
        return Err(TagPromotionMismatch);
      }
      r := Record(Receipt(TagPromoted));
    }

    /** Originals that no planned asset replaces move to their preserved names. */
    method PreserveOthers() returns (r: Result<(), Failure>)
      requires ValidPlan(plan) && Inv(plan, s)
      modifies `s
      ensures Inv(plan, s) && Grew(old(s), s) && SameButAssets(old(s), s)
      ensures r.Ok? ==> Progress(plan, old(s.assets), s.assets) && OthersPreserved(plan, s.assets, |plan.OldOrder()|)
      ensures reliable ==> r.Ok?
      ensures (forall i :: i in plan.Olds() ==> i !in old(s.assets)) ==> SameRemote(old(s), s)
    {
      hide Inv, Settled, Progress;
      ProgressSame(plan, s.assets);
      for k := 0 to |plan.OldOrder()|
        invariant Inv(plan, s) && Grew(old(s), s) && SameButAssets(old(s), s) && Progress(plan, old(s.assets), s.assets)
        invariant OthersPreserved(plan, s.assets, k)
        invariant (forall i :: i in plan.Olds() ==> i !in old(s.assets)) ==> SameRemote(old(s), s)
      {
        ghost var before := s.assets;
        var _ :- PreserveOther(plan.OldOrder()[k]);
        ProgressJoins(plan, old(s.assets), before, s.assets);
        ProgressKeepsOthers(plan, before, s.assets, k);
      }
      return Ok(());
    }

    method PreserveOther(id: Id) returns (r: Result<(), Failure>)
      requires ValidPlan(plan) && Inv(plan, s) && id in plan.Olds()
      modifies `s
      ensures Inv(plan, s) && Grew(old(s), s) && SameButAssets(old(s), s)
      ensures r.Ok? ==> Progress(plan, old(s.assets), s.assets) && OtherPreserved(plan, s.assets, id)
      ensures reliable ==> r.Ok?
      ensures id !in old(s.assets) ==> SameRemote(old(s), s)
    {
      hide Inv, Settled, Progress;
      InvIds(plan, s);
      InvOriginal(plan, s, id);
      ProgressSame(plan, s.assets);
      var current :- Assets();
      var o := plan.Olds()[id];
      var actual := Lookup(current, Canonical(o.name));
      OnlyUnderItsName(plan, s, current, id);
      if o.name !in plan.fps && actual.Some? && actual.value.id == id {
        if !Matches(actual.value, o.fp) {
          return Err(OriginalAssetChanged);
        }
        var _ :- PreserveAnnounced(id);
        PreserveProgresses(plan, old(s.assets), id);
      }
      return Ok(());
    }

    /** Moves the upload to the planned name, after the original there has moved to its preserved name. */
    method PromoteAsset(base: string) returns (r: Result<(), Failure>)
      requires ValidPlan(plan) && Inv(plan, s) && base in plan.fps && Ready(plan, s.assets, base)
      modifies `s
      ensures Inv(plan, s) && Grew(old(s), s) && SameButAssets(old(s), s)
      ensures r.Ok? ==> Progress(plan, old(s.assets), s.assets) && InPlace(plan, s.assets, base)
      ensures reliable ==> r.Ok?
      ensures old(InPlace(plan, s.assets, base)) ==> SameRemote(old(s), s)
    {
      hide Inv, Settled, Progress, InPlace, Ready, ValidPlan;
      InvIds(plan, s);
      ProgressSame(plan, s.assets);
      var current :- Assets();
      var canonical := Lookup(current, Canonical(base));
      if canonical.Some? && Matches(canonical.value, plan.fps[base]) && PromoteIntended(s.journal, canonical.value.id) {
        PromotedIsReady(plan, s, canonical.value, base);
        return Ok(());
      }
      InPlaceIsListed(plan, s, current, base);
      var _ :- MakeRoom(base, current);
      ghost var before := s.assets;
      ProgressKeepsReady(plan, old(s.assets), before, base);
      var _ :- PromoteStaged(base);
      ProgressJoins(plan, old(s.assets), before, s.assets);
      return Ok(());
    }

    method MakeRoom(base: string, current: map<Name, Asset>) returns (r: Result<(), Failure>)
      requires ValidPlan(plan) && Inv(plan, s) && base in plan.fps && Listing(current, s.assets)
      requires var c := Lookup(current, Canonical(base));
               !(c.Some? && Matches(c.value, plan.fps[base]) && PromoteIntended(s.journal, c.value.id))
      modifies `s
      ensures Inv(plan, s) && Grew(old(s), s) && SameButAssets(old(s), s)
      ensures r.Ok? ==> Progress(plan, old(s.assets), s.assets) && NameFree(s, Canonical(base))
      ensures r.Ok? && Lookup(current, Canonical(base)).Some? ==> Receipt(OriginalPreserved) in s.Acts()
      ensures reliable ==> r.Ok?
    {
      hide Inv, Settled, Progress;
      var canonical := Lookup(current, Canonical(base));
      if canonical.Some? {
        CanonicalIsOriginal(plan, s, canonical.value, base);
        if !(canonical.value.id in plan.Olds() && Matches(canonical.value, plan.Olds()[canonical.value.id].fp)) {
          return Err(UnexpectedCanonicalAsset);
        }
        var _ :- PreserveAnnounced(canonical.value.id);
        var _ :- Record(Receipt(OriginalPreserved));
      }
      NameIsFree(plan, old(s), s, current, base);
      return Ok(());
    }

    method PromoteStaged(base: string) returns (r: Result<(), Failure>)
      requires ValidPlan(plan) && Inv(plan, s) && base in plan.fps && Ready(plan, s.assets, base) && NameFree(s, Canonical(base))
      modifies `s
      ensures Inv(plan, s) && Grew(old(s), s) && SameButAssets(old(s), s)
      ensures r.Ok? ==> Progress(plan, old(s.assets), s.assets) && InPlace(plan, s.assets, base)
      ensures reliable ==> r.Ok?
    {
      hide Inv, Settled, Progress;
      InvIds(plan, s);
      ProgressSame(plan, s.assets);
      var current :- Assets();
      var staged := Lookup(current, Pending(base));
      ReadyIsPending(plan, s, current, base);
      if staged.None? || !Matches(staged.value, plan.fps[base]) {
        return Err(StagedAssetDisappeared);
      }
      var _ :- PromoteAnnounced(staged.value, base);
      PromoteProgresses(plan, old(s.assets), staged.value, base);
      return Ok(());
    }

    method PromoteAll() returns (r: Result<(), Failure>)
      requires ValidPlan(plan) && Inv(plan, s) && AllReady(plan, s)
      modifies `s
      ensures Inv(plan, s) && Grew(old(s), s) && SameButAssets(old(s), s)
      ensures r.Ok? ==> Progress(plan, old(s.assets), s.assets) && forall n :: n in plan.fps ==> InPlace(plan, s.assets, n)
      ensures reliable ==> r.Ok?
      ensures (forall n :: n in plan.fps ==> InPlace(plan, old(s.assets), n)) ==> SameRemote(old(s), s)
    {
      hide Inv, Settled, Progress, InPlace, Ready;
      ProgressSame(plan, s.assets);
      for k := 0 to |plan.order|
        invariant Inv(plan, s) && Grew(old(s), s) && SameButAssets(old(s), s) && Progress(plan, old(s.assets), s.assets)
        invariant forall i :: 0 <= i < k ==> InPlace(plan, s.assets, plan.order[i])
        invariant (forall n :: n in plan.fps ==> InPlace(plan, old(s.assets), n)) ==> SameRemote(old(s), s)
      {
        ghost var before := s.assets;
        ProgressKeepsReady(plan, old(s.assets), before, plan.order[k]);
        var _ :- PromoteAsset(plan.order[k]);
        ProgressJoins(plan, old(s.assets), before, s.assets);
        ProgressKeepsInPlace(plan, before, s.assets);
      }
      return Ok(());
    }

    /** Publishes the planned notes, commit and stage, unless they are already shown. */
    method PublishNotes(release: Release) returns (r: Result<(), Failure>)
      requires ValidPlan(plan) && Inv(plan, s) && ReleaseRecorded(plan, s.journal, s.releases, release.id)
      requires s.releases[release.id] == release && (plan.original.Some? ==> METADATA in s.disk)
      modifies `s
      ensures Inv(plan, s) && Grew(old(s), s) && s.assets == old(s.assets) && s.tag == old(s.tag) && s.disk == old(s.disk)
      ensures r.Ok? ==> Published(plan, s.releases, release.id) && LatestKnown(release.id)
      ensures reliable ==> r.Ok?
      ensures old(Published(plan, s.releases, release.id) && LatestKnown(release.id)) ==> SameRemote(old(s), s)
    {
      hide Inv, Settled;
      InvIds(plan, s);
      if !release.draft && release.prerelease == plan.prerelease && release.body == plan.notes && release.target == plan.commit {
        var latest :- GetLatest();
        if plan.prerelease <==> latest != Some(release.id) {
          return Ok(());
        }
      }
      var updated :- PublishAnnounced(release);
      InvIds(plan, s);
      if !(updated.id == release.id && updated.body == plan.notes) {
        return Err(PublishedNotesMismatch);
      }
      return Ok(());
    }

    /** Removes the originals; everything the plan promises is in place by now. */
    method DeleteOriginals() returns (r: Result<(), Failure>)
      requires ValidPlan(plan) && Inv(plan, s) && Arranged(plan, s.assets)
      requires plan.original.Some? ==> Settled(plan, s.assets, s.tag, s.releases, s.disk)
      modifies `s
      ensures Inv(plan, s) && Grew(old(s), s) && SameButAssets(old(s), s)
      ensures r.Ok? ==> Arranged(plan, s.assets) && forall i :: i in plan.Olds() ==> i !in s.assets
      ensures reliable ==> r.Ok?
      ensures (forall i :: i in plan.Olds() ==> i !in old(s.assets)) ==> SameRemote(old(s), s)
    {
      hide Inv, Settled, Arranged, Without, Grew, SameButAssets, SameRemote;
      InvIds(plan, s);
      StepsJoin(s, s, s);
      var current :- Assets();
      WithoutNone(s.assets, plan.OldOrder());
      for k := 0 to |plan.OldOrder()|
        invariant Inv(plan, s) && Grew(old(s), s) && SameButAssets(old(s), s) && Arranged(plan, s.assets)
        invariant plan.original.Some? ==> Settled(plan, s.assets, s.tag, s.releases, s.disk)
        invariant s.assets == Without(old(s.assets), plan.OldOrder(), k)
        invariant (forall i :: i in plan.Olds() ==> i !in old(s.assets)) ==> SameRemote(old(s), s)
      {
        ghost var before := s;
        StepsJoin(old(s), before, before);
        WithoutNext(old(s.assets), plan.OldOrder(), k);
        r := DeleteOne(plan.OldOrder()[k], current, old(s.assets));
        StepsJoin(old(s), before, s);
        if r.Err? {
          return;
        }
      }
      WithoutAll(old(s.assets), plan.OldOrder());
      return Ok(());
    }

    method DeleteOne(id: Id, current: map<Name, Asset>, ghost start: map<Id, Asset>) returns (r: Result<(), Failure>)
      requires ValidPlan(plan) && Inv(plan, s) && id in plan.Olds() && Arranged(plan, s.assets)
      requires plan.original.Some? && Settled(plan, s.assets, s.tag, s.releases, s.disk)
      requires Listing(current, start) && IdsAndNamesUnique(start)
      requires (id in start <==> id in s.assets) && (id in start ==> start[id] == s.assets[id])
      modifies `s
      ensures Inv(plan, s) && Grew(old(s), s) && SameButAssets(old(s), s)
      ensures r.Ok? ==> s.assets == old(s.assets) - {id} && Arranged(plan, s.assets)
                        && Settled(plan, s.assets, s.tag, s.releases, s.disk)
      ensures reliable ==> r.Ok?
      ensures id !in old(s.assets) ==> SameRemote(old(s), s)
    {
      hide Inv, Settled, Arranged;
      var hits := set n | n in current && current[n].id == id;
      var canonicalIds := set m | m in plan.fps && Canonical(m) in current :: current[Canonical(m)].id;
      if id in s.assets {
        OldIsListed(start, current, id);
        assert start[id].name in hits;
        PreservedIsKnown(plan, s, id);
      }
      if hits == {} || id in canonicalIds {
        return Ok(());
      }
      var n :| n in hits;
      if !(n == plan.PreservedName(id) && Matches(current[n], plan.Olds()[id].fp)) {
        return Err(PreservedAssetChanged);
      }
      r := DeleteAnnounced(id);
    }

    /** Every planned asset must be uploaded under its pending name or promoted already. */
    method CheckStaged(current: map<Name, Asset>) returns (ok: bool)
      requires ValidPlan(plan) && Inv(plan, s) && Listing(current, s.assets)
      ensures ok <==> AllReady(plan, s)
    {
      hide Inv, Settled;
      for k := 0 to |plan.order|
        invariant forall i :: 0 <= i < k ==> Ready(plan, s.assets, plan.order[i])
      {
        var base := plan.order[k];
        var staged := Lookup(current, Pending(base));
        var canonical := Lookup(current, Canonical(base));
        StagedIsReady(plan, s, current, base);
        if !((staged.Some? && Matches(staged.value, plan.fps[base]))
             || (canonical.Some? && PromoteIntended(s.journal, canonical.value.id) && Matches(canonical.value, plan.fps[base]))) {
          return false;
        }
      }
      return true;
    }

    /** Afterwards the remote is exactly what the plan says. */
    method Publish(replace: bool) returns (r: Result<(), Failure>)
      requires ValidPlan(plan) && Inv(plan, s)
      modifies `s
      ensures Inv(plan, s) && Grew(old(s), s)
      ensures r.Ok? ==> Complete(plan, s)
      ensures Faultless() && replace == plan.original.Some? && old(AllReady(plan, s)) && old(CanBackUp(plan, s)) ==> r.Ok?
      ensures Faultless() && old(OriginalsThere(plan, s.assets)) && r.Ok? ==> Some(s.disk) == Pass(plan, old(s.disk))
      ensures old(Complete(plan, s)) ==> SameRemote(old(s), s)
      ensures Jammed(plan, old(s.disk)) ==> r.Err? && SameRemote(old(s), s) && Jammed(plan, s.disk)
      ensures replace != plan.original.Some? ==> r == Err(ExplicitModeRequired) && s == old(s)
    {
      hide Inv, Settled, Arranged, Complete, Backed, Jammed, OriginalsThere, Ready;
      CompleteStays(plan, s);
      OriginalHasRelease(plan, s);
      PassOfNone(plan, s.disk);
      ghost var level := if AllReady(plan, s) then 1 else 0;
      ReadyIsBacked(plan, s);
      if plan.original.Some? != replace {
        return Err(ExplicitModeRequired);
      }
      var found :- FindRelease();
      if found.None? {
        ReadyNeedsRelease(plan, s);
        return Err(StageRequired);
      }
      var release := found.value;
      InvIds(plan, s);
      var current :- Assets();
      OwnStateAccepted(plan, s, release);
      var ok, error := CheckOriginal(release, current, true);
      if !ok {
        return Err(error);
      }
      if replace {
        var _ :- Backup(release, level);
      }
      var staged := CheckStaged(current);
      if !staged {
        return Err(AllAssetsMustBeStaged);
      }
      ReadyIsRecorded(plan, s, release.id);
      NothingToBack(plan, s.disk);
      r := PublishStaged(release);
    }

    /** The remote changes of publishing, in the order that keeps every original until the end. */
    method PublishStaged(release: Release) returns (r: Result<(), Failure>)
      requires ValidPlan(plan) && Inv(plan, s) && AllReady(plan, s)
      requires ReleaseRecorded(plan, s.journal, s.releases, release.id) && s.releases[release.id] == release
      requires Backed(plan, s.disk, 2)
      modifies `s
      ensures Inv(plan, s) && Grew(old(s), s) && s.disk == old(s.disk)
      ensures r.Ok? ==> Complete(plan, s)
      ensures reliable ==> r.Ok?
      ensures old(Complete(plan, s)) ==> SameRemote(old(s), s)
    {
      hide Inv, Settled, Arranged, Complete, InPlace, Backed, Ready;
      if Complete(plan, s) {
        CompleteMeans(plan, s, release.id);
      }
      var _ :- PromoteTag();
      RecordedStays(plan, old(s), s, release.id);
      var _ :- Rearrange();
      RecordedStays(plan, old(s), s, release.id);
      r := Finish(release);
    }

    method Rearrange() returns (r: Result<(), Failure>)
      requires ValidPlan(plan) && Inv(plan, s) && AllReady(plan, s)
      modifies `s
      ensures Inv(plan, s) && Grew(old(s), s) && SameButAssets(old(s), s)
      ensures r.Ok? ==> Arranged(plan, s.assets)
      ensures reliable ==> r.Ok?
      ensures (forall i :: i in plan.Olds() ==> i !in old(s.assets)) && (forall n :: n in plan.fps ==> InPlace(plan, old(s.assets), n)) ==>
        SameRemote(old(s), s)
    {
      hide Inv, Settled, Arranged, Progress;
      var _ :- PreserveOthers();
      ghost var before := s.assets;
      forall n | n in plan.fps ensures Ready(plan, s.assets, n) {
        ProgressKeepsReady(plan, old(s.assets), before, n);
      }
      var _ :- PromoteAll();
      ProgressKeepsOthers(plan, before, s.assets, |plan.OldOrder()|);
      AllArranged(plan, s);
      return Ok(());
    }

    method Finish(release: Release) returns (r: Result<(), Failure>)
      requires ValidPlan(plan) && Inv(plan, s) && Arranged(plan, s.assets) && s.tag == Some(TagRef(plan.commit, plan.commit))
      requires ReleaseRecorded(plan, s.journal, s.releases, release.id) && s.releases[release.id] == release
      requires Backed(plan, s.disk, 2)
      modifies `s
      ensures Inv(plan, s) && Grew(old(s), s) && s.disk == old(s.disk)
      ensures r.Ok? ==> Complete(plan, s)
      ensures reliable ==> r.Ok?
      ensures old(Published(plan, s.releases, release.id) && LatestKnown(release.id)) && (forall i :: i in plan.Olds() ==> i !in old(s.assets)) ==>
        SameRemote(old(s), s)
    {
      GrewOn(s);
      hide Inv, Settled, Arranged, Published, AssetsShown, Shown, ShownAs, Grew;
      var _ :- PublishNotes(release);
      ArrangedIsShown(plan, s, true, release.id);
      var _ :- Verify(true);
      var _ :- DeleteOriginals();
      ArrangedIsShown(plan, s, false, release.id);
      var _ :- Verify(false);
      return Ok(());
    }
  }

  /** The remote shows exactly the plan, and no original is left. */
  ghost predicate Complete(p: Plan, s: State) {
    Shown(p, s, false) && forall i :: i in p.Olds() ==> i !in s.assets
  }

  lemma CompleteStays(p: Plan, s: State)
    ensures forall t :: SameButDisk(s, t) && Complete(p, s) ==> Complete(p, t)
  {
    forall t | SameButDisk(s, t) && Complete(p, s) ensures Complete(p, t) {
      var id :| ShownAs(p, s, false, id);
      assert ShownAs(p, t, false, id);
    }
  }

  /** A finished plan shows its release, every planned asset in place and nothing of the original. */
  lemma CompleteMeans(p: Plan, s: State, id: Id)
    requires ValidPlan(p) && Inv(p, s) && Tagged(p, s.releases, id) && Complete(p, s)
    ensures Published(p, s.releases, id) && s.tag == Some(TagRef(p.commit, p.commit)) && (p.prerelease <==> s.latest != Some(id))
    ensures forall n :: n in p.fps ==> InPlace(p, s.assets, n)
    ensures AllReady(p, s) && forall i :: i in p.Olds() ==> i !in s.assets
  {
    hide Inv, AssetsShown;
    InvRelease(p, s);
    InvIds(p, s);
    var other :| ShownAs(p, s, false, other);
    assert Tagged(p, s.releases, other);
    forall n | n in p.fps ensures InPlace(p, s.assets, n) {
      ShownInPlace(p, s, n);
    }
  }

  lemma ShownInPlace(p: Plan, s: State, n: string)
    requires AssetsShown(p, s.assets, false) && IdsKnown(p, s.assets, s.releases, s.nextId) && n in p.fps
    requires forall i :: i in p.Olds() ==> i !in s.assets
    ensures InPlace(p, s.assets, n)
  {
    ExpectedHas(p, s.assets.Keys, false, n);
    assert Canonical(n) in Names(s.assets);
    var i :| i in s.assets && s.assets[i].name == Canonical(n);
    assert ReadyAs(p, s.assets[i], n);
  }

  /** An asset in place is what the listing shows under its name, and its promotion was announced. */
  lemma InPlaceIsListed(p: Plan, s: State, current: map<Name, Asset>, base: string)
    requires ValidPlan(p) && Inv(p, s) && Listing(current, s.assets) && base in p.fps
    ensures InPlace(p, s.assets, base) ==>
      var c := Lookup(current, Canonical(base));
      c.Some? && Matches(c.value, p.fps[base]) && PromoteIntended(s.journal, c.value.id)
  {
    hide Inv;
    if i :| i in s.assets && ReadyAs(p, s.assets[i], base) && s.assets[i].name == Canonical(base) {
      InvAsset(p, s, i);
      var c := current[Canonical(base)];
      InvSame(p, s, i, c.id);
    }
  }

  lemma StagedIsReady(p: Plan, s: State, current: map<Name, Asset>, base: string)
    requires ValidPlan(p) && Inv(p, s) && Listing(current, s.assets) && base in p.fps
    ensures var staged := Lookup(current, Pending(base));
            var canonical := Lookup(current, Canonical(base));
            Ready(p, s.assets, base) <==>
              || (staged.Some? && Matches(staged.value, p.fps[base]))
              || (canonical.Some? && PromoteIntended(s.journal, canonical.value.id) && Matches(canonical.value, p.fps[base]))
  {
    hide Inv, Settled, ValidPlan;
    var staged := Lookup(current, Pending(base));
    var canonical := Lookup(current, Canonical(base));
    InvIds(p, s);
    if staged.Some? && Matches(staged.value, p.fps[base]) {
      CandidateKnown(p, s, staged.value, base);
    }
    if canonical.Some? && PromoteIntended(s.journal, canonical.value.id) && Matches(canonical.value, p.fps[base]) {
      PromotedIsReady(p, s, canonical.value, base);
    }
    if i :| i in s.assets && ReadyAs(p, s.assets[i], base) {
      InvAsset(p, s, i);
      assert s.assets[i].name in current;
    }
  }

  lemma ReadyNeedsRelease(p: Plan, s: State)
    requires ValidPlan(p) && Inv(p, s)
    ensures AllReady(p, s) ==> exists i :: ReleaseRecorded(p, s.journal, s.releases, i) && Tagged(p, s.releases, i)
  {
    assert p.order[0] in p.fps;
    assert AllReady(p, s) ==> Ready(p, s.assets, p.order[0]);
  }

  lemma ReadyIsRecorded(p: Plan, s: State, id: Id)
    requires ValidPlan(p) && Inv(p, s) && AllReady(p, s) && Tagged(p, s.releases, id)
    ensures ReleaseRecorded(p, s.journal, s.releases, id)
  {
    ReadyNeedsRelease(p, s);
    RecordedIsFound(p, s, id);
  }

  lemma AllArranged(p: Plan, s: State)
    requires ValidPlan(p) && Inv(p, s) && OthersPreserved(p, s.assets, |p.OldOrder()|)
    requires forall n :: n in p.fps ==> InPlace(p, s.assets, n)
    ensures Arranged(p, s.assets)
  {
    hide Inv, Settled;
    forall i | i in s.assets ensures if i in p.Olds() then s.assets[i].name.Preserved? else s.assets[i].name.Canonical? {
      InvAsset(p, s, i);
      if i in p.Olds() {
        var k :| 0 <= k < |p.OldOrder()| && p.OldOrder()[k] == i;
        assert OtherPreserved(p, s.assets, i);
      }
      var base := s.assets[i].name.base;
      if base in p.fps {
        var k :| k in s.assets && ReadyAs(p, s.assets[k], base) && s.assets[k].name == Canonical(base);
        InvSame(p, s, i, k);
      }
    }
  }

  lemma ArrangedIsShown(p: Plan, s: State, allowOriginals: bool, id: Id)
    requires ValidPlan(p) && Inv(p, s) && Arranged(p, s.assets)
    requires !allowOriginals ==> forall i :: i in p.Olds() ==> i !in s.assets
    ensures AssetsShown(p, s.assets, allowOriginals)
    ensures Published(p, s.releases, id) && s.tag == Some(TagRef(p.commit, p.commit)) && (p.prerelease <==> s.latest != Some(id)) ==>
              && Shown(p, s, allowOriginals)
              && (p.original.Some? && Backed(p, s.disk, 2) ==> Settled(p, s.assets, s.tag, s.releases, s.disk))
  {
    assert AssetsShown(p, s.assets, allowOriginals) by {
      ArrangedNames(p, s, allowOriginals);
    }
    assert Published(p, s.releases, id) && p.original.Some? ==> id == p.original.value.releaseId by {
      assert p.original.Some? ==> Tagged(p, s.releases, p.original.value.releaseId);
    }
    assert ShownAs(p, s, allowOriginals, id) ==> Shown(p, s, allowOriginals);
  }

  lemma ArrangedNames(p: Plan, s: State, allowOriginals: bool)
    requires ValidPlan(p) && AssetsKnown(p, s.journal, s.assets) && IdsKnown(p, s.assets, s.releases, s.nextId) && Arranged(p, s.assets)
    requires !allowOriginals ==> forall i :: i in p.Olds() ==> i !in s.assets
    ensures AssetsShown(p, s.assets, allowOriginals)
  {
    forall i | i in s.assets
      ensures s.assets[i].name in Expected(p, s.assets.Keys, allowOriginals)
      ensures s.assets[i].name.Canonical? ==> Matches(s.assets[i], p.fps[s.assets[i].name.base])
    {
      assert AssetKnown(p, s.journal, s.assets[i]);
    }
    forall n | n in Expected(p, s.assets.Keys, allowOriginals) ensures n in Names(s.assets) {
      ExpectedIsThere(p, s, allowOriginals, n);
    }
  }

  lemma ExpectedIsThere(p: Plan, s: State, allowOriginals: bool, n: Name)
    requires AssetsKnown(p, s.journal, s.assets) && IdsKnown(p, s.assets, s.releases, s.nextId) && Arranged(p, s.assets)
    requires n in Expected(p, s.assets.Keys, allowOriginals)
    ensures n in Names(s.assets)
  {
    if n.Canonical? {
      var i :| i in s.assets && ReadyAs(p, s.assets[i], n.base) && s.assets[i].name == Canonical(n.base);
    } else {
      var i :| i in p.Olds() && i in s.assets && n == p.PreservedName(i);
      assert AssetKnown(p, s.journal, s.assets[i]);
    }
  }

  /** The assets that are left when the first `k` listed ids are removed. */
  ghost function Without(assets: map<Id, Asset>, order: seq<Id>, k: nat): map<Id, Asset>
    requires k <= |order|
  {
    map i | i in assets && i !in order[..k] :: assets[i]
  }

  lemma WithoutNone(assets: map<Id, Asset>, order: seq<Id>)
    ensures Without(assets, order, 0) == assets
  {
  }

  lemma WithoutNext(assets: map<Id, Asset>, order: seq<Id>, k: nat)
    requires k < |order| && forall i, j :: 0 <= i < j < |order| ==> order[i] != order[j]
    ensures Without(assets, order, k + 1) == Without(assets, order, k) - {order[k]}
    ensures order[k] in Without(assets, order, k) <==> order[k] in assets
    ensures order[k] in assets ==> Without(assets, order, k)[order[k]] == assets[order[k]]
  {
    assert order[..k + 1] == order[..k] + [order[k]];
    assert order[k] !in order[..k];
  }

  lemma WithoutAll(assets: map<Id, Asset>, order: seq<Id>)
    ensures forall i :: i in order ==> i !in Without(assets, order, |order|)
  {
    assert order[..|order|] == order;
  }

  ghost predicate IdsAndNamesUnique(assets: map<Id, Asset>) {
    && (forall i :: i in assets ==> assets[i].id == i)
    && (forall i, k :: i in assets && k in assets && assets[i].name == assets[k].name ==> i == k)
  }

  lemma OldIsListed(assets: map<Id, Asset>, current: map<Name, Asset>, id: Id)
    requires Listing(current, assets) && IdsAndNamesUnique(assets) && id in assets
    ensures assets[id].name in current && current[assets[id].name].id == id
  {
  }

  lemma PreservedIsKnown(p: Plan, s: State, id: Id)
    requires ValidPlan(p) && Inv(p, s) && Arranged(p, s.assets) && id in p.Olds() && id in s.assets
    ensures s.assets[id].name == p.PreservedName(id) && Matches(s.assets[id], p.Olds()[id].fp)
  {
    assert AssetKnown(p, s.journal, s.assets[id]);
  }

  lemma StaysSettled(p: Plan, s: State, id: Id)
    requires ValidPlan(p) && Inv(p, s) && id in s.assets && id in p.Olds() && Settled(p, s.assets, s.tag, s.releases, s.disk)
    ensures Settled(p, DoDelete(s, id).assets, s.tag, s.releases, s.disk) && Arranged(p, DoDelete(s, id).assets)
  {
    DeleteKeepsArranged(p, s, id);
  }

  // ----- Progress of a publication

  ghost predicate Progress(p: Plan, before: map<Id, Asset>, after: map<Id, Asset>) {
    && (forall n :: Ready(p, before, n) ==> Ready(p, after, n))
    && (forall n :: InPlace(p, before, n) ==> InPlace(p, after, n))
    && (forall i :: i in p.Olds() && i in after ==> i in before && (after[i].name == before[i].name || after[i].name.Preserved?))
  }

  lemma ProgressSame(p: Plan, assets: map<Id, Asset>)
    ensures Progress(p, assets, assets)
  {
  }

  lemma ProgressJoins(p: Plan, a: map<Id, Asset>, b: map<Id, Asset>, c: map<Id, Asset>)
    requires Progress(p, a, b) && Progress(p, b, c)
    ensures Progress(p, a, c)
  {
  }

  lemma ProgressKeepsReady(p: Plan, before: map<Id, Asset>, after: map<Id, Asset>, base: string)
    requires Progress(p, before, after) && Ready(p, before, base)
    ensures Ready(p, after, base)
  {
  }

  lemma ProgressKeepsInPlace(p: Plan, before: map<Id, Asset>, after: map<Id, Asset>)
    requires Progress(p, before, after)
    ensures forall n :: InPlace(p, before, n) ==> InPlace(p, after, n)
  {
  }

  lemma PreserveProgresses(p: Plan, before: map<Id, Asset>, id: Id)
    requires id in before && before[id].id == id && id in p.Olds()
    ensures Progress(p, before, before[id := before[id].(name := p.PreservedName(id))])
  {
    var after := before[id := before[id].(name := p.PreservedName(id))];
    ReadyKept(p, before, after);
    forall n | InPlace(p, before, n) ensures InPlace(p, after, n) {
      var i :| i in before && ReadyAs(p, before[i], n) && before[i].name == Canonical(n);
      assert after[i] == before[i];
    }
  }

  lemma PromoteProgresses(p: Plan, before: map<Id, Asset>, a: Asset, base: string)
    requires a.id in before && before[a.id] == a && a.id !in p.Olds() && a.name == Pending(base)
    requires base in p.fps && Matches(a, p.fps[base])
    ensures Progress(p, before, before[a.id := a.(name := Canonical(base))])
    ensures InPlace(p, before[a.id := a.(name := Canonical(base))], base)
  {
    var after := before[a.id := a.(name := Canonical(base))];
    ReadyKept(p, before, after);
    forall n | InPlace(p, before, n) ensures InPlace(p, after, n) {
      var i :| i in before && ReadyAs(p, before[i], n) && before[i].name == Canonical(n);
      assert i != a.id && after[i] == before[i];
    }
    assert ReadyAs(p, after[a.id], base);
  }

  ghost predicate OtherPreserved(p: Plan, assets: map<Id, Asset>, id: Id)
    requires id in p.Olds()
  {
    id in assets && assets[id].name.Canonical? ==> p.Olds()[id].name in p.fps
  }

  ghost predicate OthersPreserved(p: Plan, assets: map<Id, Asset>, k: nat)
    requires ValidPlan(p) && k <= |p.OldOrder()|
  {
    forall i :: 0 <= i < k ==> OtherPreserved(p, assets, p.OldOrder()[i])
  }

  lemma ProgressKeepsOthers(p: Plan, before: map<Id, Asset>, after: map<Id, Asset>, k: nat)
    requires ValidPlan(p) && k <= |p.OldOrder()| && OthersPreserved(p, before, k) && Progress(p, before, after)
    ensures OthersPreserved(p, after, k)
  {
    forall i | 0 <= i < k ensures OtherPreserved(p, after, p.OldOrder()[i]) {
      assert OtherPreserved(p, before, p.OldOrder()[i]);
    }
  }

  lemma OnlyUnderItsName(p: Plan, s: State, current: map<Name, Asset>, id: Id)
    requires ValidPlan(p) && Inv(p, s) && Listing(current, s.assets) && id in p.Olds()
    ensures id in s.assets && s.assets[id].name.Canonical? ==>
              Lookup(current, Canonical(p.Olds()[id].name)) == Some(s.assets[id]) && Matches(s.assets[id], p.Olds()[id].fp)
  {
    if id in s.assets {
      assert AssetKnown(p, s.journal, s.assets[id]);
      assert s.assets[id].name in current;
    }
  }

  /** A canonical asset that this plan has not promoted is an original. */
  lemma CanonicalIsOriginal(p: Plan, s: State, a: Asset, base: string)
    requires ValidPlan(p) && Inv(p, s) && base in p.fps
    requires a.id in s.assets && s.assets[a.id] == a && a.name == Canonical(base)
    requires !(Matches(a, p.fps[base]) && PromoteIntended(s.journal, a.id))
    ensures a.id in p.Olds() && Matches(a, p.Olds()[a.id].fp)
  {
    assert AssetKnown(p, s.journal, a);
  }

  lemma NameIsFree(p: Plan, s: State, t: State, current: map<Name, Asset>, base: string)
    requires ValidPlan(p) && Inv(p, s) && Listing(current, s.assets)
    requires match Lookup(current, Canonical(base))
             case None => t.assets == s.assets
             case Some(a) => a.id in p.Olds() && t.assets == s.assets[a.id := a.(name := p.PreservedName(a.id))]
    ensures NameFree(t, Canonical(base)) && Progress(p, s.assets, t.assets)
  {
    forall i | i in s.assets && s.assets[i].name == Canonical(base) ensures Lookup(current, Canonical(base)) == Some(s.assets[i]) {
      assert s.assets[i].name in current;
    }
    match Lookup(current, Canonical(base))
    case None =>
    case Some(a) => PreserveProgresses(p, s.assets, a.id);
  }

  lemma ReadyIsPending(p: Plan, s: State, current: map<Name, Asset>, base: string)
    requires ValidPlan(p) && Inv(p, s) && Listing(current, s.assets) && base in p.fps
    requires Ready(p, s.assets, base) && NameFree(s, Canonical(base))
    ensures var staged := Lookup(current, Pending(base));
            staged.Some? && staged.value.id !in p.Olds() && Matches(staged.value, p.fps[base])
  {
    var i :| i in s.assets && ReadyAs(p, s.assets[i], base);
    assert AssetKnown(p, s.journal, s.assets[i]);
    assert s.assets[i].name in current;
  }

  ghost function Names(assets: map<Id, Asset>): set<Name> {
    set i | i in assets :: assets[i].name
  }

  function Expected(p: Plan, present: set<Id>, allowOriginals: bool): set<Name> {
    (set n | n in p.fps :: Canonical(n))
    + (if allowOriginals then set i | i in p.Olds() && i in present :: p.PreservedName(i) else {})
  }

  /** The assets are exactly the planned ones with their bytes and, where allowed,
      the remaining originals under their preserved names. */
  ghost predicate AssetsShown(p: Plan, assets: map<Id, Asset>, allowOriginals: bool) {
    && Names(assets) == Expected(p, assets.Keys, allowOriginals)
    && forall i :: i in assets && assets[i].name.Canonical? && assets[i].name.base in p.fps ==> Matches(assets[i], p.fps[assets[i].name.base])
  }

  ghost predicate ShownAs(p: Plan, s: State, allowOriginals: bool, id: Id) {
    && Published(p, s.releases, id)
    && s.tag == Some(TagRef(p.commit, p.commit))
    && (p.prerelease <==> s.latest != Some(id))
    && AssetsShown(p, s.assets, allowOriginals)
  }

  ghost predicate Shown(p: Plan, s: State, allowOriginals: bool) {
    exists id :: ShownAs(p, s, allowOriginals, id)
  }

  lemma ShownIsFound(p: Plan, s: State, allowOriginals: bool, found: Option<Release>)
    requires ValidPlan(p) && Inv(p, s)
    requires found.Some? ==> Tagged(p, s.releases, found.value.id) && s.releases[found.value.id] == found.value
    requires found.None? ==> forall i :: !Tagged(p, s.releases, i)
    ensures Shown(p, s, allowOriginals) ==> found.Some? && ShownAs(p, s, allowOriginals, found.value.id)
  {
    if Shown(p, s, allowOriginals) {
      var id :| ShownAs(p, s, allowOriginals, id);
      assert Tagged(p, s.releases, id);
    }
  }

  lemma ExpectedHas(p: Plan, present: set<Id>, allowOriginals: bool, n: string)
    requires n in p.fps
    ensures Canonical(n) in Expected(p, present, allowOriginals)
  {
  }

  lemma IdsGiveIds(p: Plan, s: State)
    requires IdsKnown(p, s.assets, s.releases, s.nextId)
    ensures forall i :: i in s.assets ==> s.assets[i].id == i
  {
  }

  lemma ShownByListing(p: Plan, s: State, current: map<Name, Asset>, allowOriginals: bool)
    requires Listing(current, s.assets) && IdsKnown(p, s.assets, s.releases, s.nextId)
    ensures (set n | n in current :: current[n].id) == s.assets.Keys
    ensures AssetsShown(p, s.assets, allowOriginals) <==>
              && current.Keys == Expected(p, s.assets.Keys, allowOriginals)
              && forall n :: n in p.fps && Canonical(n) in current ==> Matches(current[Canonical(n)], p.fps[n])
  {
    ListedAll(p, s, current);
    forall n | n in p.fps && Canonical(n) in current ensures current[Canonical(n)].id in s.assets {
    }
  }

  lemma ListedAll(p: Plan, s: State, current: map<Name, Asset>)
    requires Listing(current, s.assets) && IdsKnown(p, s.assets, s.releases, s.nextId)
    ensures current.Keys == Names(s.assets) && (set n | n in current :: current[n].id) == s.assets.Keys
    ensures forall i :: i in s.assets ==> current[s.assets[i].name] == s.assets[i]
  {
    forall i | i in s.assets ensures current[s.assets[i].name] == s.assets[i] {
      assert s.assets[i].name in current;
    }
    forall i | i in s.assets ensures i in (set n | n in current :: current[n].id) {
      assert current[s.assets[i].name].id == i;
    }
  }

  lemma RecordedIsFound(p: Plan, s: State, id: Id)
    requires ValidPlan(p) && Inv(p, s) && Tagged(p, s.releases, id)
    ensures forall i :: ReleaseRecorded(p, s.journal, s.releases, i) ==> i == id
    ensures p.original.Some? ==> ReleaseRecorded(p, s.journal, s.releases, id)
    ensures Created(id) in s.Acts() ==> ReleaseRecorded(p, s.journal, s.releases, id)
  {
  }

  lemma RecordedIsTagged(p: Plan, s: State, id: Id)
    requires ReleaseRecorded(p, s.journal, s.releases, id)
    ensures Tagged(p, s.releases, id)
  {
  }

  /** Readiness and age depend on the assets and the clock alone. */
  lemma StageReads(p: Plan, s: State)
    ensures forall t: State :: t.assets == s.assets ==> (AllReady(p, s) <==> AllReady(p, t)) && (OriginalsThere(p, s.assets) <==> OriginalsThere(p, t.assets))
    ensures forall t: State :: t.assets == s.assets && s.now <= t.now && Aged(s) ==> Aged(t)
  {
  }

  lemma RecordedStays(p: Plan, s: State, t: State, id: Id)
    requires ReleaseRecorded(p, s.journal, s.releases, id) && s.journal <= t.journal && t.releases == s.releases
    ensures ReleaseRecorded(p, t.journal, t.releases, id)
  {
    assert forall e :: e in s.journal ==> e in t.journal;
  }

  lemma UploadLeavesReady(p: Plan, before: map<Id, Asset>, a: Asset, base: string)
    requires a.id !in before && ReadyAs(p, a, base)
    ensures Ready(p, before[a.id := a], base) && ReadyStays(p, before, before[a.id := a])
  {
    ReadyKept(p, before, before[a.id := a]);
    assert ReadyAs(p, before[a.id := a][a.id], base);
  }

  lemma MetadataMayBeWritten(p: Plan, s: State, release: Release)
    requires ValidPlan(p) && Inv(p, s) && p.original.Some? && METADATA !in s.disk
    requires Tagged(p, s.releases, release.id) && s.releases[release.id] == release
    ensures release.id == p.original.value.releaseId && release.body == p.original.value.body
    ensures Inv(p, s.(disk := s.disk[METADATA := Metadata(release.body, release.id)]))
  {
    assert Tagged(p, s.releases, p.original.value.releaseId);
    var after := s.disk[METADATA := Metadata(release.body, release.id)];
    assert after == map[METADATA := Metadata(release.body, release.id)];
    DiskKeepsInv(p, s, after);
  }

  lemma PassStarts(p: Plan, s: State, level: nat)
    requires p.original.Some? && (level > 0 ==> Backed(p, s.disk, level))
    ensures PassedTo(Started(p, s.disk), p.OldNames(), p.OldFps(), level, 0)
    ensures forall i :: 0 <= i < |p.OldNames()| && Blocked(s.disk, p.OldNames(), p.OldFps(), i) ==> Blocked(Started(p, s.disk), p.OldNames(), p.OldFps(), i)
  {
  }

  lemma StillPassed(disk: Disk, names: seq<string>, fps: seq<Fingerprint>, level: nat, k: nat)
    requires k < |names| == |fps| && Distinct(names) && PassedTo(disk, names, fps, level, k)
    ensures Held(disk, names, fps, k) ==> PassedTo(disk, names, fps, level, k + 1)
    ensures names[k] !in disk ==> PassedTo(Moved(disk, names[k], fps[k]), names, fps, level, k + 1)
  {
    hide Descents, Broken, Explained;
    if names[k] !in disk {
      MoveKeeps(disk, names, fps, k, level);
    }
  }

  lemma SafeInOrder(p: Plan, s: State, k: nat, level: nat)
    requires ValidPlan(p) && Inv(p, s) && p.original.Some? && k < |p.OldOrder()| && SafeNames(p.OldNames())
    requires PassedTo(s.disk, p.OldNames(), p.OldFps(), level, k)
    ensures p.OldNames()[k] in s.disk ==> Held(s.disk, p.OldNames(), p.OldFps(), k)
    ensures p.OldNames()[k] !in s.disk ==> p.OldOrder()[k] in s.assets
  {
    hide Inv, Broken, Explained, Held;
    NamesAreDistinct(p);
    InvExplained(p, s);
    forall i | 0 <= i < k ensures Held(s.disk, p.OldNames(), p.OldFps(), i) {
      assert Descents(p.OldNames(), i) == 0;
    }
    hide SafeNames, PassedTo;
    NextIsHeld(s.disk, p.OldNames(), p.OldFps(), k);
    if !Held(s.disk, p.OldNames(), p.OldFps(), k) {
      UnheldIsRemote(p, s, k);
    }
    MissingIsNotHeld(s.disk, p.OldNames(), p.OldFps(), k);
  }

  lemma MissingIsNotHeld(disk: Disk, names: seq<string>, fps: seq<Fingerprint>, k: nat)
    requires k < |names| == |fps|
    ensures names[k] !in disk ==> !Held(disk, names, fps, k)
  {
  }

  /** What is known of original `k` before it is dealt with. */
  lemma SaveFacts(p: Plan, s: State, k: nat, level: nat)
    requires ValidPlan(p) && Inv(p, s) && p.original.Some? && k < |p.OldOrder()| && METADATA in s.disk
    requires PassedTo(s.disk, p.OldNames(), p.OldFps(), level, k)
    ensures Held(s.disk, p.OldNames(), p.OldFps(), k) ==> PassedTo(s.disk, p.OldNames(), p.OldFps(), level, k + 1)
    ensures p.OldNames()[k] !in s.disk ==> PassedTo(Moved(s.disk, p.OldNames()[k], p.OldFps()[k]), p.OldNames(), p.OldFps(), level, k + 1)
    ensures SafeNames(p.OldNames()) ==>
      && (p.OldNames()[k] in s.disk ==> Held(s.disk, p.OldNames(), p.OldFps(), k))
      && (p.OldNames()[k] !in s.disk ==> p.OldOrder()[k] in s.assets)
    ensures Blocked(s.disk, p.OldNames(), p.OldFps(), k) ==> p.OldNames()[k] in s.disk && !Held(s.disk, p.OldNames(), p.OldFps(), k)
  {
    hide Inv, PassedTo, SafeNames;
    NamesAreDistinct(p);
    InvMetadata(p, s);
    StillPassed(s.disk, p.OldNames(), p.OldFps(), level, k);
    if SafeNames(p.OldNames()) {
      SafeInOrder(p, s, k, level);
    }
  }

  lemma SavedFacts(p: Plan, s: State, after: Disk, moved: bool, k: nat)
    requires ValidPlan(p) && p.original.Some? && k < |p.OldOrder()| && p.OldNames()[k] !in s.disk
    requires if moved then after == Moved(s.disk, p.OldNames()[k], p.OldFps()[k]) else SameExcept(s.disk, after, p.OldNames()[k] + INCOMPLETE)
    ensures forall i :: k < i < |p.OldNames()| && Blocked(s.disk, p.OldNames(), p.OldFps(), i) ==> Blocked(after, p.OldNames(), p.OldFps(), i)
  {
    NamesAreDistinct(p);
    forall i | k < i < |p.OldNames()| && Blocked(s.disk, p.OldNames(), p.OldFps(), i) ensures Blocked(after, p.OldNames(), p.OldFps(), i) {
      StaysBlocked(s.disk, after, p.OldNames(), p.OldFps(), k, i);
    }
  }

  lemma OrderIsDistinct(p: Plan)
    requires ValidPlan(p) && p.original.Some?
    ensures |p.OldNames()| == |p.OldFps()| == |p.OldOrder()|
    ensures forall i, k :: 0 <= i < |p.OldOrder()| && 0 <= k < |p.OldOrder()| && p.OldOrder()[i] == p.OldOrder()[k] ==> i == k
  {
  }

  lemma PassFrom(p: Plan, disk: Disk, j: nat, rest: Fingerprint)
    requires p.original.Some? && METADATA in disk && |p.OldNames()| == |p.OldFps()|
    ensures BackupTo(disk, p.OldNames(), p.OldFps(), 0) == Some(disk)
    ensures j < |p.OldNames()| && Interrupted(p, disk, j, rest).Some? ==>
      var reached := BackupTo(disk, p.OldNames(), p.OldFps(), j);
      && reached.Some? && p.OldNames()[j] !in reached.value
      && Interrupted(p, disk, j, rest).value == reached.value[p.OldNames()[j] + INCOMPLETE := Blob(rest)]
  {
  }

  lemma BackupNext(disk: Disk, names: seq<string>, fps: seq<Fingerprint>, k: nat)
    requires k < |names| == |fps|
    ensures BackupTo(disk, names, fps, k).Some? ==>
      BackupTo(disk, names, fps, k + 1) == BackupOne(BackupTo(disk, names, fps, k).value, names[k], fps[k])
  {
  }

  lemma {:induction false} FailsBefore(disk: Disk, names: seq<string>, fps: seq<Fingerprint>, k: nat, j: nat)
    requires k <= j <= |names| == |fps|
    ensures BackupTo(disk, names, fps, k).None? ==> BackupTo(disk, names, fps, j).None?
  {
    if k < j {
      FailsBefore(disk, names, fps, k, j - 1);
    }
  }

  lemma OriginalHasRelease(p: Plan, s: State)
    requires ValidPlan(p) && Inv(p, s)
    ensures p.original.Some? ==> exists i :: Tagged(p, s.releases, i)
    ensures Jammed(p, s.disk) ==> p.original.Some?
  {
    InvRelease(p, s);
  }

  lemma SameCanBackUp(p: Plan, s: State, t: State)
    requires t.assets == s.assets && t.disk == s.disk
    ensures CanBackUp(p, s) <==> CanBackUp(p, t)
  {
  }

  lemma StartedAgain(p: Plan, disk: Disk)
    requires p.original.Some? ==> |p.OldNames()| == |p.OldFps()|
    ensures p.original.Some? ==> Started(p, Started(p, disk)) == Started(p, disk)
    ensures p.original.Some? ==> forall j: nat, rest :: j < |p.OldNames()| ==> Interrupted(p, Started(p, disk), j, rest) == Interrupted(p, disk, j, rest)
  {
  }

  lemma PassOfNone(p: Plan, disk: Disk)
    ensures p.original.None? ==> Pass(p, disk) == Some(disk)
  {
  }

  lemma NothingToBack(p: Plan, disk: Disk)
    ensures p.original.None? ==> Backed(p, disk, 2)
  {
  }

  /** While an unfinished upload is there, not everything is uploaded. */
  lemma UnfinishedIsNotReady(p: Plan, s: State, i: Id)
    requires ValidPlan(p) && Inv(p, s) && i in s.assets && !s.assets[i].uploaded
    ensures !AllReady(p, s)
  {
    hide Inv;
    InvAsset(p, s, i);
    if AllReady(p, s) {
      assert Ready(p, s.assets, s.assets[i].name.base);
      var k :| k in s.assets && ReadyAs(p, s.assets[k], s.assets[i].name.base);
      InvAsset(p, s, k);
      InvSame(p, s, i, k);
    }
  }

  lemma ReadyIsBacked(p: Plan, s: State)
    requires ValidPlan(p) && Inv(p, s)
    ensures AllReady(p, s) ==> Backed(p, s.disk, 1)
  {
    if AllReady(p, s) {
      assert p.order[0] in p.order && Ready(p, s.assets, p.order[0]);
      var i :| i in s.assets && ReadyAs(p, s.assets[i], p.order[0]);
      assert s.assets[i].id == i;
    }
  }

  lemma DeleteMeansSettled(p: Plan, s: State, id: Id)
    requires ValidPlan(p) && Inv(p, s)
    requires DeleteIntended(s.journal, id)
    ensures Settled(p, s.assets, s.tag, s.releases, s.disk)
  {
    var e :| e in s.journal && e.action.DeleteIntent? && e.action.id == id;
    assert e.action in s.Acts();
    assert ActionSound(p, s, e.action);
  }

  /** With safe names an original whose copy is missing has not been deleted. */
  lemma UnheldIsRemote(p: Plan, s: State, k: nat)
    requires ValidPlan(p) && Inv(p, s) && p.original.Some? && SafeNames(p.OldNames())
    requires k < |p.OldOrder()| && !Held(s.disk, p.OldNames(), p.OldFps(), k)
    ensures p.OldOrder()[k] in s.assets
  {
    hide Inv;
    NamesAreDistinct(p);
    InvOriginal(p, s, p.OldOrder()[k]);
    assert Descents(p.OldNames(), k) == 0;
    if DeleteIntended(s.journal, p.OldOrder()[k]) {
      DeleteMeansSettled(p, s, p.OldOrder()[k]);
    }
  }

  ghost predicate ReadyStays(p: Plan, before: map<Id, Asset>, after: map<Id, Asset>) {
    forall n :: Ready(p, before, n) ==> Ready(p, after, n)
  }

  lemma PromotedIsReady(p: Plan, s: State, a: Asset, base: string)
    requires ValidPlan(p) && Inv(p, s)
    requires base in p.fps
    requires a.id in s.assets && s.assets[a.id] == a && a.name == Canonical(base)
    requires Matches(a, p.fps[base]) && PromoteIntended(s.journal, a.id)
    ensures a.id !in p.Olds() && Ready(p, s.assets, base) && InPlace(p, s.assets, base)
  {
    var e :| e in s.journal && e.action.PromoteIntent? && e.action.id == a.id;
    assert e.action in s.Acts();
    assert ActionSound(p, s, e.action);
    assert ReadyAs(p, s.assets[a.id], base);
  }

  /** An asset under a pending name is ours, and no older than its first intent. */
  lemma CandidateKnown(p: Plan, s: State, a: Asset, base: string)
    requires ValidPlan(p) && Inv(p, s)
    requires base in p.fps
    requires a.id in s.assets && s.assets[a.id] == a && a.name == Pending(base)
    ensures a.id !in p.Olds() && (a.uploaded ==> ReadyAs(p, a, base) && Ready(p, s.assets, base))
    ensures var intents := Events(s.journal, ByUploadIntent(Pending(base)));
            intents != [] && intents[0].at - 5 <= a.created
  {
    assert AssetKnown(p, s.journal, a);
    var e :| e in s.journal && Selects(ByUploadIntent(Pending(base)), e.action) && e.at - 5 <= a.created;
    FirstIsEarliest(s.journal, ByUploadIntent(Pending(base)), e);
  }

  /** Without a promoted asset under the canonical name, only a pending one can be ours. */
  lemma NothingElseUploaded(p: Plan, s: State, current: map<Name, Asset>, base: string)
    requires ValidPlan(p) && Inv(p, s)
    requires Listing(current, s.assets) && base in p.fps
    requires var c := Lookup(current, Canonical(base));
             !(c.Some? && Matches(c.value, p.fps[base]) && PromoteIntended(s.journal, c.value.id))
    ensures forall i :: i in s.assets && i !in p.Olds() && s.assets[i].name.base == base ==>
                          s.assets[i].name == Pending(base) && Lookup(current, Pending(base)) == Some(s.assets[i])
  {
    forall i | i in s.assets && i !in p.Olds() && s.assets[i].name.base == base
      ensures s.assets[i].name == Pending(base) && Lookup(current, Pending(base)) == Some(s.assets[i])
    {
      assert AssetKnown(p, s.journal, s.assets[i]);
      assert s.assets[i].name in current;
    }
  }

  lemma DeleteLeavesNothing(p: Plan, before: map<Id, Asset>, a: Asset, base: string)
    requires a.id in before && before[a.id] == a && !a.uploaded
    requires forall i :: i in before ==> before[i].id == i
    requires forall i :: i in before && i !in p.Olds() && before[i].name.base == base ==> before[i] == a
    ensures NotUploaded(p, before - {a.id}, base) && ReadyStays(p, before, before - {a.id})
  {
    ReadyKept(p, before, before - {a.id});
  }
}
