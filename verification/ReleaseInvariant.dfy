/** What every step of the publisher keeps, and the safety statements it implies. */
module ReleaseInvariant {
  import opened Wrappers
  import opened ReleaseModel
  import opened ReleaseBackup

  // ----- Plans

  ghost predicate ValidPlan(p: Plan) {
    && p.order != []
    && (forall n :: n in p.order <==> n in p.fps)
    && (forall i, k :: 0 <= i < k < |p.order| ==> p.order[i] != p.order[k])
    && (p.original.Some? ==> ValidOriginal(p))
  }

  /** The original was captured from one published release, whose asset ids and
      names are unique, whose assets are not empty and whose tag names one object. */
  ghost predicate ValidOriginal(p: Plan)
    requires p.original.Some?
  {
    var o := p.original.value;
    && (forall i :: i in o.order <==> i in o.assets)
    && (forall i, k :: 0 <= i < k < |o.order| ==> o.order[i] != o.order[k])
    && (forall i, k :: i in o.assets && k in o.assets && o.assets[i].name == o.assets[k].name ==> i == k)
    && (forall i :: i in o.assets ==> o.assets[i].fp.bytes > 0)
    && (o.tag.refSha == p.commit ==> o.tag.commit == p.commit)
  }

  // ----- The invariant, clause by clause

  ghost predicate IdsKnown(p: Plan, assets: map<Id, Asset>, releases: map<Id, Release>, nextId: Id) {
    && (forall i :: i in assets ==> assets[i].id == i && i < nextId)
    && (forall i, k :: i in assets && k in assets && assets[i].name == assets[k].name ==> i == k)
    && (forall i :: i in releases ==> releases[i].id == i && i < nextId)
    && (forall i :: i in p.Olds() ==> i < nextId)
  }

  ghost predicate TimesKnown(journal: seq<Entry>, now: int) {
    && (forall i :: 0 <= i < |journal| ==> journal[i].at <= now)
    && (forall i, k :: 0 <= i < k < |journal| ==> journal[i].at <= journal[k].at)
  }

  /** The intent that goes with a remote write. */
  ghost predicate Intends(a: Action, m: Mutation) {
    match m
    case CreateRelease(_) => a == CreateIntent
    case UploadAsset(_, n, _) => a.UploadIntent? && a.name == n
    case RenameAsset(i, n) => a == PreserveIntent(i, n) || a == PromoteIntent(i, n)
    case DeleteAsset(i, _) => (a.DeleteIntent? || a.UnfinishedDeleteIntent?) && a.id == i
    case MoveTag(l, c) => a == TagIntent(l, c)
    case PublishRelease(i) => a.PublishIntent? && a.id == i
  }

  /** Of the uploads only unfinished ones are deleted, and only five minutes after they were begun. */
  ghost predicate Patient(p: Plan, m: Mutation, at: int) {
    m.DeleteAsset? && m.id !in p.Olds() ==> !m.removed.uploaded && m.removed.created + 300 <= at
  }

  /** `a` was recorded last, and no write has been sent since. */
  ghost predicate Announcing(s: State, a: Action) {
    && s.journal != [] && s.journal[|s.journal| - 1].action == a
    && forall k :: 0 <= k < |s.writes| ==> s.writes[k].seen < |s.journal|
  }

  lemma AnnouncingActs(s: State, a: Action)
    requires Announcing(s, a)
    ensures a in s.Acts()
  {
    assert s.journal[|s.journal| - 1] in s.journal;
  }

  predicate PromoteIntended(journal: seq<Entry>, id: Id) {
    exists e :: e in journal && e.action.PromoteIntent? && e.action.id == id
  }

  predicate DeleteIntended(journal: seq<Entry>, id: Id) {
    exists e :: e in journal && e.action.DeleteIntent? && e.action.id == id
  }

  predicate PreserveIntended(journal: seq<Entry>, id: Id) {
    exists e :: e in journal && e.action.PreserveIntent? && e.action.id == id
  }

  predicate PublishIntended(journal: seq<Entry>) {
    exists e :: e in journal && e.action.PublishIntent?
  }

  /** An asset uploaded by this plan, complete and with the planned bytes. */
  ghost predicate ReadyAs(p: Plan, a: Asset, base: string) {
    a.id !in p.Olds() && a.name.base == base && base in p.fps && Matches(a, p.fps[base])
  }

  ghost predicate Ready(p: Plan, assets: map<Id, Asset>, base: string) {
    exists i :: i in assets && ReadyAs(p, assets[i], base)
  }

  ghost predicate InPlace(p: Plan, assets: map<Id, Asset>, base: string) {
    exists i :: i in assets && ReadyAs(p, assets[i], base) && assets[i].name == Canonical(base)
  }

  /** What appeared remotely at `created` follows an intent, up to five seconds of clock skew. */
  ghost predicate Announced(journal: seq<Entry>, q: Query, created: int) {
    exists e :: e in journal && Selects(q, e.action) && e.at - 5 <= created
  }

  /** Every remote asset is an original under its own or its preserved name, or
      an upload of ours that the journal announced. */
  ghost predicate AssetKnown(p: Plan, journal: seq<Entry>, a: Asset) {
    if a.id in p.Olds() then
      var o := p.Olds()[a.id];
      Matches(a, o.fp) && (a.name == Canonical(o.name) || (a.name == Preserved(o.name) && PreserveIntended(journal, a.id)))
    else
      && !a.name.Preserved?
      && a.name.base in p.fps
      && (a.uploaded ==> a.fp == p.fps[a.name.base])
      && Announced(journal, ByUploadIntent(Pending(a.name.base)), a.created)
      && (a.name.Canonical? ==> a.uploaded && PromoteIntended(journal, a.id))
  }

  ghost predicate SameUpload(p: Plan, a: Asset, b: Asset) {
    a.id !in p.Olds() && b.id !in p.Olds() && a.name.base == b.name.base
  }

  ghost predicate AssetsKnown(p: Plan, journal: seq<Entry>, assets: map<Id, Asset>) {
    && (forall i :: i in assets ==> AssetKnown(p, journal, assets[i]))
    && (forall i, k :: i in assets && k in assets && SameUpload(p, assets[i], assets[k]) ==> i == k)
  }

  ghost predicate TagKnown(p: Plan, acts: set<Action>, tag: Option<TagRef>) {
    tag == p.OldTag() || (tag == Some(TagRef(p.commit, p.commit)) && TagIntent(p.Lease(), p.commit) in acts)
  }

  ghost predicate Tagged(p: Plan, releases: map<Id, Release>, i: Id) {
    i in releases && releases[i].tagName == p.tag
  }

  ghost predicate OwnRelease(p: Plan, journal: seq<Entry>, r: Release) {
    && Announced(journal, ByCreateIntent, r.created)
    && r.target == p.commit && r.body == p.notes && r.prerelease == p.prerelease
    && (Created(r.id) !in Actions(journal) ==> r.draft)
  }

  ghost predicate ReleaseKnown(p: Plan, journal: seq<Entry>, releases: map<Id, Release>) {
    && (forall i, k :: Tagged(p, releases, i) && Tagged(p, releases, k) ==> i == k)
    && match p.original
       case None =>
         forall i :: Tagged(p, releases, i) ==> OwnRelease(p, journal, releases[i])
       case Some(o) =>
         && Tagged(p, releases, o.releaseId)
         && !releases[o.releaseId].draft
         && (releases[o.releaseId].body == o.body
             || (releases[o.releaseId].body == p.notes && PublishIntended(journal)))
  }

  /** The release exists and, if new, its id is journaled. */
  ghost predicate ReleaseRecorded(p: Plan, journal: seq<Entry>, releases: map<Id, Release>, i: Id) {
    Tagged(p, releases, i) && (p.original.None? ==> Created(i) in Actions(journal))
  }

  ghost predicate NoEarlyAssets(p: Plan, journal: seq<Entry>, assets: map<Id, Asset>, releases: map<Id, Release>) {
    assets == map[] || exists i :: ReleaseRecorded(p, journal, releases, i)
  }

  /** The release shows exactly what the plan says. */
  ghost predicate Published(p: Plan, releases: map<Id, Release>, i: Id) {
    && Tagged(p, releases, i)
    && !releases[i].draft && releases[i].body == p.notes
    && releases[i].target == p.commit && releases[i].prerelease == p.prerelease
  }

  /** Every planned asset is under its own name, every remaining original under its preserved one. */
  ghost predicate Arranged(p: Plan, assets: map<Id, Asset>) {
    && (forall n :: n in p.fps ==> InPlace(p, assets, n))
    && (forall i :: i in assets ==> if i in p.Olds() then assets[i].name.Preserved? else assets[i].name.Canonical?)
  }

  /** The state in which originals may be deleted. */
  ghost predicate Settled(p: Plan, assets: map<Id, Asset>, tag: Option<TagRef>, releases: map<Id, Release>, disk: Disk) {
    && Arranged(p, assets)
    && tag == Some(TagRef(p.commit, p.commit))
    && p.original.Some? && Published(p, releases, p.original.value.releaseId)
    && Backed(p, disk, 2)
  }

  // ----- Backup directory

  ghost predicate Saved(p: Plan, disk: Disk, id: Id)
    requires id in p.Olds()
  {
    p.Olds()[id].name in disk && disk[p.Olds()[id].name] == Blob(p.Olds()[id].fp)
  }

  /** The metadata is there, and every original with fewer than `level` descents below it. */
  ghost predicate Backed(p: Plan, disk: Disk, level: nat) {
    p.original.Some? ==> METADATA in disk && HeldBelow(disk, p.OldNames(), p.OldFps(), level)
  }

  ghost predicate DiskKnown(p: Plan, journal: seq<Entry>, disk: Disk) {
    p.original.Some? ==>
      && (METADATA in disk ==> disk[METADATA] == Metadata(p.original.value.body, p.original.value.releaseId))
      && (METADATA !in disk ==> disk == map[] && !PublishIntended(journal))
      && Explained(disk, p.OldNames(), p.OldFps())
  }

  /** Nothing is uploaded before a backup has succeeded. */
  ghost predicate UploadsBacked(p: Plan, assets: map<Id, Asset>, disk: Disk) {
    (exists i :: i in assets && i !in p.Olds()) ==> Backed(p, disk, 1)
  }

  lemma NamesAreDistinct(p: Plan)
    requires p.original.Some? && ValidOriginal(p)
    ensures Distinct(p.OldNames()) && |p.OldNames()| == |p.OldFps()| == |p.OldOrder()|
    ensures forall k :: 0 <= k < |p.OldOrder()| ==> p.OldOrder()[k] in p.Olds() && p.OldNames()[k] == p.Olds()[p.OldOrder()[k]].name
                                                    && p.OldFps()[k] == p.Olds()[p.OldOrder()[k]].fp
  {
    forall k | 0 <= k < |p.OldOrder()| ensures p.OldOrder()[k] in p.Olds() {
      assert p.OldOrder()[k] in p.OldOrder();
    }
  }

  // ----- Intents and writes

  ghost predicate ActionSound(p: Plan, s: State, a: Action)
    requires ValidPlan(p)
  {
    match a
    case Created(i) => p.original.None? && Tagged(p, s.releases, i)
    case UploadIntent(n, _) => n.Pending? && n.base in p.fps
    case UnfinishedDeleteIntent(i, n) => i !in p.Olds() && n.Pending?
    case TagIntent(l, c) => l == p.Lease() && c == p.commit
    case PreserveIntent(i, n) => i in p.Olds() && n == p.PreservedName(i)
    case PromoteIntent(i, n) =>
      && i !in p.Olds() && n.Canonical? && n.base in p.fps && i < s.nextId
      && (i in s.assets ==> s.assets[i].name.base == n.base)
    case PublishIntent(_, n) => n == p.notes
    case DeleteIntent(i, n) => i in p.Olds() && n == p.PreservedName(i) && Settled(p, s.assets, s.tag, s.releases, s.disk)
    case _ => true
  }

  ghost predicate ActionsSound(p: Plan, s: State)
    requires ValidPlan(p)
  {
    forall a :: a in s.Acts() ==> ActionSound(p, s, a)
  }

  ghost predicate OriginalsKept(p: Plan, journal: seq<Entry>, assets: map<Id, Asset>) {
    forall i :: i in p.Olds() ==> i in assets || DeleteIntended(journal, i)
  }

  ghost predicate WriteOwned(p: Plan, s: State, w: Write) {
    && 0 < w.seen <= |s.journal|
    && Intends(s.journal[w.seen - 1].action, w.what) && Patient(p, w.what, s.journal[w.seen - 1].at)
    && (w.what.CreateRelease? ==> p.original.None? && Tagged(p, s.releases, w.what.id))
    && (w.what.UploadAsset? && w.what.complete ==> Ready(p, s.assets, w.what.name.base) && w.what.name.Pending?)
  }

  /** No release is created twice and no asset is completely uploaded twice. */
  predicate Repeats(v: Mutation, w: Mutation) {
    || (v.CreateRelease? && w.CreateRelease?)
    || (v.UploadAsset? && w.UploadAsset? && v.complete && w.complete && v.name == w.name)
  }

  ghost predicate WritesOwned(p: Plan, s: State) {
    && (forall k :: 0 <= k < |s.writes| ==> WriteOwned(p, s, s.writes[k]))
    && (forall i, k :: 0 <= i < k < |s.writes| ==> s.writes[i].seen < s.writes[k].seen && !Repeats(s.writes[i].what, s.writes[k].what))
  }

  ghost predicate Inv(p: Plan, s: State)
    requires ValidPlan(p)
  {
    && IdsKnown(p, s.assets, s.releases, s.nextId)
    && TimesKnown(s.journal, s.now)
    && AssetsKnown(p, s.journal, s.assets)
    && TagKnown(p, s.Acts(), s.tag)
    && ReleaseKnown(p, s.journal, s.releases)
    && NoEarlyAssets(p, s.journal, s.assets, s.releases)
    && DiskKnown(p, s.journal, s.disk)
    && UploadsBacked(p, s.assets, s.disk)
    && ActionsSound(p, s)
    && OriginalsKept(p, s.journal, s.assets)
    && WritesOwned(p, s)
  }

  /** Where a plan starts: nothing journaled, and no release or tag yet, or
      exactly the captured original. */
  ghost predicate Initial(p: Plan, s: State) {
    && s.journal == [] && s.disk == map[] && s.writes == []
    && (forall i :: i in s.releases ==> s.releases[i].id == i && i < s.nextId)
    && s.tag == p.OldTag()
    && s.assets.Keys == p.Olds().Keys
    && (forall i :: i in s.assets ==> i < s.nextId && s.assets[i].id == i && s.assets[i].name == Canonical(p.Olds()[i].name)
                                      && Matches(s.assets[i], p.Olds()[i].fp))
    && match p.original
       case None => forall i :: !Tagged(p, s.releases, i)
       case Some(o) =>
         && Tagged(p, s.releases, o.releaseId) && !s.releases[o.releaseId].draft && s.releases[o.releaseId].body == o.body
         && forall i :: Tagged(p, s.releases, i) ==> i == o.releaseId
  }

  lemma InitialInv(p: Plan, s: State)
    requires ValidPlan(p) && Initial(p, s)
    ensures Inv(p, s)
  {
    if p.original.Some? {
      assert ReleaseRecorded(p, s.journal, s.releases, p.original.value.releaseId);
    }
  }

  // ----- Recording keeps the invariant

  ghost predicate MayLog(p: Plan, s: State, a: Action)
    requires ValidPlan(p)
  {
    ActionSound(p, s, a) && (a.PublishIntent? && p.original.Some? ==> METADATA in s.disk)
  }

  lemma LogGrows(journal: seq<Entry>, e: Entry)
    ensures Actions(journal + [e]) == Actions(journal) + {e.action}
    ensures forall x :: x in journal + [e] <==> x in journal || x == e
  {
    ActionsAppend(journal, e);
  }

  lemma LogKeepsAssets(p: Plan, s: State, e: Entry)
    requires AssetsKnown(p, s.journal, s.assets) && OriginalsKept(p, s.journal, s.assets)
    ensures AssetsKnown(p, s.journal + [e], s.assets) && OriginalsKept(p, s.journal + [e], s.assets)
  {
    LogGrows(s.journal, e);
    forall i | i in s.assets ensures AssetKnown(p, s.journal + [e], s.assets[i]) {
      assert AssetKnown(p, s.journal, s.assets[i]);
    }
  }

  lemma LogKeepsActions(p: Plan, s: State, a: Action, at: int)
    requires ValidPlan(p) && ActionsSound(p, s) && ActionSound(p, s, a)
    ensures ActionsSound(p, DoLog(s, a, at))
  {
    LogGrows(s.journal, Entry(at, a));
    forall b | b in s.Acts() + {a} ensures ActionSound(p, DoLog(s, a, at), b) {
      assert ActionSound(p, s, b);
    }
  }

  lemma LogKeepsWrites(p: Plan, s: State, a: Action, at: int)
    requires WritesOwned(p, s)
    ensures WritesOwned(p, DoLog(s, a, at))
  {
    var t := DoLog(s, a, at);
    forall k | 0 <= k < |t.writes| ensures WriteOwned(p, t, t.writes[k]) {
      assert WriteOwned(p, s, s.writes[k]);
      assert t.journal[s.writes[k].seen - 1] == s.journal[s.writes[k].seen - 1];
    }
  }

  lemma LogAnnounces(p: Plan, s: State, a: Action, at: int)
    requires WritesOwned(p, s)
    ensures Announcing(DoLog(s, a, at), a)
  {
    forall k | 0 <= k < |s.writes| ensures s.writes[k].seen <= |s.journal| {
      assert WriteOwned(p, s, s.writes[k]);
    }
  }

  lemma LogKeepsRelease(p: Plan, s: State, e: Entry)
    requires ReleaseKnown(p, s.journal, s.releases) && TagKnown(p, s.Acts(), s.tag)
    requires NoEarlyAssets(p, s.journal, s.assets, s.releases)
    ensures ReleaseKnown(p, s.journal + [e], s.releases) && TagKnown(p, Actions(s.journal + [e]), s.tag)
    ensures NoEarlyAssets(p, s.journal + [e], s.assets, s.releases)
  {
    LogGrows(s.journal, e);
    if s.assets != map[] {
      var i :| ReleaseRecorded(p, s.journal, s.releases, i);
      assert ReleaseRecorded(p, s.journal + [e], s.releases, i);
    }
  }

  lemma LogKeepsDisk(p: Plan, s: State, a: Action, at: int)
    requires ValidPlan(p) && DiskKnown(p, s.journal, s.disk) && MayLog(p, s, a)
    ensures DiskKnown(p, DoLog(s, a, at).journal, s.disk)
  {
    LogGrows(s.journal, Entry(at, a));
  }

  lemma LogKeepsTimes(s: State, a: Action, at: int)
    requires TimesKnown(s.journal, s.now) && s.now <= at
    ensures TimesKnown(DoLog(s, a, at).journal, at)
  {
  }

  lemma LogKeepsInv(p: Plan, s: State, a: Action, at: int)
    requires ValidPlan(p) && Inv(p, s) && MayLog(p, s, a) && s.now <= at
    ensures Inv(p, DoLog(s, a, at))
  {
    LogKeepsAssets(p, s, Entry(at, a));
    LogKeepsActions(p, s, a, at);
    LogKeepsWrites(p, s, a, at);
    LogKeepsRelease(p, s, Entry(at, a));
    LogKeepsDisk(p, s, a, at);
    LogKeepsTimes(s, a, at);
  }
}
