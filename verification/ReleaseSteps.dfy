/** Every remote mutation and every backup step keeps the invariant. */
module ReleaseSteps {
  import opened Wrappers
  import opened ReleaseModel
  import opened ReleaseBackup
  import opened ReleaseInvariant

  /** A new write keeps the write history owned, if it was announced and repeats nothing. */
  lemma WriteKeepsWrites(p: Plan, s: State, t: State, m: Mutation)
    requires WritesOwned(p, s)
    requires t.journal == s.journal && t.writes == s.Wrote(m)
    requires forall i :: Tagged(p, s.releases, i) ==> Tagged(p, t.releases, i)
    requires forall n :: Ready(p, s.assets, n) ==> Ready(p, t.assets, n)
    requires (exists a :: Announcing(s, a) && Intends(a, m)) && Patient(p, m, s.journal[|s.journal| - 1].at)
    requires m.CreateRelease? ==> p.original.None? && Tagged(p, t.releases, m.id) && forall i :: !Tagged(p, s.releases, i)
    requires m.UploadAsset? && m.complete ==> m.name.Pending? && Ready(p, t.assets, m.name.base) && !Ready(p, s.assets, m.name.base)
    ensures WritesOwned(p, t)
  {
    forall k | 0 <= k < |t.writes| ensures WriteOwned(p, t, t.writes[k]) {
      if k < |s.writes| {
        assert WriteOwned(p, s, s.writes[k]);
      }
    }
    forall i, k | 0 <= i < k < |t.writes| ensures !Repeats(t.writes[i].what, t.writes[k].what) {
      if k == |s.writes| {
        assert WriteOwned(p, s, s.writes[i]);
      }
    }
  }

  /** Journaled intents stay sound while the release stays and a settled state stays settled. */
  lemma StepKeepsActions(p: Plan, s: State, t: State)
    requires ValidPlan(p) && ActionsSound(p, s)
    requires t.journal == s.journal && s.nextId <= t.nextId
    requires forall i :: Tagged(p, s.releases, i) ==> Tagged(p, t.releases, i)
    requires SameBases(s, t.assets)
    requires Settled(p, s.assets, s.tag, s.releases, s.disk) ==> Settled(p, t.assets, t.tag, t.releases, t.disk)
    ensures ActionsSound(p, t)
  {
    forall a | a in t.Acts() ensures ActionSound(p, t, a) {
      assert ActionSound(p, s, a);
    }
  }

  ghost predicate SameBases(s: State, after: map<Id, Asset>) {
    forall i :: i in after && i < s.nextId ==> i in s.assets && after[i].name.base == s.assets[i].name.base
  }

  // ----- Releases and tags

  lemma CreatedIsKnown(p: Plan, s: State, created: int)
    requires IdsKnown(p, s.assets, s.releases, s.nextId) && TimesKnown(s.journal, s.now)
    requires p.original.None? && (forall i :: !Tagged(p, s.releases, i))
    requires CreateIntent in s.Acts() && s.now - 5 <= created
    ensures ReleaseKnown(p, s.journal, DoCreate(s, p, created).releases)
    ensures IdsKnown(p, s.assets, DoCreate(s, p, created).releases, s.nextId + 1)
    ensures Tagged(p, DoCreate(s, p, created).releases, s.nextId)
  {
    var e :| e in s.journal && e.action == CreateIntent;
    assert Announced(s.journal, ByCreateIntent, created);
    forall i | Tagged(p, DoCreate(s, p, created).releases, i) ensures i == s.nextId {
      assert !Tagged(p, s.releases, i);
    }
  }

  lemma CreateKeepsInv(p: Plan, s: State, created: int)
    requires ValidPlan(p) && Inv(p, s)
    requires p.original.None? && (forall i :: !Tagged(p, s.releases, i))
    requires Announcing(s, CreateIntent) && s.now - 5 <= created
    ensures Inv(p, DoCreate(s, p, created))
  {
    AnnouncingActs(s, CreateIntent);
    assert Intends(CreateIntent, CreateRelease(s.nextId));
    var t := DoCreate(s, p, created);
    CreatedIsKnown(p, s, created);
    assert s.assets == map[] by {
      if i :| ReleaseRecorded(p, s.journal, s.releases, i) {
        assert false;
      }
    }
    StepKeepsActions(p, s, t);
    WriteKeepsWrites(p, s, t, CreateRelease(s.nextId));
  }

  lemma MoveTagKeepsInv(p: Plan, s: State)
    requires ValidPlan(p) && Inv(p, s)
    requires Announcing(s, TagIntent(p.Lease(), p.commit))
    ensures Inv(p, DoMoveTag(s, p.Lease(), p.commit))
  {
    AnnouncingActs(s, TagIntent(p.Lease(), p.commit));
    assert Intends(TagIntent(p.Lease(), p.commit), MoveTag(p.Lease(), p.commit));
    var t := DoMoveTag(s, p.Lease(), p.commit);
    StepKeepsActions(p, s, t);
    WriteKeepsWrites(p, s, t, MoveTag(p.Lease(), p.commit));
  }

  lemma PublishedIsKnown(p: Plan, s: State, id: Id, otherLatest: Option<Id>)
    requires IdsKnown(p, s.assets, s.releases, s.nextId) && ReleaseKnown(p, s.journal, s.releases)
    requires NoEarlyAssets(p, s.journal, s.assets, s.releases)
    requires ReleaseRecorded(p, s.journal, s.releases, id) && PublishIntent(id, p.notes) in s.Acts()
    ensures ReleaseKnown(p, s.journal, DoPublish(s, p, id, otherLatest).releases)
    ensures NoEarlyAssets(p, s.journal, s.assets, DoPublish(s, p, id, otherLatest).releases)
    ensures IdsKnown(p, s.assets, DoPublish(s, p, id, otherLatest).releases, s.nextId)
    ensures forall i :: Tagged(p, s.releases, i) ==> Tagged(p, DoPublish(s, p, id, otherLatest).releases, i)
    ensures Settled(p, s.assets, s.tag, s.releases, s.disk) ==> Settled(p, s.assets, s.tag, DoPublish(s, p, id, otherLatest).releases, s.disk)
  {
    var t := DoPublish(s, p, id, otherLatest);
    assert PublishIntended(s.journal);
    assert forall i :: Tagged(p, t.releases, i) <==> Tagged(p, s.releases, i);
    assert ReleaseRecorded(p, s.journal, t.releases, id);
  }

  lemma PublishKeepsInv(p: Plan, s: State, id: Id, otherLatest: Option<Id>)
    requires ValidPlan(p) && Inv(p, s)
    requires ReleaseRecorded(p, s.journal, s.releases, id) && Announcing(s, PublishIntent(id, p.notes))
    ensures Inv(p, DoPublish(s, p, id, otherLatest))
  {
    AnnouncingActs(s, PublishIntent(id, p.notes));
    assert Intends(PublishIntent(id, p.notes), PublishRelease(id));
    var t := DoPublish(s, p, id, otherLatest);
    PublishedIsKnown(p, s, id, otherLatest);
    StepKeepsActions(p, s, t);
    WriteKeepsWrites(p, s, t, PublishRelease(id));
  }

  // ----- Assets

  /** What a step on one asset has to keep. */
  ghost predicate AssetStep(p: Plan, s: State, t: State, m: Mutation) {
    && t == s.(assets := t.assets, nextId := t.nextId, writes := s.Wrote(m)) && s.nextId <= t.nextId
    && IdsKnown(p, t.assets, t.releases, t.nextId)
    && AssetsKnown(p, t.journal, t.assets)
    && OriginalsKept(p, t.journal, t.assets)
    && NoEarlyAssets(p, t.journal, t.assets, t.releases)
    && UploadsBacked(p, t.assets, t.disk)
    && SameBases(s, t.assets)
    && (Settled(p, s.assets, s.tag, s.releases, s.disk) ==> Settled(p, t.assets, t.tag, t.releases, t.disk))
    && (forall n :: Ready(p, s.assets, n) ==> Ready(p, t.assets, n))
    && (exists a :: Announcing(s, a) && Intends(a, m)) && !m.CreateRelease? && Patient(p, m, s.journal[|s.journal| - 1].at)
    && (m.UploadAsset? && m.complete ==> m.name.Pending? && Ready(p, t.assets, m.name.base) && !Ready(p, s.assets, m.name.base))
  }

  lemma AssetStepKeepsInv(p: Plan, s: State, t: State, m: Mutation)
    requires ValidPlan(p) && Inv(p, s) && AssetStep(p, s, t, m)
    ensures Inv(p, t)
  {
    StepKeepsActions(p, s, t);
    WriteKeepsWrites(p, s, t, m);
  }

  lemma ReadyKept(p: Plan, before: map<Id, Asset>, after: map<Id, Asset>)
    requires forall i :: i in before && before[i].uploaded && before[i].id !in p.Olds() ==>
                           i in after && after[i] == before[i].(name := after[i].name) && after[i].name.base == before[i].name.base
    ensures forall n :: Ready(p, before, n) ==> Ready(p, after, n)
  {
    forall n | Ready(p, before, n) ensures Ready(p, after, n) {
      var i :| i in before && ReadyAs(p, before[i], n);
      assert ReadyAs(p, after[i], n);
    }
  }

  /** No upload of this plan exists for `base`, complete or not. */
  ghost predicate NotUploaded(p: Plan, assets: map<Id, Asset>, base: string) {
    forall i :: i in assets && assets[i].id !in p.Olds() ==> assets[i].name.base != base
  }

  ghost predicate MayUpload(p: Plan, s: State, base: string, id: Id) {
    base in p.fps && NotUploaded(p, s.assets, base) && ReleaseRecorded(p, s.journal, s.releases, id)
    && Announcing(s, UploadIntent(Pending(base), p.fps[base].sha256)) && Backed(p, s.disk, 1)
  }

  lemma AddKeepsAssets(p: Plan, s: State, a: Asset)
    requires IdsKnown(p, s.assets, s.releases, s.nextId) && AssetsKnown(p, s.journal, s.assets)
    requires a.id == s.nextId && NotUploaded(p, s.assets, a.name.base) && a.name.Pending? && AssetKnown(p, s.journal, a)
    ensures IdsKnown(p, s.assets[s.nextId := a], s.releases, s.nextId + 1) && AssetsKnown(p, s.journal, s.assets[s.nextId := a])
    ensures SameBases(s, s.assets[s.nextId := a])
    ensures forall n :: Ready(p, s.assets, n) ==> Ready(p, s.assets[s.nextId := a], n)
    ensures !Ready(p, s.assets, a.name.base)
  {
    forall i | i in s.assets ensures s.assets[i].name != a.name {
      assert AssetKnown(p, s.journal, s.assets[i]);
    }
    ReadyKept(p, s.assets, s.assets[s.nextId := a]);
  }

  lemma UploadIsStep(p: Plan, s: State, base: string, fp: Fingerprint, complete: bool, created: int, id: Id)
    requires IdsKnown(p, s.assets, s.releases, s.nextId) && TimesKnown(s.journal, s.now)
    requires AssetsKnown(p, s.journal, s.assets) && OriginalsKept(p, s.journal, s.assets)
    requires MayUpload(p, s, base, id) && s.now - 5 <= created && (complete ==> fp == p.fps[base])
    ensures AssetStep(p, s, DoUpload(s, Pending(base), fp, complete, created), UploadAsset(s.nextId, Pending(base), complete))
  {
    var t := DoUpload(s, Pending(base), fp, complete, created);
    assert Announced(s.journal, ByUploadIntent(Pending(base)), created) by {
      assert s.journal[|s.journal| - 1] in s.journal;
    }
    assert Intends(UploadIntent(Pending(base), p.fps[base].sha256), UploadAsset(s.nextId, Pending(base), complete));
    AddKeepsAssets(p, s, t.assets[s.nextId]);
    assert !Settled(p, s.assets, s.tag, s.releases, s.disk) by {
      assert Ready(p, s.assets, base) || !InPlace(p, s.assets, base);
    }
    assert complete ==> ReadyAs(p, t.assets[s.nextId], base);
  }

  lemma UploadKeepsInv(p: Plan, s: State, base: string, fp: Fingerprint, complete: bool, created: int, id: Id)
    requires ValidPlan(p) && Inv(p, s)
    requires MayUpload(p, s, base, id) && s.now - 5 <= created && (complete ==> fp == p.fps[base])
    ensures Inv(p, DoUpload(s, Pending(base), fp, complete, created))
  {
    UploadIsStep(p, s, base, fp, complete, created, id);
    AssetStepKeepsInv(p, s, DoUpload(s, Pending(base), fp, complete, created), UploadAsset(s.nextId, Pending(base), complete));
  }

  lemma DeleteKeepsAssets(p: Plan, s: State, id: Id)
    requires id in s.assets && AssetsKnown(p, s.journal, s.assets) && IdsKnown(p, s.assets, s.releases, s.nextId)
    ensures AssetsKnown(p, s.journal, DoDelete(s, id).assets) && IdsKnown(p, DoDelete(s, id).assets, s.releases, s.nextId)
    ensures SameBases(s, DoDelete(s, id).assets)
  {
  }

  lemma DeleteUnfinishedKeepsInv(p: Plan, s: State, id: Id)
    requires ValidPlan(p) && Inv(p, s)
    requires id in s.assets && id !in p.Olds() && !s.assets[id].uploaded
    requires Announcing(s, UnfinishedDeleteIntent(id, s.assets[id].name)) && s.assets[id].created + 300 <= s.journal[|s.journal| - 1].at
    ensures Inv(p, DoDelete(s, id))
  {
    DeleteUnfinishedIsStep(p, s, id);
    AssetStepKeepsInv(p, s, DoDelete(s, id), DeleteAsset(id, s.assets[id]));
  }

  lemma DeleteUnfinishedIsStep(p: Plan, s: State, id: Id)
    requires IdsKnown(p, s.assets, s.releases, s.nextId) && AssetsKnown(p, s.journal, s.assets)
    requires OriginalsKept(p, s.journal, s.assets) && NoEarlyAssets(p, s.journal, s.assets, s.releases) && UploadsBacked(p, s.assets, s.disk)
    requires id in s.assets && id !in p.Olds() && !s.assets[id].uploaded
    requires Announcing(s, UnfinishedDeleteIntent(id, s.assets[id].name)) && s.assets[id].created + 300 <= s.journal[|s.journal| - 1].at
    ensures AssetStep(p, s, DoDelete(s, id), DeleteAsset(id, s.assets[id]))
  {
    assert AssetKnown(p, s.journal, s.assets[id]);
    assert !Settled(p, s.assets, s.tag, s.releases, s.disk);
    assert Intends(UnfinishedDeleteIntent(id, s.assets[id].name), DeleteAsset(id, s.assets[id]));
    DeleteKeepsAssets(p, s, id);
    ReadyKept(p, s.assets, DoDelete(s, id).assets);
  }

  lemma RenameKeepsAssets(p: Plan, s: State, id: Id, name: Name)
    requires AssetsKnown(p, s.journal, s.assets) && id in s.assets
    requires name.base == s.assets[id].name.base && AssetKnown(p, s.journal, s.assets[id].(name := name))
    ensures AssetsKnown(p, s.journal, s.assets[id := s.assets[id].(name := name)])
  {
    var after := s.assets[id := s.assets[id].(name := name)];
    forall i | i in after ensures AssetKnown(p, s.journal, after[i]) {
      assert AssetKnown(p, s.journal, s.assets[i]);
    }
    forall i, k | i in after && k in after && SameUpload(p, after[i], after[k]) ensures i == k {
      assert SameUpload(p, s.assets[i], s.assets[k]);
    }
  }

  lemma RenameKeepsIds(p: Plan, s: State, id: Id, name: Name)
    requires IdsKnown(p, s.assets, s.releases, s.nextId) && id in s.assets && NameFree(s, name)
    ensures IdsKnown(p, s.assets[id := s.assets[id].(name := name)], s.releases, s.nextId)
  {
  }

  lemma RenameKeepsRest(p: Plan, s: State, id: Id, name: Name)
    requires OriginalsKept(p, s.journal, s.assets) && id in s.assets && name.base == s.assets[id].name.base
    ensures OriginalsKept(p, s.journal, s.assets[id := s.assets[id].(name := name)])
    ensures SameBases(s, s.assets[id := s.assets[id].(name := name)])
    ensures forall n :: Ready(p, s.assets, n) ==> Ready(p, s.assets[id := s.assets[id].(name := name)], n)
  {
    ReadyKept(p, s.assets, s.assets[id := s.assets[id].(name := name)]);
  }

  lemma RenameIsStep(p: Plan, s: State, id: Id, name: Name)
    requires AssetsKnown(p, s.journal, s.assets) && IdsKnown(p, s.assets, s.releases, s.nextId)
    requires OriginalsKept(p, s.journal, s.assets) && NoEarlyAssets(p, s.journal, s.assets, s.releases) && UploadsBacked(p, s.assets, s.disk)
    requires id in s.assets && name.base == s.assets[id].name.base && NameFree(s, name)
    requires AssetKnown(p, s.journal, s.assets[id].(name := name)) && (exists a :: Announcing(s, a) && Intends(a, RenameAsset(id, name)))
    requires !Settled(p, s.assets, s.tag, s.releases, s.disk)
    ensures AssetStep(p, s, DoRename(s, id, name), RenameAsset(id, name))
  {
    RenameKeepsAssets(p, s, id, name);
    RenameKeepsIds(p, s, id, name);
    RenameKeepsRest(p, s, id, name);
  }

  lemma PreserveFacts(p: Plan, s: State, id: Id)
    requires ValidPlan(p) && IdsKnown(p, s.assets, s.releases, s.nextId) && AssetsKnown(p, s.journal, s.assets)
    requires id in s.assets && id in p.Olds() && s.assets[id].name.Canonical?
    ensures NameFree(s, p.PreservedName(id)) && !Settled(p, s.assets, s.tag, s.releases, s.disk) && s.assets[id].name.base == p.Olds()[id].name
    ensures PreserveIntent(id, p.PreservedName(id)) in s.Acts() ==> AssetKnown(p, s.journal, s.assets[id].(name := p.PreservedName(id)))
  {
    forall i | i in s.assets ensures s.assets[i].name != p.PreservedName(id) {
      assert AssetKnown(p, s.journal, s.assets[i]);
    }
    assert AssetKnown(p, s.journal, s.assets[id]);
    assert PreserveIntent(id, p.PreservedName(id)) in s.Acts() ==> PreserveIntended(s.journal, id);
  }

  lemma PreserveKeepsInv(p: Plan, s: State, id: Id)
    requires ValidPlan(p) && Inv(p, s)
    requires id in s.assets && id in p.Olds() && s.assets[id].name.Canonical?
    requires Announcing(s, PreserveIntent(id, p.PreservedName(id)))
    ensures Inv(p, DoRename(s, id, p.PreservedName(id)))
  {
    AnnouncingActs(s, PreserveIntent(id, p.PreservedName(id)));
    assert Intends(PreserveIntent(id, p.PreservedName(id)), RenameAsset(id, p.PreservedName(id)));
    PreserveFacts(p, s, id);
    RenameIsStep(p, s, id, p.PreservedName(id));
    AssetStepKeepsInv(p, s, DoRename(s, id, p.PreservedName(id)), RenameAsset(id, p.PreservedName(id)));
  }

  lemma PromoteFacts(p: Plan, s: State, id: Id, base: string)
    requires IdsKnown(p, s.assets, s.releases, s.nextId) && AssetsKnown(p, s.journal, s.assets)
    requires id in s.assets && id !in p.Olds() && s.assets[id].uploaded && s.assets[id].name == Pending(base)
    ensures !Settled(p, s.assets, s.tag, s.releases, s.disk)
    ensures PromoteIntent(id, Canonical(base)) in s.Acts() ==> AssetKnown(p, s.journal, s.assets[id].(name := Canonical(base)))
  {
    assert AssetKnown(p, s.journal, s.assets[id]);
    assert PromoteIntent(id, Canonical(base)) in s.Acts() ==> PromoteIntended(s.journal, id);
  }

  lemma PromoteKeepsInv(p: Plan, s: State, id: Id, base: string)
    requires ValidPlan(p) && Inv(p, s)
    requires id in s.assets && id !in p.Olds() && s.assets[id].uploaded && s.assets[id].name == Pending(base)
    requires NameFree(s, Canonical(base)) && Announcing(s, PromoteIntent(id, Canonical(base)))
    ensures Inv(p, DoRename(s, id, Canonical(base)))
  {
    AnnouncingActs(s, PromoteIntent(id, Canonical(base)));
    assert Intends(PromoteIntent(id, Canonical(base)), RenameAsset(id, Canonical(base)));
    PromoteFacts(p, s, id, base);
    RenameIsStep(p, s, id, Canonical(base));
    AssetStepKeepsInv(p, s, DoRename(s, id, Canonical(base)), RenameAsset(id, Canonical(base)));
  }

  lemma DeleteKeepsArranged(p: Plan, s: State, id: Id)
    requires id in s.assets && Arranged(p, s.assets) && id in p.Olds() && IdsKnown(p, s.assets, s.releases, s.nextId)
    ensures Arranged(p, DoDelete(s, id).assets)
  {
    var after := DoDelete(s, id).assets;
    forall n | n in p.fps ensures InPlace(p, after, n) {
      var i :| i in s.assets && ReadyAs(p, s.assets[i], n) && s.assets[i].name == Canonical(n);
      assert i in after && after[i] == s.assets[i];
    }
  }

  lemma DeleteOriginalIsStep(p: Plan, s: State, id: Id)
    requires IdsKnown(p, s.assets, s.releases, s.nextId) && AssetsKnown(p, s.journal, s.assets)
    requires OriginalsKept(p, s.journal, s.assets) && NoEarlyAssets(p, s.journal, s.assets, s.releases) && UploadsBacked(p, s.assets, s.disk)
    requires id in s.assets && id in p.Olds() && Announcing(s, DeleteIntent(id, p.PreservedName(id))) && Settled(p, s.assets, s.tag, s.releases, s.disk)
    ensures AssetStep(p, s, DoDelete(s, id), DeleteAsset(id, s.assets[id]))
  {
    assert DeleteIntended(s.journal, id) by {
      assert s.journal[|s.journal| - 1] in s.journal;
    }
    assert Intends(DeleteIntent(id, p.PreservedName(id)), DeleteAsset(id, s.assets[id]));
    DeleteKeepsArranged(p, s, id);
    DeleteKeepsAssets(p, s, id);
    ReadyKept(p, s.assets, DoDelete(s, id).assets);
  }

  lemma DeleteOriginalKeepsInv(p: Plan, s: State, id: Id)
    requires ValidPlan(p) && Inv(p, s)
    requires id in s.assets && id in p.Olds() && Announcing(s, DeleteIntent(id, p.PreservedName(id)))
    ensures Inv(p, DoDelete(s, id))
  {
    AnnouncingActs(s, DeleteIntent(id, p.PreservedName(id)));
    assert ActionSound(p, s, DeleteIntent(id, p.PreservedName(id)));
    DeleteOriginalIsStep(p, s, id);
    AssetStepKeepsInv(p, s, DoDelete(s, id), DeleteAsset(id, s.assets[id]));
  }

  // ----- Backup directory

  lemma DiskKeepsWrites(p: Plan, s: State, disk: Disk)
    requires WritesOwned(p, s)
    ensures WritesOwned(p, s.(disk := disk))
  {
    forall k | 0 <= k < |s.writes| ensures WriteOwned(p, s.(disk := disk), s.writes[k]) {
      assert WriteOwned(p, s, s.writes[k]);
    }
  }

  lemma DiskKeepsInv(p: Plan, s: State, disk: Disk)
    requires ValidPlan(p) && Inv(p, s) && DiskKnown(p, s.journal, disk)
    requires forall level :: Backed(p, s.disk, level) ==> Backed(p, disk, level)
    ensures Inv(p, s.(disk := disk))
  {
    hide Backed;
    StepKeepsActions(p, s, s.(disk := disk));
    DiskKeepsWrites(p, s, disk);
  }

  /** What an interrupted download of a missing original leaves. */
  lemma DownloadKeepsInv(p: Plan, s: State, k: nat, after: Disk)
    requires ValidPlan(p) && Inv(p, s) && p.original.Some? && k < |p.OldOrder()| && METADATA in s.disk
    requires p.OldNames()[k] !in s.disk && SameExcept(s.disk, after, p.OldNames()[k] + INCOMPLETE)
    ensures Inv(p, s.(disk := after)) && METADATA in after
  {
    NamesAreDistinct(p);
    IncompleteIsNotMetadata(p.OldNames()[k]);
    assert DiskKnown(p, s.journal, after) by {
      DownloadKeeps(s.disk, after, p.OldNames(), p.OldFps(), k, 0);
    }
    forall level: nat ensures Backed(p, s.disk, level) ==> Backed(p, after, level) {
      DownloadKeeps(s.disk, after, p.OldNames(), p.OldFps(), k, level);
    }
    DiskKeepsInv(p, s, after);
  }

  lemma MoveKeepsInv(p: Plan, s: State, k: nat)
    requires ValidPlan(p) && Inv(p, s) && p.original.Some? && k < |p.OldOrder()| && METADATA in s.disk
    requires p.OldNames()[k] !in s.disk
    ensures var after := Moved(s.disk, p.OldNames()[k], p.OldFps()[k]);
            Inv(p, s.(disk := after)) && METADATA in after
  {
    var after := Moved(s.disk, p.OldNames()[k], p.OldFps()[k]);
    NamesAreDistinct(p);
    IncompleteIsNotMetadata(p.OldNames()[k]);
    assert DiskKnown(p, s.journal, after) by {
      MoveKeeps(s.disk, p.OldNames(), p.OldFps(), k, 0);
    }
    forall level: nat ensures Backed(p, s.disk, level) ==> Backed(p, after, level) {
      MoveKeeps(s.disk, p.OldNames(), p.OldFps(), k, level);
    }
    DiskKeepsInv(p, s, after);
  }
}
