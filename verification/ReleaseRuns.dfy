/** Safety over all interrupted runs of the publisher, and convergence after them. */
module ReleaseRuns {
  import opened Wrappers
  import opened ReleaseModel
  import opened ReleaseBackup
  import opened ReleaseInvariant
  import opened ReleasePublisher

  // ----- Safety of every state an interrupted run can leave

  /** Nothing is deleted before it is replaced and, where the names heal, backed up; and nothing
      is lost before deletion is intended. */
  ghost predicate OriginalsSafe(p: Plan, s: State) {
    && (forall i :: i in p.Olds() && i !in s.assets ==>
          && (forall n :: n in p.fps ==> InPlace(p, s.assets, n))
          && s.tag == Some(TagRef(p.commit, p.commit))
          && Published(p, s.releases, p.original.value.releaseId)
          && (HealingNames(p.OldNames()) ==> Saved(p, s.disk, i)))
    && (forall i :: i in p.Olds() && !DeleteIntended(s.journal, i) ==>
          && i in s.assets && Matches(s.assets[i], p.Olds()[i].fp)
          && (s.assets[i].name == Canonical(p.Olds()[i].name) || s.assets[i].name == p.PreservedName(i)))
  }

  lemma OriginalsAreSafe(p: Plan, s: State)
    requires ValidPlan(p) && Inv(p, s)
    ensures OriginalsSafe(p, s)
  {
    hide Inv, Settled, HealingNames, Saved;
    forall i | i in p.Olds() && i !in s.assets
      ensures Settled(p, s.assets, s.tag, s.releases, s.disk)
    {
      InvOriginal(p, s, i);
      DeleteMeansSettled(p, s, i);
    }
    forall i | i in p.Olds() && i !in s.assets
      ensures (forall n :: n in p.fps ==> InPlace(p, s.assets, n)) && s.tag == Some(TagRef(p.commit, p.commit))
      ensures Published(p, s.releases, p.original.value.releaseId) && (HealingNames(p.OldNames()) ==> Saved(p, s.disk, i))
    {
      SettledMeans(p, s, i);
    }
    forall i | i in p.Olds() ensures i in s.assets || DeleteIntended(s.journal, i)
      ensures i in s.assets ==> AssetKnown(p, s.journal, s.assets[i]) && s.assets[i].id == i
    {
      InvOriginal(p, s, i);
    }
  }

  lemma SettledMeans(p: Plan, s: State, i: Id)
    requires ValidPlan(p) && Inv(p, s) && Settled(p, s.assets, s.tag, s.releases, s.disk) && i in p.Olds()
    ensures (forall n :: n in p.fps ==> InPlace(p, s.assets, n)) && s.tag == Some(TagRef(p.commit, p.commit))
    ensures Published(p, s.releases, p.original.value.releaseId) && (HealingNames(p.OldNames()) ==> Saved(p, s.disk, i))
  {
    hide Inv;
    NamesAreDistinct(p);
    InvMetadata(p, s);
    assert i in p.original.value.order;
    var k :| 0 <= k < |p.OldOrder()| && p.OldOrder()[k] == i;
    forall m | 0 <= m < |p.OldNames()| ensures p.OldNames()[m] != METADATA {
      if p.OldNames()[m] == METADATA {
        MetadataIsLowest(p.OldNames(), m);
      }
    }
    assert HealingNames(p.OldNames()) ==> Held(s.disk, p.OldNames(), p.OldFps(), k);
  }

  lemma MetadataIsLowest(names: seq<string>, m: nat)
    requires m < |names| && names[m] == METADATA
    ensures Descents(names, m) == 0
  {
    if Lower(names, m).Some? {
      IncompleteIsNotMetadata(names[Lower(names, m).value]);
    }
  }

  /** The intent of a write, and what it says about the plan. */
  ghost predicate Announces(p: Plan, a: Action, m: Mutation) {
    match m
    case CreateRelease(_) => a.CreateIntent?
    case UploadAsset(_, n, _) => a.UploadIntent? && a.name == n && n.Pending? && n.base in p.fps
    case RenameAsset(i, n) => a in {PreserveIntent(i, n), PromoteIntent(i, n)} && (i in p.Olds() <==> a.PreserveIntent?)
    case DeleteAsset(i, _) => (a.DeleteIntent? || a.UnfinishedDeleteIntent?) && a.id == i && (i in p.Olds() <==> a.DeleteIntent?)
    case MoveTag(l, c) => a == TagIntent(l, c) && l == p.Lease() && c == p.commit
    case PublishRelease(i) => a == PublishIntent(i, p.notes)
  }

  /** Every write follows its own durable intent, the last thing recorded before it, which no
      other write uses; only originals and announced uploads are renamed or deleted, of the latter
      only unfinished ones and only five minutes after they were begun; no release
      is created twice, no asset is uploaded completely twice, and no second release carries
      the tag. */
  ghost predicate WritesAnnounced(p: Plan, s: State) {
    && (forall k :: 0 <= k < |s.writes| ==>
          && 0 < s.writes[k].seen <= |s.journal| && Announces(p, s.journal[s.writes[k].seen - 1].action, s.writes[k].what)
          && Patient(p, s.writes[k].what, s.journal[s.writes[k].seen - 1].at))
    && (forall i, k :: 0 <= i < k < |s.writes| ==> s.writes[i].seen < s.writes[k].seen && !Repeats(s.writes[i].what, s.writes[k].what))
    && (forall i, k :: Tagged(p, s.releases, i) && Tagged(p, s.releases, k) ==> i == k)
  }

  lemma WritesAreAnnounced(p: Plan, s: State)
    requires ValidPlan(p) && Inv(p, s)
    ensures WritesAnnounced(p, s)
  {
    hide ActionsSound, ReleaseKnown, AssetsKnown, Repeats;
    assert forall i, k :: Tagged(p, s.releases, i) && Tagged(p, s.releases, k) ==> i == k by {
      InvRelease(p, s);
      OneTagged(p, s);
    }
    forall k | 0 <= k < |s.writes|
      ensures 0 < s.writes[k].seen <= |s.journal| && Announces(p, s.journal[s.writes[k].seen - 1].action, s.writes[k].what)
      ensures Patient(p, s.writes[k].what, s.journal[s.writes[k].seen - 1].at)
    {
      assert WriteOwned(p, s, s.writes[k]);
      AnnouncedByIntent(p, s, s.writes[k]);
    }
  }

  lemma OneTagged(p: Plan, s: State)
    requires ReleaseKnown(p, s.journal, s.releases)
    ensures forall i, k :: Tagged(p, s.releases, i) && Tagged(p, s.releases, k) ==> i == k
  {
  }

  lemma AnnouncedByIntent(p: Plan, s: State, w: Write)
    requires ValidPlan(p) && ActionsSound(p, s)
    requires 0 < w.seen <= |s.journal| && Intends(s.journal[w.seen - 1].action, w.what)
    ensures Announces(p, s.journal[w.seen - 1].action, w.what)
  {
    var a := s.journal[w.seen - 1].action;
    assert s.journal[w.seen - 1] in s.journal && a in s.Acts();
    assert ActionSound(p, s, a);
  }

  // ----- Runs

  lemma WaitingKeepsInv(p: Plan, s: State, now: int)
    requires ValidPlan(p) && Inv(p, s) && s.now <= now
    ensures Inv(p, s.(now := now))
  {
    forall a | a in s.Acts() ensures ActionSound(p, s.(now := now), a) {
      assert ActionSound(p, s, a);
    }
    forall k | 0 <= k < |s.writes| ensures WriteOwned(p, s.(now := now), s.writes[k]) {
      assert WriteOwned(p, s, s.writes[k]);
    }
  }

  datatype Command = RunStage | RunPublish | RunReplace | RunVerify

  /** One process: what it does, how long after the last one, and the planned files it finds. */
  datatype Process = Process(command: Command, delay: nat, local: map<string, Fingerprint>)

  /** A process may fail at any point, unless `reliable`. */
  method RunOnce(p: Plan, s: State, process: Process, reliable: bool) returns (after: State, ok: bool)
    requires ValidPlan(p) && Inv(p, s)
    ensures Inv(p, after) && Grew(s, after)
    ensures process.command.RunStage? && reliable && process.local == p.fps && Aged(s.(now := s.now + process.delay)) && CanBackUp(p, s) ==>
      ok && AllReady(p, after)
    ensures (process.command == if p.original.Some? then RunReplace else RunPublish) && reliable && AllReady(p, s) && CanBackUp(p, s) ==>
      ok && Complete(p, after)
    ensures !process.command.RunVerify? && reliable && ok && OriginalsThere(p, s.assets) ==> Some(after.disk) == Pass(p, s.disk)
    ensures process.command.RunStage? ==>
      Spared(p, s, after) && ((exists i :: i in s.assets && !s.assets[i].uploaded && after.now < s.assets[i].created + 300) ==> !ok)
    ensures Complete(p, s) ==> SameRemote(s, after) && Complete(p, after)
    ensures Jammed(p, s.disk) ==> SameRemote(s, after) && Jammed(p, after.disk) && (ok ==> process.command.RunVerify?)
  {
    hide Inv, AssetsShown, Published, Jammed, Pass, SafeNames, OriginalsThere, Ready, Spared;
    SparedFrom(p, s, process.delay);
    var begin := s.(now := s.now + process.delay);
    WaitingKeepsInv(p, s, begin.now);
    SameCanBackUp(p, s, begin);
    if Complete(p, s) {
      CompleteIsReady(p, s);
    }
    var publisher := new Publisher(p, process.local, reliable, None, begin);
    var r;
    match process.command {
      case RunStage => r := publisher.Stage();
      case RunPublish => r := publisher.Publish(false);
      case RunReplace => r := publisher.Publish(true);
      case RunVerify => r := publisher.Verify(false);
    }
    after, ok := publisher.s, r.Ok?;
    if Complete(p, s) {
      StillComplete(p, s, after);
    }
  }

  lemma SparedFrom(p: Plan, s: State, delay: nat)
    ensures forall t: State :: Spared(p, s.(now := s.now + delay), t) ==> Spared(p, s, t)
    ensures forall t: State :: Spared(p, s, t) && OriginalsThere(p, s.assets) ==> OriginalsThere(p, t.assets)
  {
  }

  lemma CompleteIsReady(p: Plan, s: State)
    requires ValidPlan(p) && Inv(p, s) && Complete(p, s)
    ensures AllReady(p, s) && forall now :: Complete(p, s.(now := now))
  {
    hide Inv;
    var id :| ShownAs(p, s, false, id);
    CompleteMeans(p, s, id);
    forall now ensures Complete(p, s.(now := now)) {
      assert ShownAs(p, s.(now := now), false, id);
    }
  }

  lemma StillComplete(p: Plan, s: State, t: State)
    requires Complete(p, s) && SameRemote(s, t)
    ensures Complete(p, t)
  {
    var id :| ShownAs(p, s, false, id);
    assert ShownAs(p, t, false, id);
  }

  /** Once the plan is complete, no further run of any command, interrupted or not, changes
      anything at the service. */
  method RunsAfterCompletion(p: Plan, start: State, processes: seq<(Process, bool)>) returns (s: State)
    requires ValidPlan(p) && Inv(p, start) && Complete(p, start)
    ensures Inv(p, s) && Complete(p, s) && SameRemote(start, s)
  {
    hide Inv, Complete;
    s := start;
    for k := 0 to |processes|
      invariant Inv(p, s) && Complete(p, s) && SameRemote(start, s)
    {
      var ok;
      s, ok := RunOnce(p, s, processes[k].0, processes[k].1);
    }
  }

  /** Any number of interrupted runs, in any order, from the start of a plan. */
  method InterruptedRuns(p: Plan, start: State, processes: seq<Process>) returns (s: State)
    requires ValidPlan(p) && Initial(p, start)
    ensures Inv(p, s) && Grew(start, s)
    ensures OriginalsSafe(p, s) && WritesAnnounced(p, s)
  {
    hide Inv, OriginalsSafe, WritesAnnounced;
    InitialInv(p, start);
    s := start;
    for k := 0 to |processes|
      invariant Inv(p, s) && Grew(start, s)
    {
      var ok;
      s, ok := RunOnce(p, s, processes[k], false);
    }
    OriginalsAreSafe(p, s);
    WritesAreAnnounced(p, s);
  }

  /** How long to wait until every unfinished upload is five minutes old. */
  method WaitForUploads(s: State) returns (delay: nat)
    ensures Aged(s.(now := s.now + delay))
  {
    delay := 0;
    var left := s.assets.Keys;
    while left != {}
      invariant left <= s.assets.Keys
      invariant forall i :: i in s.assets && i !in left ==> s.assets[i].created + 300 <= s.now + delay
    {
      var i :| i in left;
      left := left - {i};
      if s.now + delay < s.assets[i].created + 300 {
        delay := s.assets[i].created + 300 - s.now;
      }
    }
  }

  /** After any interrupted runs, one stage run and one publish or replace run
      without faults complete the plan, if no original stands in the way of a later one. */
  method Converges(p: Plan, start: State, processes: seq<Process>) returns (s: State)
    requires ValidPlan(p) && Initial(p, start) && SafeNames(p.OldNames())
    ensures Inv(p, s) && Complete(p, s)
    ensures OriginalsSafe(p, s) && WritesAnnounced(p, s)
  {
    hide Inv, OriginalsSafe, WritesAnnounced, Complete, SafeNames;
    s := InterruptedRuns(p, start, processes);
    var delay := WaitForUploads(s);
    var ok;
    s, ok := RunOnce(p, s, Process(RunStage, delay, p.fps), true);
    s, ok := RunOnce(p, s, Process(if p.original.Some? then RunReplace else RunPublish, 0, p.fps), true);
    OriginalsAreSafe(p, s);
    WritesAreAnnounced(p, s);
  }

  // ----- Names for which that fails

  /** A blocked directory stops the plan for good: whatever processes follow, faulty or not, none
      but `verify` succeeds, and nothing at the service ever changes. */
  method JammedRuns(p: Plan, start: State, processes: seq<(Process, bool)>) returns (s: State)
    requires ValidPlan(p) && Inv(p, start) && Jammed(p, start.disk)
    ensures Inv(p, s) && Jammed(p, s.disk) && SameRemote(start, s)
  {
    hide Inv, Jammed;
    s := start;
    for k := 0 to |processes|
      invariant Inv(p, s) && Jammed(p, s.disk) && SameRemote(start, s)
    {
      var ok;
      s, ok := RunOnce(p, s, processes[k].0, processes[k].1);
    }
  }

  /** For every plan with other names, one stage run with a single fault, an interrupted download,
      blocks the directory before anything has changed at the service. */
  method GetsJammed(p: Plan, start: State) returns (s: State)
    requires ValidPlan(p) && Initial(p, start) && p.original.Some? && !SafeNames(p.OldNames())
    ensures Inv(p, s) && Jammed(p, s.disk) && SameRemote(start, s) && !Complete(p, s)
  {
    hide Inv, SafeNames, Interrupted, Jammed, Complete, ValidPlan;
    InitialInv(p, start);
    NamesOfPlan(p);
    SafeOrBlocked(p.OldNames());
    if METADATA in p.OldNames() {
      s := start;
      MetadataJams(p, s.disk);
    } else {
      var i, j :| 0 <= i < j < |p.OldNames()| && Under(p.OldNames(), j, i);
      var rest := Fingerprint(0, "");
      NotEmpty(p, i);
      InterruptionJams(p, i, j, rest);
      var publisher := new Publisher(p, p.fps, true, Some((j, rest)), start);
      var r := publisher.Stage();
      s := publisher.s;
    }
    UnsafeIsNotComplete(p, s);
  }

  /** A download may break off before its first byte, and no original is empty. */
  lemma NotEmpty(p: Plan, i: nat)
    requires ValidPlan(p) && p.original.Some? && i < |p.OldFps()|
    ensures p.OldFps()[i].bytes > 0
  {
    NamesAreDistinct(p);
  }

  lemma NamesOfPlan(p: Plan)
    requires ValidPlan(p) && p.original.Some?
    ensures Distinct(p.OldNames()) && |p.OldNames()| == |p.OldFps()|
  {
    NamesAreDistinct(p);
  }

  /** So the condition of `Converges` is exact: for every plan without safe names one interruption
      is followed by no completion, whatever processes come after it, faulty or not. */
  method NeverConverges(p: Plan, start: State, processes: seq<(Process, bool)>) returns (s: State)
    requires ValidPlan(p) && Initial(p, start) && p.original.Some? && !SafeNames(p.OldNames())
    ensures Inv(p, s) && !Complete(p, s) && SameRemote(start, s)
  {
    hide Inv, Complete, Jammed, SafeNames, Initial, ValidPlan;
    var jammed := GetsJammed(p, start);
    s := JammedRuns(p, jammed, processes);
    if Complete(p, s) {
      StillComplete(p, s, jammed);
    }
  }

  lemma MetadataJams(p: Plan, disk: Disk)
    requires p.original.Some? && METADATA in p.OldNames()
    ensures Jammed(p, disk)
  {
    var i :| 0 <= i < |p.OldNames()| && p.OldNames()[i] == METADATA;
    assert Blocked(disk, p.OldNames(), p.OldFps(), i);
  }

  lemma InterruptionJams(p: Plan, i: nat, j: nat, rest: Fingerprint)
    requires ValidPlan(p) && p.original.Some? && METADATA !in p.OldNames()
    requires i < j && Under(p.OldNames(), j, i) && rest != p.OldFps()[i]
    ensures Interrupted(p, map[], j, rest).Some? && Jammed(p, Interrupted(p, map[], j, rest).value)
  {
    NamesAreDistinct(p);
    var meta := Metadata(p.original.value.body, p.original.value.releaseId);
    assert Started(p, map[]) == map[METADATA := meta];
    InterruptionBlocks(p.OldNames(), p.OldFps(), meta, i, j, Blob(rest));
  }

  lemma UnsafeIsNotComplete(p: Plan, s: State)
    requires ValidPlan(p) && p.original.Some? && OriginalsThere(p, s.assets) && !SafeNames(p.OldNames())
    ensures !Complete(p, s)
  {
    assert |p.OldNames()| == |p.OldOrder()|;
    assert p.OldOrder() != [];
    assert p.OldOrder()[0] in p.original.value.order;
  }

  /** One stage and one replace without any fault, where an original has two descents below it: the
      plan completes, every original is deleted, and the copy of one of them is missing. */
  method LosesACopy(p: Plan, start: State) returns (s: State, ghost lost: Id)
    requires ValidPlan(p) && Initial(p, start) && p.original.Some? && !HealingNames(p.OldNames())
    ensures Inv(p, s) && Complete(p, s)
    ensures lost in p.Olds() && lost !in s.assets && !Saved(p, s.disk, lost)
  {
    hide Inv, HealingNames, Descents, Saved;
    InitialInv(p, start);
    var k := TwoBackups(p);
    var ok;
    s, ok := RunOnce(p, start, Process(RunStage, 0, p.fps), true);
    s, ok := RunOnce(p, s, Process(RunReplace, 0, p.fps), true);
    lost := p.OldOrder()[k];
  }

  lemma TwoBackups(p: Plan) returns (k: nat)
    requires ValidPlan(p) && p.original.Some? && !HealingNames(p.OldNames())
    ensures Pass(p, map[]).Some? && Pass(p, Pass(p, map[]).value).Some?
    ensures k < |p.OldOrder()| && p.OldOrder()[k] in p.Olds() && !Saved(p, Pass(p, Pass(p, map[]).value).value, p.OldOrder()[k])
  {
    NamesAreDistinct(p);
    var names, fps := p.OldNames(), p.OldFps();
    var meta := Metadata(p.original.value.body, p.original.value.releaseId);
    var begin := map[METADATA := meta];
    assert Started(p, map[]) == begin;
    BackupsExactly(names, fps, 1, meta);
    BackupsExactly(names, fps, 2, meta);
    assert Backups(begin, names, fps, 0) == Some(begin);
    assert Backups(begin, names, fps, 1) == Pass(p, map[]);
    assert Backups(begin, names, fps, 2) == Pass(p, Pass(p, map[]).value);
    var high :| 0 <= high < |names| && Descents(names, high) > 1;
    k := SomeDescent(names, 2, high);
    LeftOutExactly(names, fps, 2, meta, k);
  }
}
