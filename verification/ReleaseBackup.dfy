/**
 The local backup directory.  Every original is kept under its own name, beside the
 metadata file and the `.incomplete` download files, so a copy can stand where the
 download of another original goes.  This module says exactly what that costs.
 */
module ReleaseBackup {
  import opened Wrappers
  import opened ReleaseModel

  type Disk = map<string, File>

  ghost predicate Distinct(names: seq<string>) {
    forall i, k :: 0 <= i < k < |names| ==> names[i] != names[k]
  }

  // ----- Names that stand in each other's way

  /** Downloading `names[j]` goes through the file named `names[k]`. */
  predicate Under(names: seq<string>, j: nat, k: nat) {
    j < |names| && k < |names| && names[k] == names[j] + INCOMPLETE
  }

  ghost function Lower(names: seq<string>, k: nat): (r: Option<nat>)
    ensures r.Some? ==> Under(names, r.value, k)
    ensures r.None? ==> forall j :: !Under(names, j, k)
  {
    if exists j :: Under(names, j, k) then
      var j :| Under(names, j, k);
      Some(j)
    else None
  }

  lemma UnderIsLower(names: seq<string>, j: nat, k: nat)
    requires Distinct(names) && Under(names, j, k)
    ensures Lower(names, k) == Some(j) && j != k && |names[j]| < |names[k]|
  {
    var i := Lower(names, k).value;
    assert names[i] == names[k][..|names[i]|] == names[j];
  }

  /** How often, going down from `k`, a copy is listed before the one it stands in the way of. */
  ghost function Descents(names: seq<string>, k: nat): nat
    requires k < |names|
    decreases |names[k]|
  {
    match Lower(names, k)
    case None => 0
    case Some(j) => Descents(names, j) + if k < j then 1 else 0
  }

  /** No original is the metadata file, and none stands in the way of a later one. */
  ghost predicate SafeNames(names: seq<string>) {
    METADATA !in names && forall k :: 0 <= k < |names| ==> Descents(names, k) == 0
  }

  /** Two backups in a row leave nothing out, or none ever succeeds. */
  ghost predicate HealingNames(names: seq<string>) {
    METADATA in names || forall k :: 0 <= k < |names| ==> Descents(names, k) <= 1
  }

  /** Said of the list alone: a name is never listed before the one it stands in the way of. */
  lemma SafeNamesInOrder(names: seq<string>)
    requires Distinct(names)
    ensures SafeNames(names) <==> METADATA !in names && forall k, j :: Under(names, j, k) ==> j < k
  {
    if SafeNames(names) {
      forall k, j | Under(names, j, k) ensures j < k {
        UnderIsLower(names, j, k);
        assert Descents(names, k) == 0;
      }
    }
    if forall k, j :: Under(names, j, k) ==> j < k {
      forall k | 0 <= k < |names| ensures Descents(names, k) == 0 {
        InOrderHasNoDescents(names, k);
      }
    }
  }

  lemma {:induction false} InOrderHasNoDescents(names: seq<string>, k: nat)
    requires k < |names| && forall k, j :: Under(names, j, k) ==> j < k
    ensures Descents(names, k) == 0
    decreases |names[k]|
  {
    if Lower(names, k).Some? {
      InOrderHasNoDescents(names, Lower(names, k).value);
    }
  }

  // ----- What a directory holds

  ghost predicate Held(disk: Disk, names: seq<string>, fps: seq<Fingerprint>, k: nat)
    requires k < |names| == |fps|
  {
    names[k] in disk && disk[names[k]] == Blob(fps[k])
  }

  ghost predicate HeldBelow(disk: Disk, names: seq<string>, fps: seq<Fingerprint>, level: nat)
    requires |names| == |fps|
  {
    forall k :: 0 <= k < |names| && Descents(names, k) < level ==> Held(disk, names, fps, k)
  }

  ghost predicate HoldsAll(disk: Disk, names: seq<string>, fps: seq<Fingerprint>)
    requires |names| == |fps|
  {
    forall k :: 0 <= k < |names| ==> Held(disk, names, fps, k)
  }

  /** A backup has dealt with the first `k` originals, starting from a directory that held the
      ones below `level`. */
  ghost predicate PassedTo(disk: Disk, names: seq<string>, fps: seq<Fingerprint>, level: nat, k: nat)
    requires k <= |names| == |fps|
  {
    HeldBelow(disk, names, fps, level) && forall i :: 0 <= i < k && Descents(names, i) <= level ==> Held(disk, names, fps, i)
  }

  /** One of the originals below `k` is not held. */
  ghost predicate Broken(disk: Disk, names: seq<string>, fps: seq<Fingerprint>, k: nat)
    requires k < |names| == |fps|
    decreases |names[k]|
  {
    match Lower(names, k)
    case None => false
    case Some(j) => !Held(disk, names, fps, j) || Broken(disk, names, fps, j)
  }

  /** A file that is not the copy it is named after is what a download left there. */
  ghost predicate Explained(disk: Disk, names: seq<string>, fps: seq<Fingerprint>)
    requires |names| == |fps|
  {
    forall k :: 0 <= k < |names| && names[k] in disk && !Held(disk, names, fps, k) ==>
      names[k] == METADATA || Broken(disk, names, fps, k)
  }

  lemma IncompleteIsNotMetadata(name: string)
    ensures name + INCOMPLETE != METADATA
  {
    var x := name + INCOMPLETE;
    assert x[|x| - 1] == 'e' && METADATA[|METADATA| - 1] == 'n';
  }

  // ----- Any backup, interrupted or not

  ghost predicate SameExcept(disk: Disk, after: Disk, name: string) {
    forall n :: n != name ==> (n in after <==> n in disk) && (n in disk ==> after[n] == disk[n])
  }

  lemma {:induction false} DownloadKeepsBroken(disk: Disk, after: Disk, names: seq<string>, fps: seq<Fingerprint>, k: nat, m: nat)
    requires k < |names| == |fps| && m < |names| && Distinct(names)
    requires names[k] !in disk && SameExcept(disk, after, names[k] + INCOMPLETE) && Broken(disk, names, fps, m)
    ensures Broken(after, names, fps, m)
    decreases |names[m]|
  {
    var j := Lower(names, m).value;
    if names[j] == names[k] + INCOMPLETE {
      UnderIsLower(names, k, j);
      assert !Held(after, names, fps, k);
    } else if Held(disk, names, fps, j) {
      DownloadKeepsBroken(disk, after, names, fps, k, j);
    }
  }

  /** Whatever an interrupted download of a missing original leaves, only copies above it are at stake. */
  lemma DownloadKeeps(disk: Disk, after: Disk, names: seq<string>, fps: seq<Fingerprint>, k: nat, level: nat)
    requires k < |names| == |fps| && Distinct(names)
    requires names[k] !in disk && SameExcept(disk, after, names[k] + INCOMPLETE)
    ensures Explained(disk, names, fps) ==> Explained(after, names, fps)
    ensures HeldBelow(disk, names, fps, level) ==> HeldBelow(after, names, fps, level)
  {
    forall m | 0 <= m < |names| && Explained(disk, names, fps) && names[m] in after && !Held(after, names, fps, m)
      ensures names[m] == METADATA || Broken(after, names, fps, m)
    {
      if names[m] == names[k] + INCOMPLETE {
        UnderIsLower(names, k, m);
      } else if names[m] != METADATA {
        DownloadKeepsBroken(disk, after, names, fps, k, m);
      }
    }
    if HeldBelow(disk, names, fps, level) {
      assert !Held(disk, names, fps, k);
      forall m | 0 <= m < |names| && Descents(names, m) < level ensures Held(after, names, fps, m) {
        if names[m] == names[k] + INCOMPLETE {
          UnderIsLower(names, k, m);
        }
      }
    }
  }

  function Moved(disk: Disk, name: string, fp: Fingerprint): Disk {
    (disk - {name + INCOMPLETE})[name := Blob(fp)]
  }

  lemma {:induction false} MoveKeepsBroken(disk: Disk, names: seq<string>, fps: seq<Fingerprint>, k: nat, m: nat)
    requires k < |names| == |fps| && m < |names| && Distinct(names)
    requires m != k && names[m] != names[k] + INCOMPLETE && Broken(disk, names, fps, m)
    ensures Broken(Moved(disk, names[k], fps[k]), names, fps, m)
    decreases |names[m]|
  {
    var after := Moved(disk, names[k], fps[k]);
    var j := Lower(names, m).value;
    if names[j] == names[k] + INCOMPLETE {
      assert names[j] != names[k];
      assert !Held(after, names, fps, j);
    } else {
      assert names[j] != names[k];
      assert Held(after, names, fps, j) <==> Held(disk, names, fps, j);
      if Held(disk, names, fps, j) {
        MoveKeepsBroken(disk, names, fps, k, j);
      }
    }
  }

  /** Moving a checked download of a missing original into place. */
  lemma MoveKeeps(disk: Disk, names: seq<string>, fps: seq<Fingerprint>, k: nat, level: nat)
    requires k < |names| == |fps| && Distinct(names) && names[k] !in disk
    ensures Explained(disk, names, fps) ==> Explained(Moved(disk, names[k], fps[k]), names, fps)
    ensures HeldBelow(disk, names, fps, level) ==> HeldBelow(Moved(disk, names[k], fps[k]), names, fps, level)
    ensures PassedTo(disk, names, fps, level, k) ==> PassedTo(Moved(disk, names[k], fps[k]), names, fps, level, k + 1)
  {
    var after := Moved(disk, names[k], fps[k]);
    forall m | 0 <= m < |names| && Explained(disk, names, fps) && names[m] in after && !Held(after, names, fps, m)
      ensures names[m] == METADATA || Broken(after, names, fps, m)
    {
      if names[m] != METADATA {
        MoveKeepsBroken(disk, names, fps, k, m);
      }
    }
    forall m | 0 <= m < |names| && m != k && Held(disk, names, fps, m)
      ensures Held(after, names, fps, m) || (HeldBelow(disk, names, fps, level) ==> level <= Descents(names, m) && (m < k ==> level < Descents(names, m)))
    {
      if names[m] == names[k] + INCOMPLETE {
        UnderIsLower(names, k, m);
      }
    }
  }

  /** A backup that succeeds, from whatever was there, gains one level. */
  lemma PassGainsALevel(disk: Disk, names: seq<string>, fps: seq<Fingerprint>, level: nat)
    requires |names| == |fps| && PassedTo(disk, names, fps, level, |names|)
    ensures HeldBelow(disk, names, fps, level + 1)
  {
  }

  /** `names[i]` makes every backup fail: it is the metadata file, or the place of an
      unfinished download of an original that is listed later. */
  ghost predicate Blocked(disk: Disk, names: seq<string>, fps: seq<Fingerprint>, i: nat)
    requires i < |names| == |fps|
  {
    || names[i] == METADATA
    || (names[i] in disk && !Held(disk, names, fps, i) && exists j :: i < j < |names| && Under(names, j, i))
  }

  lemma StaysBlocked(disk: Disk, after: Disk, names: seq<string>, fps: seq<Fingerprint>, k: nat, i: nat)
    requires k < i < |names| == |fps| && Distinct(names) && Blocked(disk, names, fps, i)
    requires SameExcept(disk, after, names[k] + INCOMPLETE) || after == Moved(disk, names[k], fps[k])
    ensures Blocked(after, names, fps, i)
  {
    if names[i] != METADATA {
      var j :| i < j < |names| && Under(names, j, i);
      if names[i] == names[k] + INCOMPLETE {
        UnderIsLower(names, j, i);
        UnderIsLower(names, k, i);
      }
      assert names[i] in after && after[names[i]] == disk[names[i]];
    }
  }

  /** In order, an original that is there is the copy it should be. */
  lemma NextIsHeld(disk: Disk, names: seq<string>, fps: seq<Fingerprint>, k: nat)
    requires k < |names| == |fps| && Distinct(names) && SafeNames(names) && Explained(disk, names, fps)
    requires forall i :: 0 <= i < k ==> Held(disk, names, fps, i)
    ensures names[k] in disk ==> Held(disk, names, fps, k)
  {
    if names[k] in disk && !Held(disk, names, fps, k) {
      SafeNamesInOrder(names);
      assert names[k] in names;
      LowerIsHeld(disk, names, fps, k);
    }
  }

  lemma {:induction false} LowerIsHeld(disk: Disk, names: seq<string>, fps: seq<Fingerprint>, k: nat)
    requires k < |names| == |fps| && (forall k, j :: Under(names, j, k) ==> j < k)
    requires forall i :: 0 <= i < k ==> Held(disk, names, fps, i)
    ensures !Broken(disk, names, fps, k)
    decreases |names[k]|
  {
    if Lower(names, k).Some? {
      LowerIsHeld(disk, names, fps, Lower(names, k).value);
    }
  }

  // ----- Backups without faults

  /** One original: downloaded beside its place, checked and moved there, unless a file
      of that name exists; then checked again. */
  function BackupOne(disk: Disk, name: string, fp: Fingerprint): Option<Disk> {
    var after := if name in disk then disk else Moved(disk, name, fp);
    if after[name] == Blob(fp) then Some(after) else None
  }

  /** The first `k` originals in order. */
  function BackupTo(disk: Disk, names: seq<string>, fps: seq<Fingerprint>, k: nat): Option<Disk>
    requires k <= |names| == |fps|
  {
    if k == 0 then Some(disk)
    else
      match BackupTo(disk, names, fps, k - 1)
      case None => None
      case Some(before) => BackupOne(before, names[k - 1], fps[k - 1])
  }

  function Backups(disk: Disk, names: seq<string>, fps: seq<Fingerprint>, n: nat): Option<Disk>
    requires |names| == |fps|
  {
    if n == 0 then Some(disk)
    else
      match Backups(disk, names, fps, n - 1)
      case None => None
      case Some(before) => BackupTo(before, names, fps, |names|)
  }

  /** Whether original `i` is there when the backup after `n` complete ones has reached original `k`. */
  ghost predicate There(names: seq<string>, n: nat, k: nat, i: nat)
    requires i < |names|
  {
    var lower := Lower(names, i);
    if i < k then !(lower.Some? && i < lower.value < k && n + 1 <= Descents(names, i))
    else
      && n > 0 && !(lower.Some? && i < lower.value && n <= Descents(names, i))
      && !(lower.Some? && lower.value < k && n <= Descents(names, i))
  }

  ghost predicate Exactly(disk: Disk, names: seq<string>, fps: seq<Fingerprint>, n: nat, k: nat, meta: File)
    requires |names| == |fps|
  {
    && METADATA in disk && disk[METADATA] == meta
    && forall i :: 0 <= i < |names| && names[i] != METADATA ==> (names[i] in disk <==> There(names, n, k, i)) && (names[i] in disk ==> Held(disk, names, fps, i))
  }

  /** The original reached is there exactly when fewer than `n` descents lie below it. */
  lemma ThereWhenReached(names: seq<string>, n: nat, k: nat)
    requires k < |names| && Distinct(names)
    ensures There(names, n, k, k) <==> Descents(names, k) < n
  {
    if Lower(names, k).Some? {
      UnderIsLower(names, Lower(names, k).value, k);
    }
  }

  lemma OneMoreExactly(disk: Disk, names: seq<string>, fps: seq<Fingerprint>, n: nat, k: nat, meta: File)
    requires k < |names| == |fps| && Distinct(names) && METADATA !in names && meta.Metadata? && Exactly(disk, names, fps, n, k, meta)
    ensures BackupOne(disk, names[k], fps[k]).Some? && Exactly(BackupOne(disk, names[k], fps[k]).value, names, fps, n, k + 1, meta)
  {
    assert names[k] in names;
    IncompleteIsNotMetadata(names[k]);
    ThereWhenReached(names, n, k);
    var after := BackupOne(disk, names[k], fps[k]).value;
    forall i | 0 <= i < |names|
      ensures (names[i] in after <==> There(names, n, k + 1, i)) && (names[i] in after ==> Held(after, names, fps, i))
    {
      assert names[i] in names;
      assert There(names, n, k, i) <==> names[i] in disk;
      if Under(names, k, i) {
        UnderIsLower(names, k, i);
      }
      if Lower(names, i).Some? {
        UnderIsLower(names, Lower(names, i).value, i);
      }
    }
  }

  lemma {:induction false} BackupToExactly(disk: Disk, names: seq<string>, fps: seq<Fingerprint>, n: nat, k: nat, meta: File)
    requires k <= |names| == |fps| && Distinct(names) && METADATA !in names && meta.Metadata? && Exactly(disk, names, fps, n, 0, meta)
    ensures BackupTo(disk, names, fps, k).Some? && Exactly(BackupTo(disk, names, fps, k).value, names, fps, n, k, meta)
  {
    hide Exactly, BackupOne;
    if k > 0 {
      BackupToExactly(disk, names, fps, n, k - 1, meta);
      OneMoreExactly(BackupTo(disk, names, fps, k - 1).value, names, fps, n, k - 1, meta);
    }
  }

  lemma NextExactly(disk: Disk, names: seq<string>, fps: seq<Fingerprint>, n: nat, meta: File)
    requires |names| == |fps| && Distinct(names) && Exactly(disk, names, fps, n, |names|, meta)
    ensures Exactly(disk, names, fps, n + 1, 0, meta)
  {
    forall i | 0 <= i < |names| ensures There(names, n, |names|, i) <==> There(names, n + 1, 0, i) {
    }
  }

  lemma {:induction false} BackupsExactly(names: seq<string>, fps: seq<Fingerprint>, n: nat, meta: File)
    requires |names| == |fps| && Distinct(names) && METADATA !in names && meta.Metadata?
    ensures Backups(map[METADATA := meta], names, fps, n).Some?
    ensures Exactly(Backups(map[METADATA := meta], names, fps, n).value, names, fps, n, 0, meta)
  {
    if n > 0 {
      BackupsExactly(names, fps, n - 1, meta);
      var before := Backups(map[METADATA := meta], names, fps, n - 1).value;
      BackupToExactly(before, names, fps, n - 1, |names|, meta);
      NextExactly(BackupTo(before, names, fps, |names|).value, names, fps, n - 1, meta);
    }
  }

  /** What `n` complete backups of a fresh directory leave out: exactly the originals that are
      listed before the one they stand in the way of and have `n` descents below them. */
  lemma LeftOutExactly(names: seq<string>, fps: seq<Fingerprint>, n: nat, meta: File, k: nat)
    requires |names| == |fps| && Distinct(names) && METADATA !in names && meta.Metadata? && 0 < n && k < |names|
    ensures Backups(map[METADATA := meta], names, fps, n).Some?
    ensures var disk := Backups(map[METADATA := meta], names, fps, n).value;
            Held(disk, names, fps, k) <==> !(n <= Descents(names, k) && exists j :: k < j && Under(names, j, k))
  {
    BackupsExactly(names, fps, n, meta);
    assert names[k] in names;
    if j :| k < j && Under(names, j, k) {
      UnderIsLower(names, j, k);
    }
  }

  /** Going down from an original with descents below it, the first descent is met at one with as many. */
  lemma {:induction false} SomeDescent(names: seq<string>, n: nat, k: nat) returns (i: nat)
    requires k < |names| && Distinct(names) && 0 < n <= Descents(names, k)
    ensures i < |names| && n <= Descents(names, i) && exists j :: i < j && Under(names, j, i)
    decreases |names[k]|
  {
    var j := Lower(names, k).value;
    UnderIsLower(names, j, k);
    if k < j {
      i := k;
    } else {
      i := SomeDescent(names, n, j);
    }
  }

  lemma {:induction false} NeverWithMetadata(disk: Disk, names: seq<string>, fps: seq<Fingerprint>, k: nat, i: nat)
    requires i < k <= |names| == |fps| && names[i] == METADATA && Distinct(names) && METADATA in disk && disk[METADATA].Metadata?
    ensures BackupTo(disk, names, fps, k).None?
  {
    if i + 1 < k {
      NeverWithMetadata(disk, names, fps, k - 1, i);
    } else {
      MetadataStays(disk, names, fps, i);
    }
  }

  lemma {:induction false} MetadataStays(disk: Disk, names: seq<string>, fps: seq<Fingerprint>, k: nat)
    requires k <= |names| == |fps| && METADATA in disk && disk[METADATA].Metadata?
    ensures BackupTo(disk, names, fps, k).Some? ==>
      var after := BackupTo(disk, names, fps, k).value;
      METADATA in after && after[METADATA] == disk[METADATA]
  {
    if k > 0 {
      MetadataStays(disk, names, fps, k - 1);
      IncompleteIsNotMetadata(names[k - 1]);
    }
  }

  /** `n` backups without faults, from a fresh directory, succeed and hold every original if and
      only if none is the metadata file and none has `n` descents below it. */
  lemma BackupsHoldAll(names: seq<string>, fps: seq<Fingerprint>, n: nat, meta: File)
    requires |names| == |fps| && Distinct(names) && meta.Metadata? && 0 < n
    ensures var run := Backups(map[METADATA := meta], names, fps, n);
            (run.Some? && HoldsAll(run.value, names, fps)) <==>
            (METADATA !in names && forall k :: 0 <= k < |names| ==> Descents(names, k) < n)
  {
    if METADATA !in names {
      BackupsExactly(names, fps, n, meta);
      forall k | 0 <= k < |names| && Descents(names, k) < n ensures Held(Backups(map[METADATA := meta], names, fps, n).value, names, fps, k) {
        LeftOutExactly(names, fps, n, meta, k);
      }
      if k :| 0 <= k < |names| && n <= Descents(names, k) {
        var i := SomeDescent(names, n, k);
        LeftOutExactly(names, fps, n, meta, i);
      }
    } else {
      FirstFails(names, fps, n, meta);
    }
  }

  lemma {:induction false} FirstFails(names: seq<string>, fps: seq<Fingerprint>, n: nat, meta: File)
    requires |names| == |fps| && Distinct(names) && meta.Metadata? && 0 < n && METADATA in names
    ensures Backups(map[METADATA := meta], names, fps, n).None?
  {
    if n == 1 {
      var i :| 0 <= i < |names| && names[i] == METADATA;
      NeverWithMetadata(map[METADATA := meta], names, fps, |names|, i);
      assert Backups(map[METADATA := meta], names, fps, 0) == Some(map[METADATA := meta]);
    } else {
      FirstFails(names, fps, n - 1, meta);
    }
  }

  // ----- Names that are not safe

  /** An original that is listed before the one it stands in the way of: if the first backup is
      interrupted while it downloads the later one, what is left there blocks every backup. */
  lemma InterruptionBlocks(names: seq<string>, fps: seq<Fingerprint>, meta: File, i: nat, j: nat, rest: File)
    requires |names| == |fps| && Distinct(names) && METADATA !in names && meta.Metadata?
    requires i < j && Under(names, j, i) && rest != Blob(fps[i])
    ensures var reached := BackupTo(map[METADATA := meta], names, fps, j);
            && reached.Some? && names[j] !in reached.value
            && Blocked(reached.value[names[j] + INCOMPLETE := rest], names, fps, i)
  {
    BackupToExactly(map[METADATA := meta], names, fps, 0, j, meta);
    assert names[j] in names;
    var after := BackupTo(map[METADATA := meta], names, fps, j).value[names[j] + INCOMPLETE := rest];
    assert names[i] in after && !Held(after, names, fps, i);
  }

  /** Names are safe exactly when none of them can come to block every backup. */
  lemma SafeOrBlocked(names: seq<string>)
    requires Distinct(names)
    ensures !SafeNames(names) <==> METADATA in names || exists i, j :: i < j && Under(names, j, i)
  {
    SafeNamesInOrder(names);
    if i: nat, j: nat :| i < j && Under(names, j, i) {
      assert !(j < i);
    }
    if k: nat, j: nat :| Under(names, j, k) && k <= j {
      UnderIsLower(names, j, k);
    }
  }

  function Twice(x: string): string {
    x + INCOMPLETE + INCOMPLETE
  }

  /** One original before the one it stands in the way of: the first backup leaves its copy out,
      although it reports success, and the second one adds it. */
  lemma PairHeals(x: string, a: Fingerprint, b: Fingerprint, meta: File)
    requires x != METADATA && meta.Metadata?
    ensures var names, start := [x + INCOMPLETE, x], map[METADATA := meta];
            && Backups(start, names, [a, b], 1).Some? && !Held(Backups(start, names, [a, b], 1).value, names, [a, b], 0)
            && Backups(start, names, [a, b], 2).Some? && HoldsAll(Backups(start, names, [a, b], 2).value, names, [a, b])
  {
    var names := [x + INCOMPLETE, x];
    IncompleteIsNotMetadata(x);
    assert Under(names, 1, 0);
    UnderIsLower(names, 1, 0);
    assert Lower(names, 1).None?;
    assert Descents(names, 1) == 0 && Descents(names, 0) == 1;
    LeftOutExactly(names, [a, b], 1, meta, 0);
    BackupsHoldAll(names, [a, b], 2, meta);
  }

  /** Three in a row: two backups report success and the first copy is still missing. */
  lemma TripleLosesACopy(x: string, fps: seq<Fingerprint>, meta: File)
    requires x != METADATA && meta.Metadata? && |fps| == 3
    ensures var names := [Twice(x), x + INCOMPLETE, x];
            var run := Backups(map[METADATA := meta], names, fps, 2);
            run.Some? && !Held(run.value, names, fps, 0)
  {
    var names := [Twice(x), x + INCOMPLETE, x];
    IncompleteIsNotMetadata(x);
    IncompleteIsNotMetadata(x + INCOMPLETE);
    assert Under(names, 1, 0) && Under(names, 2, 1);
    UnderIsLower(names, 1, 0);
    UnderIsLower(names, 2, 1);
    assert Descents(names, 1) >= 1;
    assert Descents(names, 0) >= 2;
    LeftOutExactly(names, fps, 2, meta, 0);
  }

  /** Two pairs of one chain that do not follow each other in the list: the same loss. */
  lemma PairsApartLoseACopy(x: string, fps: seq<Fingerprint>, meta: File)
    requires x != METADATA && meta.Metadata? && |fps| == 4
    ensures var names := [x + INCOMPLETE, x, Twice(x) + INCOMPLETE, Twice(x)];
            var run := Backups(map[METADATA := meta], names, fps, 2);
            run.Some? && !Held(run.value, names, fps, 2)
  {
    var names := [x + INCOMPLETE, x, Twice(x) + INCOMPLETE, Twice(x)];
    IncompleteIsNotMetadata(x);
    IncompleteIsNotMetadata(x + INCOMPLETE);
    IncompleteIsNotMetadata(Twice(x));
    assert Under(names, 1, 0) && Under(names, 0, 3) && Under(names, 3, 2);
    UnderIsLower(names, 1, 0);
    UnderIsLower(names, 0, 3);
    UnderIsLower(names, 3, 2);
    assert Descents(names, 0) >= 1;
    assert Descents(names, 3) >= 1;
    assert Descents(names, 2) >= 2;
    LeftOutExactly(names, fps, 2, meta, 2);
  }
}
