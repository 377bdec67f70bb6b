/** The archive of a fixed Git tree, and the check that an archive holds exactly that tree. */
module SourceArchive {
  import opened Wrappers
  import opened Collections
  import TextTokens

  type Path = string
  type Bytes = seq<bv8>

  // ----- Blob identities -----

  /** A digest is as good as what was hashed. */
  datatype Sha = Sha1(preimage: Bytes)

  const BLOB: Bytes := [98, 108, 111, 98, 32]

  function Digit(d: nat): (b: bv8)
    requires d < 10
    ensures b != 0
  {
    [48, 49, 50, 51, 52, 53, 54, 55, 56, 57][d]
  }

  function Digits(n: nat): (r: Bytes)
    ensures forall k :: 0 <= k < |r| ==> r[k] != 0
  {
    if n < 10 then [Digit(n)] else Digits(n / 10) + [Digit(n % 10)]
  }

  function Number(digits: Bytes): int {
    if digits == [] then 0 else 10 * Number(digits[..|digits| - 1]) + (digits[|digits| - 1] as int - 48)
  }

  lemma DigitReadsBack(d: nat)
    requires d < 10
    ensures Digit(d) as int == 48 + d
  {
  }

  /** The length is written in decimal, without leading zeros. */
  lemma {:induction false} DigitsReadBack(n: nat)
    ensures Number(Digits(n)) == n && Digits(n) != [] && (Digits(n)[0] == 48 ==> n == 0)
  {
    hide Digit;
    if n < 10 {
      DigitReadsBack(n);
      assert Digits(n)[..0] == [];
    } else {
      DigitsReadBack(n / 10);
      DigitReadsBack(n % 10);
      assert Digits(n)[..|Digits(n)| - 1] == Digits(n / 10);
    }
  }

  /** Git hashes the length before the content. */
  function BlobSha(content: Bytes): Sha {
    Sha1(BLOB + Digits(|content|) + [0] + content)
  }

  /** The identity of a blob determines its bytes. */
  lemma BlobShaInjective(a: Bytes, b: Bytes)
    requires BlobSha(a) == BlobSha(b)
    ensures a == b
  {
    hide Digits;
    FirstZero(Digits(|a|), a, Digits(|b|), b);
  }

  lemma FirstZero(m: Bytes, a: Bytes, n: Bytes, b: Bytes)
    requires forall k :: 0 <= k < |m| ==> m[k] != 0
    requires forall k :: 0 <= k < |n| ==> n[k] != 0
    requires BLOB + m + [0] + a == BLOB + n + [0] + b
    ensures a == b
  {
    var x, y := BLOB + m + [0] + a, BLOB + n + [0] + b;
    assert x[5 + |m|] == 0 && y[5 + |n|] == 0;
    assert forall k :: 0 <= k < |m| ==> x[5 + k] == m[k];
    assert forall k :: 0 <= k < |n| ==> y[5 + k] == n[k];
    assert |m| == |n|;
    assert a == x[6 + |m|..] && b == y[6 + |n|..];
  }

  // ----- Paths -----

  type Fold = TextTokens.Lower

  const PRIVATE: seq<string> := ["docs/", "documents/", "frontend/docs/", ".local-plans/"]

  predicate IsPrivate(fold: Fold, path: Path) {
    exists k :: 0 <= k < |PRIVATE| && PRIVATE[k] <= TextTokens.Lowered(fold, path)
  }

  function Trimmed(path: Path): (r: Path)
    ensures r <= path && !IsDir(r) && forall k :: |r| <= k < |path| ==> path[k] == '/'
  {
    if path != [] && path[|path| - 1] == '/' then Trimmed(path[..|path| - 1]) else path
  }

  function Parts(path: Path): seq<string> {
    if path == [] then [[]]
    else
      var parts := Parts(path[..|path| - 1]);
      var c := path[|path| - 1];
      if c == '/' then parts + [[]]
      else if parts == [] then [[c]]
      else parts[..|parts| - 1] + [parts[|parts| - 1] + [c]]
  }

  predicate ProperParts(name: Path) {
    forall part :: part in Parts(name) ==> part != [] && part != "." && part != ".."
  }

  predicate SafePath(fold: Fold, path: Path) {
    && !IsPrivate(fold, path) && !("/" <= path) && '\\' !in path && ':' !in path
    && ProperParts(Trimmed(path))
  }

  predicate IsDir(path: Path) {
    path != [] && path[|path| - 1] == '/'
  }

  // ----- The path rules in characters -----

  /** What stands between two slashes, or between a slash and an end of the path. */
  ghost predicate Segment(path: Path, i: nat, j: nat) {
    && i <= j <= |path| && (forall k :: i <= k < j ==> path[k] != '/')
    && (i == 0 || path[i - 1] == '/') && (j == |path| || path[j] == '/')
  }

  /** A segment that ends before position `n`. */
  ghost predicate EndsBefore(path: Path, n: int, part: string) {
    exists i: nat, j: nat :: i <= j <= |path| && Segment(path, i, j) && j < n && path[i..j] == part
  }

  /** The last segment. */
  function Tail(path: Path): (i: nat)
    ensures i <= |path| && Segment(path, i, |path|)
  {
    if path == [] || path[|path| - 1] == '/' then |path| else Tail(path[..|path| - 1])
  }

  lemma TailIsOnly(path: Path, i: nat)
    ensures Segment(path, i, |path|) <==> i == Tail(path)
  {
    var t := Tail(path);
    assert t > 0 ==> path[t - 1] == '/';
  }

  lemma SegmentOfFront(path: Path, i: nat, j: nat)
    requires i <= j < |path|
    ensures var front := path[..|path| - 1];
            && path[i..j] == front[i..j] && (j == |front| ==> front[i..j] == front[i..])
            && (Segment(path, i, j) <==> Segment(front, i, j) && (j == |front| ==> path[j] == '/'))
  {
  }

  /** One more character ends no segment unless it is a slash. */
  lemma EndsBeforeStep(path: Path, part: string)
    requires path != []
    ensures var front, n := path[..|path| - 1], |path| - 1;
            EndsBefore(path, |path|, part) <==>
              EndsBefore(front, n, part) || (path[n] == '/' && part == front[Tail(front)..])
  {
    hide Tail, Segment;
    var front, n := path[..|path| - 1], |path| - 1;
    if i: nat, j: nat :| i <= j < |path| && Segment(path, i, j) && path[i..j] == part {
      SegmentOfFront(path, i, j);
      TailIsOnly(front, i);
    }
    if i: nat, j: nat :| i <= j < n && Segment(front, i, j) && front[i..j] == part {
      SegmentOfFront(path, i, j);
    }
    if path[n] == '/' && part == front[Tail(front)..] {
      SegmentOfFront(path, Tail(front), n);
    }
  }

  lemma {:induction false} PartsFromLast(path: Path)
    ensures var parts := Parts(path);
            && parts != [] && parts[|parts| - 1] == path[Tail(path)..]
            && forall part :: part in parts[..|parts| - 1] <==> EndsBefore(path, |path|, part)
  {
    if path != [] {
      hide EndsBefore;
      var front, c := path[..|path| - 1], path[|path| - 1];
      PartsFromLast(front);
      var before, parts := Parts(front), Parts(path);
      forall part ensures part in parts[..|parts| - 1] <==> EndsBefore(path, |path|, part) {
        EndsBeforeStep(path, part);
        if c == '/' {
          assert parts[..|parts| - 1] == before;
          MembersByLast(before);
        } else {
          assert parts[..|parts| - 1] == before[..|before| - 1];
        }
      }
    }
  }

  /** Splitting at slashes gives exactly the segments. */
  lemma PartsAreSegments(path: Path, part: string)
    ensures part in Parts(path) <==> exists i: nat, j: nat :: Segment(path, i, j) && path[i..j] == part
  {
    var parts := Parts(path);
    PartsFromLast(path);
    MembersByLast(parts);
    hide Tail;
    assert path[Tail(path)..|path|] == path[Tail(path)..] && Segment(path, Tail(path), |path|);
    if i: nat, j: nat :| Segment(path, i, j) && path[i..j] == part {
      TailIsOnly(path, i);
      assert j == |path| ==> part == parts[|parts| - 1];
      assert j < |path| ==> EndsBefore(path, |path|, part);
    }
    if EndsBefore(path, |path|, part) {
      var i: nat, j: nat :| i <= j < |path| && Segment(path, i, j) && path[i..j] == part;
      assert Segment(path, i, j) && path[i..j] == part;
    }
  }

  ghost predicate UnderPrivate(lowered: Path) {
    "docs/" <= lowered || "documents/" <= lowered || "frontend/docs/" <= lowered || ".local-plans/" <= lowered
  }

  /** Private is what lies under one of four directories, in whatever case they are written. */
  lemma PrivateExactly(fold: Fold, path: Path)
    ensures IsPrivate(fold, path) <==> UnderPrivate(TextTokens.Lowered(fold, path))
  {
    assert PRIVATE[0] == "docs/" && PRIVATE[1] == "documents/" && PRIVATE[2] == "frontend/docs/" && PRIVATE[3] == ".local-plans/";
  }

  lemma PrivateInAnyCase(fold: Fold, a: Path, b: Path)
    requires |a| == |b| && forall i :: 0 <= i < |a| ==> fold(a[i]) == fold(b[i])
    ensures IsPrivate(fold, a) <==> IsPrivate(fold, b)
  {
    TextTokens.LoweredAlike(fold, a, b);
  }

  ghost predicate ProperSegments(name: Path) {
    forall i: nat, j: nat :: Segment(name, i, j) ==> i < j && name[i..j] != "." && name[i..j] != ".."
  }

  lemma ProperExactly(name: Path)
    ensures ProperParts(name) <==> ProperSegments(name)
  {
    hide Parts;
    if ProperParts(name) {
      forall i: nat, j: nat | Segment(name, i, j) ensures i < j && name[i..j] != "." && name[i..j] != ".." {
        PartsAreSegments(name, name[i..j]);
      }
    }
    if ProperSegments(name) {
      forall part | part in Parts(name) ensures part != [] && part != "." && part != ".." {
        PartsAreSegments(name, part);
        var i: nat, j: nat :| Segment(name, i, j) && name[i..j] == part;
      }
    }
  }

  /** An entry name is safe exactly when it is relative, not private, has no backslash or colon, and
      every segment before its trailing slashes is a proper name. */
  lemma SafePathExactly(fold: Fold, path: Path)
    ensures SafePath(fold, path) <==>
      && !UnderPrivate(TextTokens.Lowered(fold, path))
      && (forall k :: 0 <= k < |path| ==> path[k] != '\\' && path[k] != ':')
      && path != [] && path[0] != '/' && ProperSegments(Trimmed(path))
  {
    hide IsPrivate, UnderPrivate, ProperParts;
    PrivateExactly(fold, path);
    ProperExactly(Trimmed(path));
    if path == [] {
      assert Segment(Trimmed(path), 0, 0) && !ProperSegments(Trimmed(path));
    } else {
      hide ProperSegments, Trimmed;
      assert "/" <= path <==> path[0] == '/';
      assert forall k :: 0 <= k < |path| ==> path[k] in path;
    }
  }

  // ----- The tree -----

  datatype Item = Item(mode: nat, kind: string, sha: Sha, path: Path)

  const PLAIN := 33188       // 0o100644
  const EXECUTABLE := 33261  // 0o100755

  datatype Error =
    | LinkOrSubmodule
    | PrivateTracked
    | EmptyArchive
    | BlobReadFailed
    | CommitMismatch
    | UnsafePath
    | TreeMismatch
    | ModeMismatch
    | BlobMismatch

  /** Git lists each path once and never with a trailing slash. */
  ghost predicate GitTree(tree: seq<Item>) {
    && (forall i, j :: 0 <= i < j < |tree| ==> tree[i].path != tree[j].path)
    && (forall i :: 0 <= i < |tree| ==> !IsDir(tree[i].path))
  }

  predicate RegularFile(item: Item) {
    item.kind == "blob" && (item.mode == PLAIN || item.mode == EXECUTABLE)
  }

  /** The writer tests for a backslash with the link check, the checker with the private check. */
  function ListError(fold: Fold, item: Item): Option<Error> {
    if !RegularFile(item) || '\\' in item.path then Some(LinkOrSubmodule)
    else if IsPrivate(fold, item.path) then Some(PrivateTracked)
    else None
  }

  function CheckError(fold: Fold, item: Item): Option<Error> {
    if !RegularFile(item) then Some(LinkOrSubmodule)
    else if IsPrivate(fold, item.path) || '\\' in item.path then Some(PrivateTracked)
    else None
  }

  /** A plain or executable file outside the private directories, with no backslash in its path. */
  ghost predicate Archivable(fold: Fold, item: Item) {
    && item.kind == "blob" && (item.mode == 33188 || item.mode == 33261)
    && (forall k :: 0 <= k < |item.path| ==> item.path[k] != '\\')
    && !UnderPrivate(TextTokens.Lowered(fold, item.path))
  }

  /** Writer and checker refuse the same items; they differ in the error for a backslash alone. */
  lemma ArchivableExactly(fold: Fold, item: Item)
    ensures ListError(fold, item).None? <==> Archivable(fold, item)
    ensures CheckError(fold, item).None? <==> Archivable(fold, item)
    ensures ListError(fold, item).Some? ==> ListError(fold, item).value == LinkOrSubmodule || ListError(fold, item).value == PrivateTracked
    ensures ListError(fold, item) != CheckError(fold, item) <==>
      RegularFile(item) && exists k :: 0 <= k < |item.path| && item.path[k] == '\\'
  {
    hide IsPrivate, TextTokens.Lowered;
    PrivateExactly(fold, item.path);
    assert forall k :: 0 <= k < |item.path| ==> item.path[k] in item.path;
  }

  lemma AllArchivable(fold: Fold, tree: seq<Item>)
    ensures (forall k :: 0 <= k < |tree| ==> ListError(fold, tree[k]).None?) <==> forall k :: 0 <= k < |tree| ==> Archivable(fold, tree[k])
    ensures (forall k :: 0 <= k < |tree| ==> CheckError(fold, tree[k]).None?) <==> forall k :: 0 <= k < |tree| ==> Archivable(fold, tree[k])
  {
    hide ListError, CheckError, Archivable;
    forall k | 0 <= k < |tree|
      ensures ListError(fold, tree[k]).None? == CheckError(fold, tree[k]).None? == Archivable(fold, tree[k])
    {
      ArchivableExactly(fold, tree[k]);
    }
  }

  // ----- Writing -----

  datatype Entry = Entry(name: Path, system: nat, attributes: nat, content: Bytes)

  datatype Archive = Archive(comment: string, entries: seq<Entry>)

  datatype Filter = Everything | Only(keep: Path -> bool)

  predicate Included(filter: Filter, path: Path) {
    filter.Everything? || filter.keep(path)
  }

  function Listed(tree: seq<Item>, filter: Filter): seq<Item> {
    if tree == [] then [] else
      var last := tree[|tree| - 1];
      Listed(tree[..|tree| - 1], filter) + if Included(filter, last.path) then [last] else []
  }

  /** What the blob reader answers; anything that is not a complete blob is absent. */
  type Reader = Sha -> Option<Bytes>

  predicate Reads(read: Reader, item: Item) {
    read(item.sha).Some? && BlobSha(read(item.sha).value) == item.sha
  }

  function EntryFor(read: Reader, item: Item): Entry
    requires Reads(read, item)
  {
    Entry(item.path, 3, item.mode * 65536, read(item.sha).value)
  }

  ghost predicate ArchiveOf(archive: Archive, items: seq<Item>, commit: string) {
    && archive.comment == commit && |archive.entries| == |items|
    && forall k :: 0 <= k < |items| ==>
         && archive.entries[k].name == items[k].path && archive.entries[k].system == 3
         && archive.entries[k].attributes == items[k].mode * 65536
         && BlobSha(archive.entries[k].content) == items[k].sha
  }

  method List(fold: Fold, tree: seq<Item>, filter: Filter) returns (r: Result<seq<Item>, Error>)
    ensures r.Ok? <==> forall k :: 0 <= k < |tree| ==> ListError(fold, tree[k]).None?
    ensures r.Ok? ==> r.value == Listed(tree, filter)
    ensures r.Err? ==> r.error == LinkOrSubmodule || r.error == PrivateTracked
    ensures r.Err? ==> exists k :: 0 <= k < |tree| && ListError(fold, tree[k]) == Some(r.error)
                                   && forall i :: 0 <= i < k ==> ListError(fold, tree[i]).None?
  {
    hide ListError, Included;
    var entries: seq<Item> := [];
    for k := 0 to |tree|
      invariant forall i :: 0 <= i < k ==> ListError(fold, tree[i]).None?
      invariant entries == Listed(tree[..k], filter)
    {
      assert tree[..k + 1][..k] == tree[..k];
      var error := ListError(fold, tree[k]);
      if error.Some? {
        ArchivableExactly(fold, tree[k]);
        return Err(error.value);
      }
      if Included(filter, tree[k].path) {
        entries := entries + [tree[k]];
      }
    }
    assert tree[..|tree|] == tree;
    return Ok(entries);
  }

  /** Writes the listed blobs; every blob is hashed again as it is copied. */
  method FixedArchive(fold: Fold, tree: seq<Item>, commit: string, filter: Filter, read: Reader) returns (r: Result<Archive, Error>)
    ensures r.Ok? <==>
      && (forall k :: 0 <= k < |tree| ==> Archivable(fold, tree[k]))
      && Listed(tree, filter) != [] && forall item :: item in Listed(tree, filter) ==> Reads(read, item)
    ensures r.Ok? ==> ArchiveOf(r.value, Listed(tree, filter), commit)
    ensures r == Err(EmptyArchive) <==> (forall k :: 0 <= k < |tree| ==> Archivable(fold, tree[k])) && Listed(tree, filter) == []
    ensures r == Err(BlobReadFailed) <==>
      && (forall k :: 0 <= k < |tree| ==> Archivable(fold, tree[k]))
      && exists item :: item in Listed(tree, filter) && !Reads(read, item)
  {
    hide ListError, Archivable, Listed, BlobSha;
    AllArchivable(fold, tree);
    var items :- List(fold, tree, filter);
    if items == [] {
      return Err(EmptyArchive);
    }
    var entries: seq<Entry> := [];
    for k := 0 to |items|
      invariant |entries| == k
      invariant forall i :: 0 <= i < k ==> Reads(read, items[i]) && entries[i] == EntryFor(read, items[i])
    {
      if !Reads(read, items[k]) {
        return Err(BlobReadFailed);
      }
      entries := entries + [EntryFor(read, items[k])];
    }
    return Ok(Archive(commit, entries));
  }

  // ----- Checking -----

  datatype Kind = Source | Deployment

  datatype Blob = Blob(sha: Sha, mode: nat)

  /** `expected`: what the tree says of each path. */
  function TreeMap(tree: seq<Item>): map<Path, Blob> {
    if tree == [] then map[] else
      var last := tree[|tree| - 1];
      TreeMap(tree[..|tree| - 1])[last.path := Blob(last.sha, last.mode)]
  }

  predicate Leads(expected: map<Path, Blob>, name: Path) {
    exists path :: path in expected && name <= path
  }

  function NameError(fold: Fold, expected: map<Path, Blob>, name: Path): Option<Error> {
    if !SafePath(fold, name) then Some(UnsafePath)
    else if IsDir(name) && !Leads(expected, name) then Some(TreeMismatch)
    else None
  }

  function FileError(expected: map<Path, Blob>, entry: Entry): Option<Error>
    requires entry.name in expected
  {
    if entry.system != 3 || entry.attributes / 65536 != expected[entry.name].mode then Some(ModeMismatch)
    else if BlobSha(entry.content) != expected[entry.name].sha then Some(BlobMismatch)
    else None
  }

  function Files(entries: seq<Entry>): seq<Entry> {
    if entries == [] then [] else
      var last := entries[|entries| - 1];
      Files(entries[..|entries| - 1]) + if IsDir(last.name) then [] else [last]
  }

  ghost predicate DistinctNames(files: seq<Entry>) {
    forall i, j :: 0 <= i < j < |files| ==> files[i].name != files[j].name
  }

  function NamesOf(files: seq<Entry>): set<Path> {
    set e | e in files :: e.name
  }

  predicate NamesFit(names: set<Path>, expected: map<Path, Blob>, kind: Kind) {
    names != {} && if kind.Source? then names == expected.Keys else names <= expected.Keys
  }

  /** What an accepted archive satisfies. */
  ghost predicate Accepts(fold: Fold, expected: map<Path, Blob>, archive: Archive, kind: Kind, commit: string) {
    && archive.comment == commit
    && (forall k :: 0 <= k < |archive.entries| ==> NameError(fold, expected, archive.entries[k].name).None?)
    && var files := Files(archive.entries);
       && DistinctNames(files) && NamesFit(NamesOf(files), expected, kind)
       && forall k :: 0 <= k < |files| ==> files[k].name in expected && FileError(expected, files[k]).None?
  }

  method ReadTree(fold: Fold, tree: seq<Item>) returns (r: Result<map<Path, Blob>, Error>)
    ensures r.Ok? <==> forall k :: 0 <= k < |tree| ==> CheckError(fold, tree[k]).None?
    ensures r.Ok? ==> r.value == TreeMap(tree)
    ensures r.Err? ==> exists k :: 0 <= k < |tree| && CheckError(fold, tree[k]) == Some(r.error)
                                   && forall i :: 0 <= i < k ==> CheckError(fold, tree[i]).None?
  {
    hide CheckError;
    var expected: map<Path, Blob> := map[];
    for k := 0 to |tree|
      invariant forall i :: 0 <= i < k ==> CheckError(fold, tree[i]).None?
      invariant expected == TreeMap(tree[..k])
    {
      assert tree[..k + 1][..k] == tree[..k];
      var error := CheckError(fold, tree[k]);
      if error.Some? {
        return Err(error.value);
      }
      expected := expected[tree[k].path := Blob(tree[k].sha, tree[k].mode)];
    }
    assert tree[..|tree|] == tree;
    return Ok(expected);
  }

  /** Which error a name or a file gets. */
  lemma ErrorCodes(fold: Fold, expected: map<Path, Blob>, entry: Entry)
    ensures NameError(fold, expected, entry.name) == Some(UnsafePath) <==> !SafePath(fold, entry.name)
    ensures NameError(fold, expected, entry.name) == Some(TreeMismatch) <==>
      SafePath(fold, entry.name) && IsDir(entry.name) && forall p :: p in expected ==> !(entry.name <= p)
    ensures entry.name in expected ==>
      var blob, fits := expected[entry.name], entry.system == 3 && entry.attributes / 65536 == expected[entry.name].mode;
      && (FileError(expected, entry) == Some(ModeMismatch) <==> !fits)
      && (FileError(expected, entry) == Some(BlobMismatch) <==> fits && BlobSha(entry.content) != blob.sha)
  {
  }

  method CheckNames(fold: Fold, expected: map<Path, Blob>, entries: seq<Entry>) returns (r: Option<Error>)
    ensures r.None? <==> forall k :: 0 <= k < |entries| ==> NameError(fold, expected, entries[k].name).None?
    ensures r.Some? ==> exists k :: 0 <= k < |entries| && NameError(fold, expected, entries[k].name) == r
                                    && forall i :: 0 <= i < k ==> NameError(fold, expected, entries[i].name).None?
  {
    hide NameError;
    for k := 0 to |entries|
      invariant forall i :: 0 <= i < k ==> NameError(fold, expected, entries[i].name).None?
    {
      var error := NameError(fold, expected, entries[k].name);
      if error.Some? {
        return error;
      }
    }
    return None;
  }

  method CheckFiles(expected: map<Path, Blob>, files: seq<Entry>) returns (r: Option<Error>)
    requires forall k :: 0 <= k < |files| ==> files[k].name in expected
    ensures r.None? <==> forall k :: 0 <= k < |files| ==> FileError(expected, files[k]).None?
    ensures r.Some? ==> exists k :: 0 <= k < |files| && FileError(expected, files[k]) == r
                                    && forall i :: 0 <= i < k ==> FileError(expected, files[i]).None?
  {
    hide FileError;
    for k := 0 to |files|
      invariant forall i :: 0 <= i < k ==> FileError(expected, files[i]).None?
    {
      var error := FileError(expected, files[k]);
      if error.Some? {
        return error;
      }
    }
    return None;
  }

  /** The comment is checked first, then every name, then the set of names, then every file. */
  method CheckArchive(fold: Fold, expected: map<Path, Blob>, archive: Archive, kind: Kind, commit: string) returns (r: Option<Error>)
    ensures r.None? <==> Accepts(fold, expected, archive, kind, commit)
    ensures archive.comment != commit ==> r == Some(CommitMismatch)
    ensures archive.comment == commit && (exists k :: 0 <= k < |archive.entries| && NameError(fold, expected, archive.entries[k].name).Some?) ==>
      exists k :: 0 <= k < |archive.entries| && NameError(fold, expected, archive.entries[k].name) == r && r.Some?
                  && forall i :: 0 <= i < k ==> NameError(fold, expected, archive.entries[i].name).None?
    ensures archive.comment == commit && (forall k :: 0 <= k < |archive.entries| ==> NameError(fold, expected, archive.entries[k].name).None?) ==>
      var files := Files(archive.entries);
      if DistinctNames(files) && NamesFit(NamesOf(files), expected, kind) then
        r.Some? ==> exists k :: 0 <= k < |files| && files[k].name in expected && FileError(expected, files[k]) == r
                                && forall i :: 0 <= i < k ==> files[i].name in expected && FileError(expected, files[i]).None?
      else r == Some(TreeMismatch)
  {
    hide NameError, FileError, Files;
    if archive.comment != commit {
      return Some(CommitMismatch);
    }
    var error := CheckNames(fold, expected, archive.entries);
    if error.Some? {
      return error;
    }
    var files := Files(archive.entries);
    var names := NamesOf(files);
    CountsDistinct(files);
    if |names| != |files| || !NamesFit(names, expected, kind) {
      return Some(TreeMismatch);
    }
    forall k | 0 <= k < |files| ensures files[k].name in expected {
      assert files[k] in files && files[k].name in names;
    }
    r := CheckFiles(expected, files);
  }

  lemma DistinctSplits(files: seq<Entry>)
    requires files != []
    ensures var front, last := files[..|files| - 1], files[|files| - 1];
            && NamesOf(files) == NamesOf(front) + {last.name}
            && (DistinctNames(files) <==> DistinctNames(front) && last.name !in NamesOf(front))
  {
    var front, last := files[..|files| - 1], files[|files| - 1];
    assert files == front + [last];
    if last.name in NamesOf(front) {
      var e :| e in front && e.name == last.name;
      var i :| 0 <= i < |front| && front[i] == e;
      assert files[i].name == files[|files| - 1].name;
    }
    assert forall i :: 0 <= i < |front| ==> files[i] in front;
  }

  /** `len(actual) == len([...])`: the dictionary is as long as the list exactly when no name repeats. */
  lemma {:induction false} CountsDistinct(files: seq<Entry>)
    ensures |NamesOf(files)| <= |files|
    ensures |NamesOf(files)| == |files| <==> DistinctNames(files)
  {
    if files == [] {
      assert NamesOf(files) == {};
    } else {
      hide DistinctNames, NamesOf;
      CountsDistinct(files[..|files| - 1]);
      DistinctSplits(files);
    }
  }

  /** Checks the tree, then every archive made from it. */
  method CheckLocalSource(fold: Fold, tree: seq<Item>, archives: seq<(Kind, Archive)>, commit: string) returns (r: Option<Error>)
    ensures r.None? <==>
      && (forall k :: 0 <= k < |tree| ==> Archivable(fold, tree[k]))
      && forall k :: 0 <= k < |archives| ==> Accepts(fold, TreeMap(tree), archives[k].1, archives[k].0, commit)
  {
    hide CheckError, Archivable, Accepts, TreeMap;
    AllArchivable(fold, tree);
    var result := ReadTree(fold, tree);
    if result.Err? {
      return Some(result.error);
    }
    for k := 0 to |archives|
      invariant forall i :: 0 <= i < k ==> Accepts(fold, TreeMap(tree), archives[i].1, archives[i].0, commit)
    {
      var error := CheckArchive(fold, result.value, archives[k].1, archives[k].0, commit);
      if error.Some? {
        return error;
      }
    }
    return None;
  }

  // ----- What is written is accepted -----

  lemma TreeMapStep(tree: seq<Item>)
    requires tree != []
    ensures var last := tree[|tree| - 1];
            TreeMap(tree) == TreeMap(tree[..|tree| - 1])[last.path := Blob(last.sha, last.mode)]
  {
  }

  lemma TreeMapNone()
    ensures TreeMap([]) == map[]
  {
  }

  ghost predicate InTree(tree: seq<Item>, p: Path) {
    exists k :: 0 <= k < |tree| && tree[k].path == p
  }

  lemma InTreeStep(tree: seq<Item>)
    requires tree != []
    ensures forall p :: InTree(tree, p) <==> InTree(tree[..|tree| - 1], p) || p == tree[|tree| - 1].path
  {
    var front, last := tree[..|tree| - 1], tree[|tree| - 1];
    forall p ensures InTree(tree, p) <==> InTree(front, p) || p == last.path {
      if k :| 0 <= k < |tree| && tree[k].path == p {
        assert k < |front| ==> front[k].path == p;
      }
      if k :| 0 <= k < |front| && front[k].path == p {
        assert tree[k].path == p;
      }
    }
  }

  lemma FrontIsTree(tree: seq<Item>)
    requires GitTree(tree) && tree != []
    ensures GitTree(tree[..|tree| - 1])
  {
    hide IsDir;
    var front := tree[..|tree| - 1];
    assert forall k :: 0 <= k < |front| ==> front[k] == tree[k];
  }

  lemma {:induction false} TreeMapAt(tree: seq<Item>)
    requires GitTree(tree)
    ensures forall p :: p in TreeMap(tree) <==> InTree(tree, p)
    ensures forall k :: 0 <= k < |tree| ==> tree[k].path in TreeMap(tree) && TreeMap(tree)[tree[k].path] == Blob(tree[k].sha, tree[k].mode)
  {
    hide IsDir, TreeMap;
    TreeMapNone();
    if tree != [] {
      var front, last := tree[..|tree| - 1], tree[|tree| - 1];
      FrontIsTree(tree);
      TreeMapStep(tree);
      InTreeStep(tree);
      TreeMapAt(front);
      forall k | 0 <= k < |tree|
        ensures tree[k].path in TreeMap(tree) && TreeMap(tree)[tree[k].path] == Blob(tree[k].sha, tree[k].mode)
      {
        if k < |front| {
          assert front[k] == tree[k] && front[k].path in TreeMap(front) && tree[k].path != last.path;
        }
      }
    }
  }

  lemma {:induction false} ListedIs(tree: seq<Item>, filter: Filter)
    ensures forall item :: item in Listed(tree, filter) <==> item in tree && Included(filter, item.path)
  {
    hide Included;
    if tree != [] {
      var front, last := tree[..|tree| - 1], tree[|tree| - 1];
      ListedIs(front, filter);
      MembersByLast(tree);
      var kept := Listed(front, filter);
      assert Listed(tree, filter) == if Included(filter, last.path) then kept + [last] else kept by {
        assert kept + [] == kept;
      }
      assert forall item :: item in kept + [last] <==> item in kept || item == last;
    }
  }

  lemma {:induction false} ListedAll(tree: seq<Item>, filter: Filter)
    requires forall k :: 0 <= k < |tree| ==> Included(filter, tree[k].path)
    ensures Listed(tree, filter) == tree
  {
    hide Included;
    if tree != [] {
      var front, last := tree[..|tree| - 1], tree[|tree| - 1];
      ListedAll(front, filter);
      assert front + [last] == tree;
    }
  }

  lemma {:induction false} ListedIsTree(tree: seq<Item>, filter: Filter)
    requires GitTree(tree)
    ensures GitTree(Listed(tree, filter))
  {
    hide IsDir, Included;
    if tree != [] {
      var front, last := tree[..|tree| - 1], tree[|tree| - 1];
      ListedIsTree(front, filter);
      ListedIs(front, filter);
      assert forall k :: 0 <= k < |front| ==> front[k] == tree[k];
      TreeGrows(Listed(front, filter), last);
    }
  }

  lemma TreeGrows(items: seq<Item>, last: Item)
    requires GitTree(items) && !IsDir(last.path) && forall item :: item in items ==> item.path != last.path
    ensures GitTree(items + [last]) && items + [] == items
  {
  }

  lemma FilesStep(entries: seq<Entry>)
    requires entries != [] && !IsDir(entries[|entries| - 1].name)
    ensures Files(entries) == Files(entries[..|entries| - 1]) + [entries[|entries| - 1]]
  {
  }

  lemma {:induction false} AllFiles(entries: seq<Entry>)
    requires forall k :: 0 <= k < |entries| ==> !IsDir(entries[k].name)
    ensures Files(entries) == entries
  {
    if entries != [] {
      hide IsDir, Files;
      var front := entries[..|entries| - 1];
      FilesStep(entries);
      assert forall k :: 0 <= k < |front| ==> front[k] == entries[k];
      AllFiles(front);
      MembersByLast(entries);
    }
  }

  /** Every name an archive of the listed items has, and nothing else. */
  lemma NamesAre(archive: Archive, items: seq<Item>, commit: string)
    requires ArchiveOf(archive, items, commit)
    ensures forall p :: p in NamesOf(archive.entries) <==> exists item :: item in items && item.path == p
  {
    forall p ensures p in NamesOf(archive.entries) <==> exists item :: item in items && item.path == p {
      if p in NamesOf(archive.entries) {
        var e :| e in archive.entries && e.name == p;
        var k :| 0 <= k < |archive.entries| && archive.entries[k] == e;
        assert items[k] in items;
      }
      if item :| item in items && item.path == p {
        var k :| 0 <= k < |items| && items[k] == item;
        assert archive.entries[k] in archive.entries;
      }
    }
  }

  /** The names of an archive of listed items fit the tree, as a source exactly when nothing was filtered out. */
  lemma NamesFitExactly(tree: seq<Item>, filter: Filter, archive: Archive, kind: Kind, commit: string)
    requires GitTree(tree) && Listed(tree, filter) != [] && ArchiveOf(archive, Listed(tree, filter), commit)
    ensures NamesFit(NamesOf(archive.entries), TreeMap(tree), kind) <==> (kind.Source? ==> Listed(tree, filter) == tree)
  {
    hide ArchiveOf, Listed, GitTree, TreeMap, NamesOf, Included;
    var items, names := Listed(tree, filter), NamesOf(archive.entries);
    NamesAre(archive, items, commit);
    ListedIs(tree, filter);
    TreeMapAt(tree);
    assert items[0] in items && items[0].path in names;
    forall p | p in names ensures p in TreeMap(tree) {
      var item :| item in items && item.path == p;
      assert item in tree;
    }
    if names == TreeMap(tree).Keys {
      forall item | item in tree ensures Included(filter, item.path) {
        assert item.path in names;
        var other :| other in items && other.path == item.path;
      }
      forall k | 0 <= k < |tree| ensures Included(filter, tree[k].path) {
        assert tree[k] in tree;
      }
      ListedAll(tree, filter);
    }
    if items == tree {
      forall p | p in TreeMap(tree) ensures p in names {
        var k :| 0 <= k < |tree| && tree[k].path == p;
        assert tree[k] in items;
      }
    }
  }

  lemma FilesFit(tree: seq<Item>, items: seq<Item>, archive: Archive, commit: string)
    requires GitTree(tree) && ArchiveOf(archive, items, commit) && forall item :: item in items ==> item in tree
    ensures forall k :: 0 <= k < |items| ==> archive.entries[k].name in TreeMap(tree) && FileError(TreeMap(tree), archive.entries[k]).None?
  {
    hide TreeMap, GitTree, BlobSha;
    TreeMapAt(tree);
    forall k | 0 <= k < |items|
      ensures archive.entries[k].name in TreeMap(tree) && FileError(TreeMap(tree), archive.entries[k]).None?
    {
      assert items[k] in tree;
      var i :| 0 <= i < |tree| && tree[i] == items[k];
      assert items[k].mode * 65536 / 65536 == items[k].mode;
    }
  }

  lemma DistinctEntries(archive: Archive, items: seq<Item>, commit: string)
    requires GitTree(items) && ArchiveOf(archive, items, commit)
    ensures DistinctNames(archive.entries) && Files(archive.entries) == archive.entries
  {
    hide BlobSha, Files;
    AllFiles(archive.entries);
  }

  /** An archive the writer made of a tree passes the check exactly when every listed path
      meets the path rules and, for a source archive, nothing was filtered out. */
  lemma WrittenIsAccepted(fold: Fold, tree: seq<Item>, filter: Filter, archive: Archive, kind: Kind, commit: string)
    requires GitTree(tree) && Listed(tree, filter) != [] && ArchiveOf(archive, Listed(tree, filter), commit)
    ensures Accepts(fold, TreeMap(tree), archive, kind, commit) <==>
      && (forall item :: item in Listed(tree, filter) ==> SafePath(fold, item.path))
      && (kind.Source? ==> Listed(tree, filter) == tree)
  {
    hide ArchiveOf, Listed, GitTree, TreeMap, NamesOf, SafePath, NamesFit, NameError, DistinctNames, Files, FileError;
    var items := Listed(tree, filter);
    ListedIs(tree, filter);
    ListedIsTree(tree, filter);
    NamesFitExactly(tree, filter, archive, kind, commit);
    FilesFit(tree, items, archive, commit);
    DistinctEntries(archive, items, commit);
    NamesPass(fold, TreeMap(tree), items, archive, commit);
    ArchiveShape(archive, items, commit);
  }

  lemma ArchiveShape(archive: Archive, items: seq<Item>, commit: string)
    requires ArchiveOf(archive, items, commit)
    ensures archive.comment == commit && |archive.entries| == |items|
  {
  }

  lemma NamesPass(fold: Fold, expected: map<Path, Blob>, items: seq<Item>, archive: Archive, commit: string)
    requires GitTree(items) && ArchiveOf(archive, items, commit)
    ensures (forall k :: 0 <= k < |archive.entries| ==> NameError(fold, expected, archive.entries[k].name).None?) <==>
      forall item :: item in items ==> SafePath(fold, item.path)
  {
    hide SafePath, BlobSha, Leads;
    if forall k :: 0 <= k < |archive.entries| ==> NameError(fold, expected, archive.entries[k].name).None? {
      forall item | item in items ensures SafePath(fold, item.path) {
        var k :| 0 <= k < |items| && items[k] == item;
        assert NameError(fold, expected, archive.entries[k].name).None?;
      }
    }
    if forall item :: item in items ==> SafePath(fold, item.path) {
      forall k | 0 <= k < |archive.entries| ensures NameError(fold, expected, archive.entries[k].name).None? {
        assert items[k] in items;
      }
    }
  }

  // ----- What is accepted is the tree -----

  datatype File = File(mode: nat, content: Bytes)

  /** What unpacking gives. */
  function Unpacked(files: seq<Entry>): map<Path, File> {
    if files == [] then map[] else
      var last := files[|files| - 1];
      Unpacked(files[..|files| - 1])[last.name := File(last.attributes / 65536, last.content)]
  }

  lemma UnpackedStep(files: seq<Entry>)
    requires files != []
    ensures var last := files[|files| - 1];
            Unpacked(files) == Unpacked(files[..|files| - 1])[last.name := File(last.attributes / 65536, last.content)]
  {
  }

  lemma {:induction false} UnpackedAt(files: seq<Entry>)
    requires DistinctNames(files)
    ensures Unpacked(files).Keys == NamesOf(files)
    ensures forall k :: 0 <= k < |files| ==> files[k].name in Unpacked(files) && Unpacked(files)[files[k].name] == File(files[k].attributes / 65536, files[k].content)
  {
    if files != [] {
      hide DistinctNames, Unpacked, NamesOf;
      var front, last := files[..|files| - 1], files[|files| - 1];
      DistinctSplits(files);
      UnpackedStep(files);
      UnpackedAt(front);
      forall k | 0 <= k < |files|
        ensures files[k].name in Unpacked(files) && Unpacked(files)[files[k].name] == File(files[k].attributes / 65536, files[k].content)
      {
        if k < |front| {
          assert front[k] == files[k] && front[k].name in Unpacked(front);
        }
      }
    }
  }

  /** The files of a tree whose blobs are `blobs`. */
  function TreeFiles(expected: map<Path, Blob>, blobs: map<Path, Bytes>): map<Path, File>
    requires blobs.Keys == expected.Keys
  {
    map p | p in expected :: File(expected[p].mode, blobs[p])
  }

  lemma {:induction false} FilesAre(entries: seq<Entry>)
    ensures forall e :: e in Files(entries) <==> e in entries && !IsDir(e.name)
  {
    hide IsDir;
    if entries != [] {
      FilesAre(entries[..|entries| - 1]);
      MembersByLast(entries);
    }
  }

  lemma {:induction false} FilesJoin(a: seq<Entry>, b: seq<Entry>)
    ensures Files(a + b) == Files(a) + Files(b)
  {
    hide IsDir;
    if b == [] {
      assert a + b == a;
    } else {
      ConcatEnds(a, b);
      FilesJoin(a, b[..|b| - 1]);
    }
  }

  /** A directory entry is accepted wherever it stands, exactly when its name is safe and some path of the
      tree lies under it; it changes nothing about the rest of the archive. */
  lemma DirectoriesMayStand(fold: Fold, expected: map<Path, Blob>, before: seq<Entry>, dir: Entry, after: seq<Entry>, comment: string, kind: Kind, commit: string)
    requires IsDir(dir.name)
    ensures Accepts(fold, expected, Archive(comment, before + [dir] + after), kind, commit) <==>
      && Accepts(fold, expected, Archive(comment, before + after), kind, commit)
      && SafePath(fold, dir.name) && exists p :: p in expected && dir.name <= p
  {
    assert NameError(fold, expected, dir.name).None? <==> SafePath(fold, dir.name) && exists p :: p in expected && dir.name <= p;
    hide Files, NameError, SafePath, FileError, DistinctNames, NamesFit;
    PassAround(fold, expected, before, dir, after);
    FilesAround(before, dir, after);
  }

  lemma PassAround(fold: Fold, expected: map<Path, Blob>, before: seq<Entry>, dir: Entry, after: seq<Entry>)
    ensures var all, rest := before + [dir] + after, before + after;
            (forall k :: 0 <= k < |all| ==> NameError(fold, expected, all[k].name).None?) <==>
              && NameError(fold, expected, dir.name).None?
              && forall k :: 0 <= k < |rest| ==> NameError(fold, expected, rest[k].name).None?
  {
    hide NameError;
    PassByMember(fold, expected, before + [dir] + after);
    PassByMember(fold, expected, before + after);
    assert forall e :: e in before + [dir] + after <==> e in before + after || e == dir;
  }

  lemma PassByMember(fold: Fold, expected: map<Path, Blob>, entries: seq<Entry>)
    ensures (forall k :: 0 <= k < |entries| ==> NameError(fold, expected, entries[k].name).None?) <==>
      forall e :: e in entries ==> NameError(fold, expected, e.name).None?
  {
    hide NameError;
    assert forall k :: 0 <= k < |entries| ==> entries[k] in entries;
  }

  lemma FilesAround(before: seq<Entry>, dir: Entry, after: seq<Entry>)
    requires IsDir(dir.name)
    ensures Files(before + [dir] + after) == Files(before + after)
  {
    assert Files([dir]) == [] by {
      assert [dir][..0] == [] && [dir][0] == dir;
    }
    hide Files, IsDir;
    FilesJoin(before + [dir], after);
    FilesJoin(before, [dir]);
    FilesJoin(before, after);
    assert Files(before) + [] == Files(before);
  }

  /** Every entry of an accepted archive has a safe name; a file is one of the tree's, and a directory
      holds something of the tree. */
  lemma AcceptedEntries(fold: Fold, expected: map<Path, Blob>, archive: Archive, kind: Kind, commit: string)
    requires Accepts(fold, expected, archive, kind, commit)
    ensures forall e :: e in archive.entries ==>
      SafePath(fold, e.name) && if IsDir(e.name) then exists p :: p in expected && e.name <= p else e.name in expected
  {
    hide SafePath, IsDir, Files, FileError, DistinctNames, NamesFit;
    FilesAre(archive.entries);
    forall e | e in archive.entries
      ensures SafePath(fold, e.name) && if IsDir(e.name) then exists p :: p in expected && e.name <= p else e.name in expected
    {
      assert NameError(fold, expected, e.name).None?;
    }
  }

  /** An accepted archive unpacks to nothing but the tree's own files, with their modes and
      bytes; an accepted source archive to all of them. */
  lemma AcceptedIsTree(fold: Fold, expected: map<Path, Blob>, blobs: map<Path, Bytes>, archive: Archive, kind: Kind, commit: string)
    requires Accepts(fold, expected, archive, kind, commit)
    requires blobs.Keys == expected.Keys && forall p :: p in expected ==> BlobSha(blobs[p]) == expected[p].sha
    ensures var got := Unpacked(Files(archive.entries));
            && got.Keys <= expected.Keys && (forall p :: p in got ==> got[p] == TreeFiles(expected, blobs)[p])
            && (kind.Source? ==> got == TreeFiles(expected, blobs))
  {
    hide NameError, BlobSha, Files, Unpacked, NamesOf, DistinctNames;
    var files := Files(archive.entries);
    var got := Unpacked(files);
    UnpackedAt(files);
    forall p | p in got ensures p in expected && got[p] == TreeFiles(expected, blobs)[p] {
      NamedFile(files, p);
      var k :| 0 <= k < |files| && files[k].name == p;
      assert FileError(expected, files[k]).None?;
      BlobShaInjective(files[k].content, blobs[p]);
    }
  }

  lemma NamedFile(files: seq<Entry>, p: Path)
    requires p in NamesOf(files)
    ensures exists k :: 0 <= k < |files| && files[k].name == p
  {
    var e :| e in files && e.name == p;
    var k :| 0 <= k < |files| && files[k] == e;
    assert files[k].name == p;
  }
}
