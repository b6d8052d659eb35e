/** The payload check of the stable launcher in src/main.c: the record loop with its hash cache, who
    owns which handle on every way out, and what is held open when the payload process is created. */
module PayloadVerifier {
  import opened Basics

  const MAX_PAYLOAD_FILES: nat := 64
  const SHA_HEX: nat := 64
  const MCP_FILE: string := "semantic-memory-mcp.exe"
  const HOOK_FILE: string := "semantic-memory-hook.exe"
  const MANAGER_FILE: string := "semantic-memory-manager.exe"

  datatype Identity = Identity(cacheable: bool, volume: nat, fileId: nat)

  /** `stage14_file_identity_equal`. */
  predicate SameFile(a: Identity, b: Identity) {
    a.cacheable && b.cacheable && a.volume == b.volume && a.fileId == b.fileId
  }

  /** A regular file: its identity, its size, and what hashing it gives (None: reading it failed). */
  datatype File = File(identity: Identity, bytes: nat, sha: Option<string>)

  /** Resolving and opening a relative path below the payload root. */
  datatype Opened = NotOpened | Outside(file: File) | Inside(file: File)

  type Disk = string -> Opened

  /** A record of a manifest or receipt; a missing or ill-typed member is None. */
  datatype Record = NotAnObject | Record(path: Option<string>, sha: Option<string>, bytes: Option<nat>)

  predicate RecordsEqual(m: Record, r: Record) {
    && m.Record? && r.Record?
    && m.path.Some? && m.sha.Some? && m.bytes.Some? && m == r
  }

  predicate IsHexDigit(c: char) { '0' <= c <= '9' || 'a' <= c <= 'f' }

  predicate ValidSha(s: string) {
    |s| == SHA_HEX && forall i :: 0 <= i < |s| ==> IsHexDigit(s[i])
  }

  /** The payload file the launcher's role runs, and whether its resolved name is the expected one. */
  datatype Entry = Entry(relative: string, nameOk: bool)

  // ---- What is verified ----

  /** Both are below the root, and the system gives both the same volume and file number. */
  predicate TakenForOne(a: Opened, b: Opened) {
    && a.Inside? && b.Inside? && a.file.identity.cacheable && b.file.identity.cacheable
    && a.file.identity.volume == b.file.identity.volume && a.file.identity.fileId == b.file.identity.fileId
  }

  predicate SameContent(a: File, b: File) { a.bytes == b.bytes && a.sha == b.sha }

  /** Whether every record's file is hashed, or files the system calls the same only once. */
  datatype Hashing = EachTime | OncePerFile

  function FileOf(manifest: seq<Record>, disk: Disk, i: nat): Opened
    requires i < |manifest|
  {
    if manifest[i].Record? && manifest[i].path.Some? then disk(manifest[i].path.value) else NotOpened
  }

  /** The first record from `k` on whose file the system calls the same as that of record `i`. */
  function FirstSame(manifest: seq<Record>, disk: Disk, i: nat, k: nat): (first: nat)
    requires k <= i < |manifest|
    ensures k <= first <= i && (first < i ==> TakenForOne(FileOf(manifest, disk, first), FileOf(manifest, disk, i)))
    ensures forall l :: k <= l < first ==> !TakenForOne(FileOf(manifest, disk, l), FileOf(manifest, disk, i))
    decreases i - k
  {
    if k == i || TakenForOne(FileOf(manifest, disk, k), FileOf(manifest, disk, i)) then k
    else FirstSame(manifest, disk, i, k + 1)
  }

  /** The file whose hash stands for that of record `i`'s file. */
  function HashedFile(manifest: seq<Record>, disk: Disk, i: nat, how: Hashing): (file: File)
    requires i < |manifest| && FileOf(manifest, disk, i).Inside?
  {
    match how
    case EachTime => FileOf(manifest, disk, i).file
    case OncePerFile => FileOf(manifest, disk, FirstSame(manifest, disk, i, 0)).file
  }

  /** Record `i` agrees with the receipt and names a file below the root that no earlier record names;
      that file, and the one hashed for it, have the stated size, and the hash is the stated one. */
  ghost predicate RecordOk(manifest: seq<Record>, receipt: seq<Record>, disk: Disk, entry: Entry, i: nat,
                           how: Hashing)
    requires i < |manifest| == |receipt|
  {
    && RecordsEqual(manifest[i], receipt[i]) && ValidSha(manifest[i].sha.value)
    && var path := manifest[i].path.value;
    && disk(path).Inside?
    && (forall k :: 0 <= k < i && manifest[k].Record? && manifest[k].path.Some? ==>
          !SameIgnoringCase(manifest[k].path.value, path))
    && disk(path).file.bytes == manifest[i].bytes.value
    && var hashed := HashedFile(manifest, disk, i, how);
    && hashed.bytes == manifest[i].bytes.value && hashed.sha == manifest[i].sha
    && (path == entry.relative ==> entry.nameOk)
  }

  ghost predicate Lists(manifest: seq<Record>, n: nat, path: string)
    requires n <= |manifest|
  {
    exists i :: 0 <= i < n && manifest[i].Record? && manifest[i].path == Some(path)
  }

  ghost predicate Accepts(manifest: seq<Record>, receipt: seq<Record>, disk: Disk, entry: Entry, how: Hashing)
    requires |manifest| == |receipt|
  {
    && (forall i :: 0 <= i < |manifest| ==> RecordOk(manifest, receipt, disk, entry, i, how))
    && Lists(manifest, |manifest|, entry.relative) && Lists(manifest, |manifest|, MCP_FILE)
    && Lists(manifest, |manifest|, HOOK_FILE) && Lists(manifest, |manifest|, MANAGER_FILE)
  }

  /** Files the system calls the same are the same: equal size, equal hashing result. */
  ghost predicate IdentitiesSound(disk: Disk) {
    forall p, q {:trigger disk(p), disk(q)} ::
      TakenForOne(disk(p), disk(q)) ==> SameContent(disk(p).file, disk(q).file)
  }

  /** The listed files that the system calls the same have equal content. */
  ghost predicate RepeatsAlike(manifest: seq<Record>, disk: Disk) {
    forall i :: 0 <= i < |manifest| && FileOf(manifest, disk, i).Inside? ==> RepeatAlike(manifest, disk, i)
  }

  ghost predicate RepeatAlike(manifest: seq<Record>, disk: Disk, i: nat)
    requires i < |manifest| && FileOf(manifest, disk, i).Inside?
  {
    SameContent(HashedFile(manifest, disk, i, OncePerFile), HashedFile(manifest, disk, i, EachTime))
  }

  /** When an accepted manifest would also be accepted with every file hashed, and the other way round:
      exactly when no two listed files that are called the same differ. */
  lemma CacheHarmless(manifest: seq<Record>, receipt: seq<Record>, disk: Disk, entry: Entry, how: Hashing,
                      other: Hashing)
    requires |manifest| == |receipt| && Accepts(manifest, receipt, disk, entry, how) && how != other
    ensures Accepts(manifest, receipt, disk, entry, other) <==> RepeatsAlike(manifest, disk)
  {
    hide SameIgnoringCase, ValidSha, HashedFile, Lists;
    forall i | 0 <= i < |manifest|
      ensures FileOf(manifest, disk, i).Inside?
      ensures RecordOk(manifest, receipt, disk, entry, i, other) <==> RepeatAlike(manifest, disk, i)
    {
      assert RecordOk(manifest, receipt, disk, entry, i, how);
    }
  }

  /** The listed files that have a file number differ pairwise in volume or file number. */
  ghost predicate DifferentFiles(manifest: seq<Record>, disk: Disk) {
    forall i, j :: 0 <= i < j < |manifest| && FileOf(manifest, disk, i).Inside? && FileOf(manifest, disk, j).Inside? ==>
      var a, b := FileOf(manifest, disk, i).file.identity, FileOf(manifest, disk, j).file.identity;
      a.cacheable && b.cacheable ==> a.volume != b.volume || a.fileId != b.fileId
  }

  /** Such a manifest is accepted exactly when it is with every file hashed. */
  lemma DifferentAccepts(manifest: seq<Record>, receipt: seq<Record>, disk: Disk, entry: Entry)
    requires |manifest| == |receipt| && DifferentFiles(manifest, disk)
    ensures Accepts(manifest, receipt, disk, entry, OncePerFile) <==> Accepts(manifest, receipt, disk, entry, EachTime)
  {
    hide SameIgnoringCase, ValidSha, Lists;
    forall i | 0 <= i < |manifest|
      ensures RecordOk(manifest, receipt, disk, entry, i, OncePerFile)
              <==> RecordOk(manifest, receipt, disk, entry, i, EachTime)
    {
      DifferentHashed(manifest, disk, i);
      hide HashedFile;
    }
    hide RecordOk;
  }

  lemma DifferentHashed(manifest: seq<Record>, disk: Disk, i: nat)
    requires DifferentFiles(manifest, disk) && i < |manifest|
    ensures FileOf(manifest, disk, i).Inside? ==>
              HashedFile(manifest, disk, i, OncePerFile) == HashedFile(manifest, disk, i, EachTime)
  {
    hide FileOf;
  }

  /** A later file with the volume and file number of an earlier one, the first that has them, is
      accepted on the earlier one's size and hash. */
  lemma RepeatAccepted(manifest: seq<Record>, receipt: seq<Record>, disk: Disk, entry: Entry, k: nat, i: nat)
    requires k < i < |manifest| == |receipt|
    requires manifest[k].Record? && manifest[k].path.Some? && manifest[i].Record? && manifest[i].path.Some?
    requires disk(manifest[k].path.value).Inside? && disk(manifest[i].path.value).Inside?
    requires var a, b := disk(manifest[k].path.value).file.identity, disk(manifest[i].path.value).file.identity;
             a.cacheable && b.cacheable && a.volume == b.volume && a.fileId == b.fileId
    requires forall l :: 0 <= l < k && manifest[l].Record? && manifest[l].path.Some?
                         && disk(manifest[l].path.value).Inside? ==>
               var a, b := disk(manifest[l].path.value).file.identity, disk(manifest[i].path.value).file.identity;
               a.cacheable ==> a.volume != b.volume || a.fileId != b.fileId
    ensures var first, file := disk(manifest[k].path.value).file, disk(manifest[i].path.value).file;
            RecordOk(manifest, receipt, disk, entry, i, OncePerFile)
            <==> && RecordsEqual(manifest[i], receipt[i]) && ValidSha(manifest[i].sha.value)
                 && (forall l :: 0 <= l < i && manifest[l].Record? && manifest[l].path.Some? ==>
                       !SameIgnoringCase(manifest[l].path.value, manifest[i].path.value))
                 && Some(file.bytes) == manifest[i].bytes == Some(first.bytes) && manifest[i].sha == first.sha
                 && (manifest[i].path.value == entry.relative ==> entry.nameOk)
  {
    hide SameIgnoringCase, ValidSha;
    var f := FirstSame(manifest, disk, i, 0);
    assert TakenForOne(FileOf(manifest, disk, k), FileOf(manifest, disk, i));
    assert f == k;
  }

  lemma SoundAreAlike(manifest: seq<Record>, disk: Disk)
    requires IdentitiesSound(disk)
    ensures RepeatsAlike(manifest, disk)
  {}

  /** Accepted records name pairwise different files, ignoring case. */
  lemma AcceptedPathsDistinct(manifest: seq<Record>, receipt: seq<Record>, disk: Disk, entry: Entry, how: Hashing,
                              i: nat, j: nat)
    requires |manifest| == |receipt| && Accepts(manifest, receipt, disk, entry, how) && i < j < |manifest|
    ensures manifest[i].Record? && manifest[i].path.Some? && manifest[j].Record? && manifest[j].path.Some?
    ensures !SameIgnoringCase(manifest[i].path.value, manifest[j].path.value)
    ensures manifest[i] == receipt[i] && manifest[j] == receipt[j]
  {
    hide SameIgnoringCase;
    assert RecordOk(manifest, receipt, disk, entry, i, how) && RecordOk(manifest, receipt, disk, entry, j, how);
  }

  ghost predicate Names(manifest: seq<Record>, path: string) {
    exists i :: 0 <= i < |manifest| && manifest[i].Record? && manifest[i].path == Some(path)
  }

  lemma ListsAll(manifest: seq<Record>, path: string)
    ensures Lists(manifest, |manifest|, path) <==> Names(manifest, path)
  {}

  lemma HexDigits(c: char)
    ensures IsHexDigit(c) <==> c in "0123456789abcdef"
  {
    var digits := "0123456789abcdef";
    if '0' <= c <= '9' { assert digits[c as int - '0' as int] == c; }
    if 'a' <= c <= 'f' { assert digits[c as int - 'a' as int + 10] == c; }
  }

  /** The record is complete, its hash is 64 lower-case hexadecimal digits, and the file it names is below
      the root and has that size and hash. */
  ghost predicate FileStated(r: Record, disk: Disk) {
    && r.Record? && r.path.Some? && r.sha.Some? && r.bytes.Some?
    && |r.sha.value| == 64 && (forall i :: 0 <= i < 64 ==> r.sha.value[i] in "0123456789abcdef")
    && disk(r.path.value).Inside?
    && Some(disk(r.path.value).file.bytes) == r.bytes && disk(r.path.value).file.sha == r.sha
  }

  lemma RecordStated(manifest: seq<Record>, receipt: seq<Record>, disk: Disk, entry: Entry, i: nat)
    requires i < |manifest| == |receipt|
    ensures RecordOk(manifest, receipt, disk, entry, i, EachTime)
            <==> && manifest[i] == receipt[i] && FileStated(manifest[i], disk)
                 && (forall k :: 0 <= k < i && manifest[k].Record? && manifest[k].path.Some? ==>
                       !SameIgnoringCase(manifest[k].path.value, manifest[i].path.value))
                 && (manifest[i].path.value == entry.relative ==> entry.nameOk)
  {
    forall c ensures IsHexDigit(c) <==> c in "0123456789abcdef" { HexDigits(c); }
    hide SameIgnoringCase, IsHexDigit;
  }

  lemma EntryNameOk(manifest: seq<Record>, receipt: seq<Record>, disk: Disk, entry: Entry)
    requires |manifest| == |receipt| && Accepts(manifest, receipt, disk, entry, EachTime)
    ensures entry.nameOk
  {
    hide SameIgnoringCase, ValidSha;
    var i :| 0 <= i < |manifest| && manifest[i].Record? && manifest[i].path == Some(entry.relative);
    assert RecordOk(manifest, receipt, disk, entry, i, EachTime);
  }

  /** What an accepted manifest is, with every file hashed: record by record the receipt's, with the size
      and the 64 lower-case hexadecimal digits that the file below the root has, no two names alike but
      for case, the three executables and the entry among them, and the entry's resolved name right. */
  lemma AcceptsExactly(manifest: seq<Record>, receipt: seq<Record>, disk: Disk, entry: Entry)
    requires |manifest| == |receipt|
    ensures Accepts(manifest, receipt, disk, entry, EachTime)
            <==> && manifest == receipt
                 && (forall i :: 0 <= i < |manifest| ==> FileStated(manifest[i], disk))
                 && (forall i, k :: 0 <= k < i < |manifest| ==>
                       !DifferInCase(manifest[k].path.value, manifest[i].path.value))
                 && Names(manifest, "semantic-memory-mcp.exe") && Names(manifest, "semantic-memory-hook.exe")
                 && Names(manifest, "semantic-memory-manager.exe") && Names(manifest, entry.relative) && entry.nameOk
  {
    forall a, b ensures SameIgnoringCase(a, b) <==> DifferInCase(a, b) { SameMeansCase(a, b); }
    hide SameIgnoringCase, DifferInCase, Lists, Names, FileStated;
    ListsAll(manifest, entry.relative);
    ListsAll(manifest, MCP_FILE);
    ListsAll(manifest, HOOK_FILE);
    ListsAll(manifest, MANAGER_FILE);
    if Accepts(manifest, receipt, disk, entry, EachTime) {
      forall i | 0 <= i < |manifest| ensures manifest[i] == receipt[i] && FileStated(manifest[i], disk) {
        assert RecordOk(manifest, receipt, disk, entry, i, EachTime);
        RecordStated(manifest, receipt, disk, entry, i);
      }
      forall i, k | 0 <= k < i < |manifest| ensures !DifferInCase(manifest[k].path.value, manifest[i].path.value) {
        AcceptedPathsDistinct(manifest, receipt, disk, entry, EachTime, k, i);
      }
      EntryNameOk(manifest, receipt, disk, entry);
    }
    if manifest == receipt && forall i :: 0 <= i < |manifest| ==> FileStated(manifest[i], disk) {
      forall i | 0 <= i < |manifest|
        ensures RecordOk(manifest, receipt, disk, entry, i, EachTime)
                <==> (forall k :: 0 <= k < i ==> !SameIgnoringCase(manifest[k].path.value, manifest[i].path.value))
                     && (manifest[i].path.value == entry.relative ==> entry.nameOk)
      {
        RecordStated(manifest, receipt, disk, entry, i);
      }
    }
  }

  // ---- Handles ----

  /** What a handle was opened for. */
  datatype Resource =
    | InstallDirectory | BinDirectory | PayloadDirectory
    | PayloadFile(path: string) | LauncherFile
    | JsonFile | Document | HashContext | HeapBlock
    | Job | Process | Thread

  /** The process's handles and other released-once resources. A number is given out once; closing
      something that is not open is an error, so nothing can be closed twice. */
  class Os {
    var uses: seq<Resource>               // what every handle ever given out was opened for
    var open: multiset<nat>
    ghost var created: seq<multiset<nat>>   // what was open at each process creation

    ghost predicate Valid()
      reads this`uses, this`open
    {
      forall h :: h in open ==> h < |uses| && open[h] == 1
    }

    method Acquire(what: Resource) returns (h: nat)
      requires Valid()
      modifies this`uses, this`open
      ensures Valid() && h == |old(uses)| && uses == old(uses) + [what]
      ensures open == old(open) + multiset{h}
    {
      h := |uses|;
      uses := uses + [what];
      open := open + multiset{h};
    }

    /** CreateProcessW, when it succeeds: two more handles. */
    method CreateProcess() returns (process: nat, thread: nat)
      requires Valid()
      modifies this`uses, this`open, this`created
      ensures Valid() && open == old(open) + multiset{process, thread} && old(uses) <= uses
      ensures created == old(created) + [old(open)]
    {
      created := created + [open];
      process := Acquire(Process);
      thread := Acquire(Thread);
    }

    method Release(h: nat)
      requires Valid() && h in open
      modifies this`open
      ensures Valid() && open == old(open) - multiset{h}
    {
      open := open - multiset{h};
    }
  }

  /** `stage14_verified_file_t`. */
  datatype Verified = Verified(identity: Identity, bytes: nat, sha: string, handle: Option<nat>)

  function OptionalHandle(h: Option<nat>): multiset<nat> {
    if h.Some? then multiset{h.value} else multiset{}
  }

  function FileHandles(files: seq<Verified>): multiset<nat> {
    if files == [] then multiset{}
    else FileHandles(files[..|files| - 1]) + OptionalHandle(files[|files| - 1].handle)
  }

  lemma FileHandlesAppend(files: seq<Verified>, v: Verified)
    requires v.handle.Some?
    ensures FileHandles(files + [v]) == FileHandles(files) + multiset{v.handle.value}
  {
    assert (files + [v])[..|files|] == files;
  }

  lemma {:induction false} FileHandlesClose(files: seq<Verified>, i: nat)
    requires i < |files|
    ensures FileHandles(files)
            == FileHandles(files[i := files[i].(handle := None)]) + OptionalHandle(files[i].handle)
  {
    hide OptionalHandle;
    var last := |files| - 1;
    var closed := files[i := files[i].(handle := None)];
    NoHandle();
    if i < last {
      assert closed[..last] == files[..last][i := files[i].(handle := None)];
      FileHandlesClose(files[..last], i);
    } else {
      assert closed[..last] == files[..last];
    }
  }

  lemma {:induction false} FileHandleHeld(files: seq<Verified>, j: nat)
    requires j < |files| && files[j].handle.Some?
    ensures files[j].handle.value in FileHandles(files)
  {
    var last := |files| - 1;
    if j < last { FileHandleHeld(files[..last], j); }
  }

  lemma ThisHandle(h: nat)
    ensures OptionalHandle(Some(h)) == multiset{h}
  {}

  lemma NoHandle()
    ensures OptionalHandle(None) == multiset{}
  {}

  /** What the launcher holds: the launch guards and the documents and contexts its cleanup frees. */
  class Session {
    var files: seq<Verified>
    var launcher: Option<nat>
    var directories: seq<nat>
    var manifestDoc: Option<nat>
    var receiptDoc: Option<nat>
    var sha: Option<nat>
    var finalPaths: Option<nat>

    constructor (finalPaths: nat)
      ensures files == [] && launcher == None && directories == [] && this.finalPaths == Some(finalPaths)
      ensures manifestDoc == None && receiptDoc == None && sha == None
    {
      files, launcher, directories := [], None, [];
      manifestDoc, receiptDoc, sha, this.finalPaths := None, None, None, Some(finalPaths);
    }

    ghost function Guards(): multiset<nat>
      reads this`files, this`launcher, this`directories
    {
      FileHandles(files) + OptionalHandle(launcher) + multiset(directories)
    }

    ghost function Others(): multiset<nat>
      reads this`manifestDoc, this`receiptDoc, this`sha, this`finalPaths
    {
      OptionalHandle(manifestDoc) + OptionalHandle(receiptDoc) + OptionalHandle(sha) + OptionalHandle(finalPaths)
    }

    /** Apart from `base`, exactly what this session holds is open. */
    ghost predicate Accounts(os: Os, base: multiset<nat>)
      reads this, os`uses, os`open
    {
      os.Valid() && os.open == base + Guards() + Others()
    }
  }

  // ---- What the guards are ----

  ghost predicate OpenedFor(h: nat, what: Resource, uses: seq<Resource>) {
    h < |uses| && uses[h] == what
  }

  ghost predicate DirectoriesHeld(directories: seq<nat>, uses: seq<Resource>) {
    && |directories| == 3
    && OpenedFor(directories[0], InstallDirectory, uses) && OpenedFor(directories[1], BinDirectory, uses)
    && OpenedFor(directories[2], PayloadDirectory, uses)
  }

  ghost predicate LauncherHeld(launcher: Option<nat>, uses: seq<Resource>) {
    launcher.Some? && OpenedFor(launcher.value, LauncherFile, uses)
  }

  ghost predicate Describes(v: Verified, file: File) {
    v.identity == file.identity && v.bytes == file.bytes && Some(v.sha) == file.sha
  }

  /** A cached entry describes the file its handle was opened for. */
  ghost predicate StandsFor(v: Verified, uses: seq<Resource>, disk: Disk) {
    && v.handle.Some? && v.handle.value < |uses| && uses[v.handle.value].PayloadFile?
    && var o := disk(uses[v.handle.value].path);
       o.Inside? && Describes(v, o.file)
  }

  ghost predicate CacheOk(files: seq<Verified>, uses: seq<Resource>, disk: Disk) {
    forall j :: 0 <= j < |files| ==> StandsFor(files[j], uses, disk)
  }

  /** The handle was opened for this very path, or for a file the system calls the same. */
  ghost predicate Guards(h: nat, path: string, uses: seq<Resource>, disk: Disk) {
    && h < |uses| && uses[h].PayloadFile? && disk(path).Inside?
    && (uses[h].path == path || TakenForOne(disk(uses[h].path), disk(path)))
  }

  ghost predicate PathGuarded(files: seq<Verified>, path: string, uses: seq<Resource>, disk: Disk) {
    exists j :: 0 <= j < |files| && files[j].handle.Some? && Guards(files[j].handle.value, path, uses, disk)
  }

  ghost predicate RecordGuarded(files: seq<Verified>, r: Record, uses: seq<Resource>, disk: Disk) {
    r.Record? && r.path.Some? && PathGuarded(files, r.path.value, uses, disk)
  }

  ghost predicate AllGuarded(files: seq<Verified>, manifest: seq<Record>, n: nat, uses: seq<Resource>, disk: Disk)
    requires n <= |manifest|
  {
    forall i :: 0 <= i < n ==> RecordGuarded(files, manifest[i], uses, disk)
  }

  lemma CacheStays(files: seq<Verified>, uses: seq<Resource>, more: seq<Resource>, disk: Disk)
    requires CacheOk(files, uses, disk) && uses <= more
    ensures CacheOk(files, more, disk)
  {
    forall j | 0 <= j < |files| ensures StandsFor(files[j], more, disk) {
      assert StandsFor(files[j], uses, disk);
    }
  }

  lemma PathStaysGuarded(files: seq<Verified>, moreFiles: seq<Verified>, path: string, uses: seq<Resource>,
                         more: seq<Resource>, disk: Disk)
    requires PathGuarded(files, path, uses, disk) && files <= moreFiles && uses <= more
    ensures PathGuarded(moreFiles, path, more, disk)
  {
    var j :| 0 <= j < |files| && files[j].handle.Some? && Guards(files[j].handle.value, path, uses, disk);
    assert moreFiles[j] == files[j] && Guards(moreFiles[j].handle.value, path, more, disk);
  }

  lemma AllStayGuarded(files: seq<Verified>, moreFiles: seq<Verified>, manifest: seq<Record>, n: nat,
                       uses: seq<Resource>, more: seq<Resource>, disk: Disk)
    requires n <= |manifest| && AllGuarded(files, manifest, n, uses, disk) && files <= moreFiles && uses <= more
    ensures AllGuarded(moreFiles, manifest, n, more, disk)
  {
    hide PathGuarded;
    forall i | 0 <= i < n ensures RecordGuarded(moreFiles, manifest[i], more, disk) {
      assert RecordGuarded(files, manifest[i], uses, disk);
      PathStaysGuarded(files, moreFiles, manifest[i].path.value, uses, more, disk);
    }
  }

  /** A file found in the cache is guarded; if identities are sound, it has the size and hash that
      reading it again would give. */
  lemma CacheHit(files: seq<Verified>, uses: seq<Resource>, disk: Disk, j: nat, path: string)
    requires CacheOk(files, uses, disk) && j < |files| && disk(path).Inside?
    requires SameFile(files[j].identity, disk(path).file.identity)
    ensures PathGuarded(files, path, uses, disk)
    ensures IdentitiesSound(disk) ==>
              files[j].bytes == disk(path).file.bytes && Some(files[j].sha) == disk(path).file.sha
  {
    assert StandsFor(files[j], uses, disk);
    assert TakenForOne(disk(uses[files[j].handle.value].path), disk(path));
    assert Guards(files[j].handle.value, path, uses, disk);
  }

  // ---- The record loop ----

  /** The path was not used before, ignoring case. */
  method PathIsNew(manifest: seq<Record>, i: nat, path: string) returns (isNew: bool)
    requires i <= |manifest|
    ensures isNew <==> forall k :: 0 <= k < i && manifest[k].Record? && manifest[k].path.Some? ==>
                         !SameIgnoringCase(manifest[k].path.value, path)
  {
    hide SameIgnoringCase;
    for prior := 0 to i
      invariant forall k :: 0 <= k < prior && manifest[k].Record? && manifest[k].path.Some? ==>
                  !SameIgnoringCase(manifest[k].path.value, path)
    {
      var p := manifest[prior];
      if p.Record? && p.path.Some? && SameIgnoringCase(p.path.value, path) {
        return false;
      }
    }
    return true;
  }

  /** Position of the first cached file with this identity, or the number of cached files. */
  function FirstMatch(files: seq<Verified>, identity: Identity): (j: nat)
    ensures j <= |files| && (j < |files| ==> SameFile(files[j].identity, identity))
    ensures forall k :: 0 <= k < j ==> !SameFile(files[k].identity, identity)
  {
    if files == [] || SameFile(files[0].identity, identity) then 0
    else
      var j := 1 + FirstMatch(files[1..], identity);
      assert forall k :: 1 <= k < j ==> files[k] == files[1..][k - 1];
      j
  }

  method FindCached(files: seq<Verified>, identity: Identity) returns (j: nat)
    ensures j == FirstMatch(files, identity)
  {
    j := 0;
    while j < |files| && !SameFile(files[j].identity, identity)
      invariant j <= |files| && forall k :: 0 <= k < j ==> !SameFile(files[k].identity, identity)
    {
      j := j + 1;
    }
  }

  /** The answer the cache gives for a file: the first cached one with its identity speaks for it. */
  ghost predicate Matches(files: seq<Verified>, file: File, bytes: nat, sha: string) {
    && file.bytes == bytes
    && var j := FirstMatch(files, file.identity);
       if j < |files| then files[j].bytes == bytes && files[j].sha == sha else file.sha == Some(sha)
  }

  /** The cache after a file with a hash: itself if the file was in it, otherwise with the file at its end. */
  ghost predicate Joined(files: seq<Verified>, more: seq<Verified>, file: File) {
    if FirstMatch(files, file.identity) < |files| then more == files
    else |more| == |files| + 1 && files <= more && Describes(more[|files|], file)
  }

  // ---- What is in the cache ----

  /** Record `k` is the first of all whose files are called the same. */
  ghost predicate First(manifest: seq<Record>, disk: Disk, k: nat)
    requires k < |manifest|
  {
    FileOf(manifest, disk, k).Inside? && FirstSame(manifest, disk, k, 0) == k
  }

  ghost predicate InCache(files: seq<Verified>, file: File) {
    exists j :: 0 <= j < |files| && Describes(files[j], file)
  }

  ghost predicate FromFirst(v: Verified, manifest: seq<Record>, n: nat, disk: Disk)
    requires n <= |manifest|
  {
    exists k: nat :: k < n && First(manifest, disk, k) && Describes(v, FileOf(manifest, disk, k).file)
  }

  /** The cache holds exactly the files of the records that are the first of their kind. */
  ghost predicate CacheExact(files: seq<Verified>, manifest: seq<Record>, n: nat, disk: Disk)
    requires n <= |manifest|
  {
    && (forall j :: 0 <= j < |files| ==> FromFirst(files[j], manifest, n, disk))
    && (forall k: nat :: k < n && First(manifest, disk, k) ==> InCache(files, FileOf(manifest, disk, k).file))
  }

  /** A record before this one with the same file: the first such is the first of its kind. */
  lemma FirstIsFirst(manifest: seq<Record>, disk: Disk, i: nat)
    requires i < |manifest| && FileOf(manifest, disk, i).Inside?
    ensures First(manifest, disk, FirstSame(manifest, disk, i, 0))
  {}

  /** What a first record's file is called, `i` is called too: it is the first such record. */
  lemma OnlyFirst(manifest: seq<Record>, disk: Disk, i: nat, k: nat)
    requires k < i < |manifest| && First(manifest, disk, k)
    requires TakenForOne(FileOf(manifest, disk, k), FileOf(manifest, disk, i))
    ensures FirstSame(manifest, disk, i, 0) == k
  {}

  /** Looking up record `i`'s file finds the first record with it, or nothing if that is `i` itself. */
  lemma LookupExact(files: seq<Verified>, manifest: seq<Record>, i: nat, disk: Disk)
    requires i < |manifest| && CacheExact(files, manifest, i, disk) && FileOf(manifest, disk, i).Inside?
    ensures var j := FirstMatch(files, FileOf(manifest, disk, i).file.identity);
            if j < |files| then Describes(files[j], HashedFile(manifest, disk, i, OncePerFile))
            else First(manifest, disk, i)
  {
    hide FirstSame, FirstMatch;
    var j := FirstMatch(files, FileOf(manifest, disk, i).file.identity);
    if j < |files| {
      assert FromFirst(files[j], manifest, i, disk);
      var k: nat :| k < i && First(manifest, disk, k) && Describes(files[j], FileOf(manifest, disk, k).file);
      OnlyFirst(manifest, disk, i, k);
    } else {
      var k := FirstSame(manifest, disk, i, 0);
      FirstIsFirst(manifest, disk, i);
      if k < i {
        assert false;
      }
    }
  }

  /** The answer of the cache for record `i`, in terms of the manifest and the disk. */
  lemma MatchesExact(files: seq<Verified>, manifest: seq<Record>, i: nat, disk: Disk, bytes: nat, sha: string)
    requires i < |manifest| && CacheExact(files, manifest, i, disk) && FileOf(manifest, disk, i).Inside?
    ensures Matches(files, FileOf(manifest, disk, i).file, bytes, sha)
            <==> FileOf(manifest, disk, i).file.bytes == bytes
                 && HashedFile(manifest, disk, i, OncePerFile).bytes == bytes
                 && HashedFile(manifest, disk, i, OncePerFile).sha == Some(sha)
  {
    hide CacheExact, FirstSame, FirstMatch;
    LookupExact(files, manifest, i, disk);
  }

  /** After record `i` the cache is exact for one more record. */
  lemma JoinedExact(files: seq<Verified>, more: seq<Verified>, manifest: seq<Record>, i: nat, disk: Disk)
    requires i < |manifest| && CacheExact(files, manifest, i, disk) && FileOf(manifest, disk, i).Inside?
    requires Joined(files, more, FileOf(manifest, disk, i).file)
    ensures CacheExact(more, manifest, i + 1, disk)
  {
    hide FirstSame, FirstMatch, FileOf;
    LookupExact(files, manifest, i, disk);
  }

  // ---- One record ----

  /** What every part of the record loop keeps: the books balance, the cache is right, files only join. */
  ghost predicate Loop(os: Os, s: Session, disk: Disk, base: multiset<nat>)
    reads os`uses, os`open, s
  {
    s.Accounts(os, base) && CacheOk(s.files, os.uses, disk)
  }

  lemma LoopParts(os: Os, s: Session, disk: Disk, base: multiset<nat>)
    requires Loop(os, s, disk, base)
    ensures os.Valid() && os.open == base + s.Guards() + s.Others() && CacheOk(s.files, os.uses, disk)
  {
    hide CacheOk, Session.Guards, Session.Others, Os.Valid;
  }

  lemma LoopAgain(os: Os, s: Session, disk: Disk, base: multiset<nat>)
    requires os.Valid() && os.open == base + s.Guards() + s.Others() && CacheOk(s.files, os.uses, disk)
    ensures Loop(os, s, disk, base)
  {
    hide CacheOk, Session.Guards, Session.Others, Os.Valid;
  }

  /** Opening, cache lookup and hashing for one record whose path is new. */
  method VerifyFile(os: Os, s: Session, disk: Disk, path: string, bytes: nat, sha: string, ghost base: multiset<nat>)
      returns (ok: bool)
    requires Loop(os, s, disk, base) && |s.files| < MAX_PAYLOAD_FILES
    modifies os`uses, os`open, s`files
    ensures Loop(os, s, disk, base) && old(s.files) <= s.files && old(os.uses) <= os.uses
    ensures |s.files| <= |old(s.files)| + 1
    ensures ok <==> disk(path).Inside? && Matches(old(s.files), disk(path).file, bytes, sha)
    ensures ok ==> Joined(old(s.files), s.files, disk(path).file) && PathGuarded(s.files, path, os.uses, disk)
  {
    hide Loop, PathGuarded, FirstMatch, Describes;
    var found := disk(path);
    if found.NotOpened? {
      return false;
    }
    if found.Outside? {
      OpenAndClose(os, s, disk, path, base);
      return false;
    }
    var j := FindCached(s.files, found.file.identity);
    if j < |s.files| {
      ok := FromCache(os, s, disk, path, j, bytes, sha, base);
    } else if |s.files| >= MAX_PAYLOAD_FILES || found.file.sha.None? {
      OpenAndClose(os, s, disk, path, base);
      ok := false;
    } else {
      Remember(os, s, disk, path, base);
      ok := found.file.bytes == bytes && found.file.sha.value == sha;
    }
  }

  /** A file opened and closed again. */
  method OpenAndClose(os: Os, s: Session, disk: Disk, path: string, ghost base: multiset<nat>)
    requires Loop(os, s, disk, base)
    modifies os`uses, os`open
    ensures Loop(os, s, disk, base) && old(os.uses) <= os.uses
  {
    hide Loop, CacheOk, Session.Guards, Session.Others, Os.Valid;
    LoopParts(os, s, disk, base);
    ghost var before, open := os.uses, os.open;
    var handle := os.Acquire(PayloadFile(path));
    Emptied(open, multiset{handle});
    os.Release(handle);
    CacheStays(s.files, before, os.uses, disk);
    LoopAgain(os, s, disk, base);
  }

  /** The cached hash of a file with the same identity is used; the new handle is closed. */
  method FromCache(os: Os, s: Session, disk: Disk, path: string, j: nat, bytes: nat, sha: string,
                   ghost base: multiset<nat>) returns (ok: bool)
    requires Loop(os, s, disk, base) && disk(path).Inside? && j < |s.files|
    requires SameFile(s.files[j].identity, disk(path).file.identity)
    modifies os`uses, os`open
    ensures Loop(os, s, disk, base) && old(os.uses) <= os.uses
    ensures PathGuarded(s.files, path, os.uses, disk)
    ensures ok <==> disk(path).file.bytes == bytes && s.files[j].bytes == bytes && s.files[j].sha == sha
  {
    hide Loop, CacheOk, IdentitiesSound, PathGuarded, SameFile, Session.Guards, Session.Others, Os.Valid;
    OpenAndClose(os, s, disk, path, base);
    LoopParts(os, s, disk, base);
    CacheHit(s.files, os.uses, disk, j, path);
    if s.files[j].bytes != disk(path).file.bytes {
      return false;
    }
    ok := disk(path).file.bytes == bytes && s.files[j].sha == sha;
  }

  /** A newly hashed file joins the cache, its handle the launch guards. */
  method Remember(os: Os, s: Session, disk: Disk, path: string, ghost base: multiset<nat>)
    requires Loop(os, s, disk, base) && disk(path).Inside? && disk(path).file.sha.Some?
    modifies os`uses, os`open, s`files
    ensures Loop(os, s, disk, base) && old(os.uses) <= os.uses
    ensures |s.files| == |old(s.files)| + 1 && old(s.files) <= s.files
    ensures Describes(s.files[|old(s.files)|], disk(path).file)
    ensures PathGuarded(s.files, path, os.uses, disk)
  {
    hide FileHandles, OptionalHandle, Os.Valid, CacheOk, Loop, Session.Others;
    LoopParts(os, s, disk, base);
    ghost var before := os.uses;
    var handle := os.Acquire(PayloadFile(path));
    var file := disk(path).file;
    var v := Verified(file.identity, file.bytes, file.sha.value, Some(handle));
    FileHandlesAppend(s.files, v);
    CacheStays(s.files, before, os.uses, disk);
    NewGuard(s.files, v, os.uses, disk, path);
    GiveToFirst(base, FileHandles(s.files), OptionalHandle(s.launcher), multiset(s.directories), s.Others(),
                multiset{handle});
    s.files := s.files + [v];
    LoopAgain(os, s, disk, base);
  }

  lemma NewGuard(files: seq<Verified>, v: Verified, uses: seq<Resource>, disk: Disk, path: string)
    requires CacheOk(files, uses, disk) && v.handle.Some? && OpenedFor(v.handle.value, PayloadFile(path), uses)
    requires disk(path).Inside? && Describes(v, disk(path).file)
    ensures CacheOk(files + [v], uses, disk) && PathGuarded(files + [v], path, uses, disk)
  {
    var more := files + [v];
    assert more[|files|] == v;
    assert StandsFor(v, uses, disk) && Guards(v.handle.value, path, uses, disk);
  }

  /** Where the entry file was found: `entry_identity`, `entry_bytes` and `entry_sha`. */
  datatype EntryFile = EntryFile(identity: Identity, bytes: nat, sha: string)

  /** What the loop remembers of the names it looks for. */
  datatype Seen = Seen(entry: Option<EntryFile>, mcp: bool, hook: bool, manager: bool)

  ghost predicate SeenSoFar(seen: Seen, manifest: seq<Record>, n: nat, entry: Entry)
    requires n <= |manifest|
  {
    && (seen.entry.Some? <==> Lists(manifest, n, entry.relative)) && (seen.mcp <==> Lists(manifest, n, MCP_FILE))
    && (seen.hook <==> Lists(manifest, n, HOOK_FILE)) && (seen.manager <==> Lists(manifest, n, MANAGER_FILE))
  }

  /** The hash stated for this path; accepted records name no path twice. */
  function StatedSha(manifest: seq<Record>, n: nat, path: string): Option<string>
    requires n <= |manifest|
  {
    if n == 0 then None
    else if manifest[n - 1].Record? && manifest[n - 1].path == Some(path) then manifest[n - 1].sha
    else StatedSha(manifest, n - 1, path)
  }

  /** The entry file is the one on disk, with the hash stated for it. */
  ghost predicate EntryFound(found: EntryFile, manifest: seq<Record>, n: nat, disk: Disk, path: string)
    requires n <= |manifest|
  {
    && disk(path).Inside? && found.identity == disk(path).file.identity && found.bytes == disk(path).file.bytes
    && StatedSha(manifest, n, path) == Some(found.sha)
  }

  lemma ListsStep(manifest: seq<Record>, n: nat, path: string)
    requires n < |manifest| && manifest[n].Record? && manifest[n].path.Some?
    ensures Lists(manifest, n + 1, path) <==> Lists(manifest, n, path) || manifest[n].path == Some(path)
  {}

  lemma SameAsItself(a: string)
    ensures SameIgnoringCase(a, a)
  {}

  /** If an earlier record already named the entry, this path is not new. */
  lemma EntryIsNew(manifest: seq<Record>, i: nat, path: string)
    requires i <= |manifest|
    ensures Lists(manifest, i, path) ==>
              exists k :: 0 <= k < i && manifest[k].Record? && manifest[k].path.Some?
                          && SameIgnoringCase(manifest[k].path.value, path)
  {
    SameAsItself(path);
  }

  lemma NothingListed(manifest: seq<Record>, entry: Entry)
    ensures SeenSoFar(Seen(None, false, false, false), manifest, 0, entry)
  {}

  lemma StartLoop(os: Os, s: Session, disk: Disk, base: multiset<nat>)
    requires s.Accounts(os, base) && s.files == []
    ensures Loop(os, s, disk, base)
  {
    hide Os.Valid, Session.Guards, Session.Others;
  }

  /** The file is opened before the check for earlier uses of its path, as the code orders it. */
  method OpenAndVerify(os: Os, s: Session, disk: Disk, path: string, isNew: bool, bytes: nat, sha: string,
                       ghost base: multiset<nat>) returns (ok: bool)
    requires Loop(os, s, disk, base) && |s.files| < MAX_PAYLOAD_FILES
    modifies os`uses, os`open, s`files
    ensures Loop(os, s, disk, base) && old(s.files) <= s.files && old(os.uses) <= os.uses
    ensures |s.files| <= |old(s.files)| + 1
    ensures ok <==> isNew && disk(path).Inside? && Matches(old(s.files), disk(path).file, bytes, sha)
    ensures ok ==> Joined(old(s.files), s.files, disk(path).file) && PathGuarded(s.files, path, os.uses, disk)
  {
    hide Loop, PathGuarded, Matches, Joined;
    if !isNew {
      if !disk(path).NotOpened? {
        OpenAndClose(os, s, disk, path, base);
      }
      return false;
    }
    ok := VerifyFile(os, s, disk, path, bytes, sha, base);
  }

  /** One turn of the record loop. */
  method CheckRecord(os: Os, s: Session, manifest: seq<Record>, receipt: seq<Record>, disk: Disk, entry: Entry,
                     i: nat, seen0: Seen, ghost base: multiset<nat>) returns (ok: bool, seen: Seen)
    requires i < |manifest| == |receipt| && |s.files| < MAX_PAYLOAD_FILES
    requires Loop(os, s, disk, base) && SeenSoFar(seen0, manifest, i, entry)
    requires CacheExact(s.files, manifest, i, disk)
    requires seen0.entry.Some? ==> EntryFound(seen0.entry.value, manifest, i, disk, entry.relative)
    modifies os`uses, os`open, s`files
    ensures Loop(os, s, disk, base) && old(s.files) <= s.files && old(os.uses) <= os.uses
    ensures |s.files| <= |old(s.files)| + 1
    ensures ok <==> RecordOk(manifest, receipt, disk, entry, i, OncePerFile)
    ensures ok ==> SeenSoFar(seen, manifest, i + 1, entry) && CacheExact(s.files, manifest, i + 1, disk)
    ensures ok && seen.entry.Some? ==> EntryFound(seen.entry.value, manifest, i + 1, disk, entry.relative)
    ensures ok ==> RecordGuarded(s.files, manifest[i], os.uses, disk)
  {
    hide SameIgnoringCase, ValidSha, Loop, PathGuarded, Lists, CacheExact, Matches, Joined, HashedFile;
    seen := seen0;
    var record, receiptRecord := manifest[i], receipt[i];
    if !RecordsEqual(record, receiptRecord) || !ValidSha(record.sha.value) {
      return false, seen;
    }
    var relative := record.path.value;
    ListsStep(manifest, i, entry.relative);
    ListsStep(manifest, i, MCP_FILE);
    ListsStep(manifest, i, HOOK_FILE);
    ListsStep(manifest, i, MANAGER_FILE);
    var isNew := PathIsNew(manifest, i, relative);
    ghost var files := s.files;
    if disk(relative).Inside? {
      MatchesExact(files, manifest, i, disk, record.bytes.value, record.sha.value);
    }
    var fileOk := OpenAndVerify(os, s, disk, relative, isNew, record.bytes.value, record.sha.value, base);
    if !fileOk {
      return false, seen;
    }
    JoinedExact(files, s.files, manifest, i, disk);
    if relative == MCP_FILE {
      seen := seen.(mcp := true);
    } else if relative == HOOK_FILE {
      seen := seen.(hook := true);
    } else if relative == MANAGER_FILE {
      seen := seen.(manager := true);
    }
    if relative == entry.relative {
      EntryIsNew(manifest, i, relative);
      if seen.entry.Some? || !entry.nameOk {
        return false, seen;
      }
      var file := disk(relative).file;
      seen := seen.(entry := Some(EntryFile(file.identity, file.bytes, record.sha.value)));
    }
    return true, seen;
  }

  /** Every record in turn, then the names that must have been there. For every disk the books balance,
      an accepted record's file is guarded, and acceptance is exactly that of hashing once per file; if
      identities are sound, or no two listed files have one volume and file number, it is that of hashing
      each time. */
  method VerifyRecords(os: Os, s: Session, manifest: seq<Record>, receipt: seq<Record>, disk: Disk, entry: Entry,
                       ghost base: multiset<nat>) returns (ok: bool, entryFile: Option<EntryFile>)
    requires |manifest| == |receipt| <= MAX_PAYLOAD_FILES && s.Accounts(os, base) && s.files == []
    modifies os`uses, os`open, s`files
    ensures s.Accounts(os, base) && |s.files| <= |manifest| && old(os.uses) <= os.uses
    ensures ok <==> Accepts(manifest, receipt, disk, entry, OncePerFile)
    ensures IdentitiesSound(disk) || DifferentFiles(manifest, disk) ==>
              (ok <==> Accepts(manifest, receipt, disk, entry, EachTime))
    ensures ok ==> entryFile.Some? && EntryFound(entryFile.value, manifest, |manifest|, disk, entry.relative)
    ensures ok ==> AllGuarded(s.files, manifest, |manifest|, os.uses, disk)
  {
    hide RecordOk, IdentitiesSound, RecordGuarded, Lists, Loop, EntryFound, CacheExact;
    hide DifferentFiles;
    SoundAccepts(manifest, receipt, disk, entry);
    if DifferentFiles(manifest, disk) { DifferentAccepts(manifest, receipt, disk, entry); }
    var seen := Seen(None, false, false, false);
    NothingListed(manifest, entry);
    NothingCached(manifest, disk);
    StartLoop(os, s, disk, base);
    for i := 0 to |manifest|
      invariant Loop(os, s, disk, base) && |s.files| <= i && old(os.uses) <= os.uses
      invariant SeenSoFar(seen, manifest, i, entry) && CacheExact(s.files, manifest, i, disk)
      invariant seen.entry.Some? ==> EntryFound(seen.entry.value, manifest, i, disk, entry.relative)
      invariant forall k :: 0 <= k < i ==> RecordOk(manifest, receipt, disk, entry, k, OncePerFile)
      invariant AllGuarded(s.files, manifest, i, os.uses, disk)
    {
      ghost var files, uses := s.files, os.uses;
      ok, seen := CheckRecord(os, s, manifest, receipt, disk, entry, i, seen, base);
      if !ok {
        LoopAccounts(os, s, disk, base);
        return false, None;
      }
      AllStayGuarded(files, s.files, manifest, i, uses, os.uses, disk);
    }
    LoopAccounts(os, s, disk, base);
    ok := seen.entry.Some? && seen.mcp && seen.hook && seen.manager;
    entryFile := seen.entry;
  }

  lemma NothingCached(manifest: seq<Record>, disk: Disk)
    ensures CacheExact([], manifest, 0, disk)
  {}

  /** If identities are sound, hashing once per file accepts what hashing each time does. */
  lemma SoundAccepts(manifest: seq<Record>, receipt: seq<Record>, disk: Disk, entry: Entry)
    requires |manifest| == |receipt|
    ensures IdentitiesSound(disk) ==>
              (Accepts(manifest, receipt, disk, entry, OncePerFile)
               <==> Accepts(manifest, receipt, disk, entry, EachTime))
  {
    hide IdentitiesSound, Accepts, RepeatsAlike;
    if IdentitiesSound(disk) {
      SoundAreAlike(manifest, disk);
      if Accepts(manifest, receipt, disk, entry, OncePerFile) {
        CacheHarmless(manifest, receipt, disk, entry, OncePerFile, EachTime);
      } else if Accepts(manifest, receipt, disk, entry, EachTime) {
        CacheHarmless(manifest, receipt, disk, entry, EachTime, OncePerFile);
      }
    }
  }

  lemma LoopAccounts(os: Os, s: Session, disk: Disk, base: multiset<nat>)
    requires Loop(os, s, disk, base)
    ensures s.Accounts(os, base)
  {
    hide Session.Accounts;
  }

  // ---- The launcher around the loop ----

  /** What the system and the documents answer, step by step. */
  datatype Answers = Answers(
    heapOk: bool,
    installOpens: bool, binOpens: bool, binInside: bool,
    pointerOpens: bool, pointerOk: bool, pathsOk: bool, payloadOpens: bool, payloadInside: bool,
    shaOk: bool, manifestOpens: bool, manifestParses: bool, receiptOpens: bool, receiptParses: bool,
    documentHashesOk: bool, headersOk: bool,
    manifest: seq<Record>, receipt: seq<Record>, disk: Disk, entry: Entry,
    launcher: Opened,
    verifyOnly: bool, sealWritten: bool, environmentOk: bool, isHook: bool, timeLeft: bool,
    commandFits: bool, jobOk: bool, limitsOk: bool, processOk: bool, assignedOk: bool, inTime: bool)

  datatype Outcome = IntegrityFailure | VerifyPass | HookTimeout | PayloadRan

  /** Files the system calls the same are the same, the launcher's own file included. */
  ghost predicate AllSound(a: Answers) {
    && IdentitiesSound(a.disk)
    && forall path :: TakenForOne(a.launcher, a.disk(path)) ==> SameContent(a.launcher.file, a.disk(path).file)
  }

  /** The launcher has the entry file's size and the hash stated for it; hashing once per file, being
      called the same as the entry file stands for the hash. */
  ghost predicate LauncherMatches(a: Answers, how: Hashing)
    requires a.disk(a.entry.relative).Inside?
  {
    var entry := a.disk(a.entry.relative).file;
    var stated := StatedSha(a.manifest, |a.manifest|, a.entry.relative);
    && a.launcher.Inside? && a.launcher.file.bytes == entry.bytes && stated.Some?
    && (a.launcher.file.sha == stated
        || (how == OncePerFile && a.launcher.file.identity.cacheable && entry.identity.cacheable
            && a.launcher.file.identity.volume == entry.identity.volume
            && a.launcher.file.identity.fileId == entry.identity.fileId))
  }

  ghost predicate Passes(a: Answers, how: Hashing) {
    && a.heapOk && a.installOpens && a.binOpens && a.binInside && a.pointerOpens && a.pointerOk && a.pathsOk
    && a.payloadOpens && a.payloadInside && a.shaOk && a.manifestOpens && a.manifestParses
    && a.receiptOpens && a.receiptParses && a.documentHashesOk && a.headersOk
    && 0 < |a.manifest| == |a.receipt| <= 64
    && Accepts(a.manifest, a.receipt, a.disk, a.entry, how)
    && a.disk(a.entry.relative).Inside? && LauncherMatches(a, how)
  }

  /** The hash stated for an accepted path is that of the file. */
  lemma {:induction false} StatedIsHash(manifest: seq<Record>, receipt: seq<Record>, disk: Disk, entry: Entry,
                                        n: nat, path: string)
    requires n <= |manifest| == |receipt| && Accepts(manifest, receipt, disk, entry, EachTime)
    requires Lists(manifest, n, path)
    ensures disk(path).Inside? && StatedSha(manifest, n, path) == disk(path).file.sha && disk(path).file.sha.Some?
  {
    hide SameIgnoringCase, ValidSha;
    assert RecordOk(manifest, receipt, disk, entry, n - 1, EachTime);
    if manifest[n - 1].path != Some(path) {
      StatedIsHash(manifest, receipt, disk, entry, n - 1, path);
    }
  }

  /** If all identities are sound, what passes is what passes with every file hashed. */
  lemma SoundPasses(a: Answers)
    ensures AllSound(a) ==> (Passes(a, OncePerFile) <==> Passes(a, EachTime))
  {
    hide Accepts, IdentitiesSound, StatedSha;
    if AllSound(a) && |a.manifest| == |a.receipt| {
      SoundAccepts(a.manifest, a.receipt, a.disk, a.entry);
      if Accepts(a.manifest, a.receipt, a.disk, a.entry, EachTime) {
        EntryListed(a.manifest, a.receipt, a.disk, a.entry, EachTime);
        StatedIsHash(a.manifest, a.receipt, a.disk, a.entry, |a.manifest|, a.entry.relative);
        assert TakenForOne(a.launcher, a.disk(a.entry.relative)) ==>
                 SameContent(a.launcher.file, a.disk(a.entry.relative).file);
      }
    }
  }

  /** No two listed files, and not the launcher and the entry, have one volume and file number. */
  ghost predicate AllDifferent(a: Answers) {
    && DifferentFiles(a.manifest, a.disk)
    && (a.launcher.Inside? && a.disk(a.entry.relative).Inside? ==>
          var x, y := a.launcher.file.identity, a.disk(a.entry.relative).file.identity;
          x.cacheable && y.cacheable ==> x.volume != y.volume || x.fileId != y.fileId)
  }

  lemma DifferentPasses(a: Answers)
    ensures AllDifferent(a) ==> (Passes(a, OncePerFile) <==> Passes(a, EachTime))
  {
    hide Accepts, DifferentFiles, StatedSha;
    if AllDifferent(a) && |a.manifest| == |a.receipt| {
      DifferentAccepts(a.manifest, a.receipt, a.disk, a.entry);
    }
  }

  lemma EntryListed(manifest: seq<Record>, receipt: seq<Record>, disk: Disk, entry: Entry, how: Hashing)
    requires |manifest| == |receipt| && Accepts(manifest, receipt, disk, entry, how)
    ensures Lists(manifest, |manifest|, entry.relative)
  {
    hide Lists;
  }

  function LaunchOutcome(a: Answers): Outcome {
    if !a.commandFits || !a.jobOk || !a.limitsOk || !a.processOk || !a.assignedOk then IntegrityFailure
    else if a.inTime then PayloadRan else HookTimeout
  }

  /** How the launcher ends. */
  ghost function OutcomeOf(a: Answers, how: Hashing): Outcome {
    if !Passes(a, how) then IntegrityFailure
    else if a.verifyOnly then if a.sealWritten then VerifyPass else IntegrityFailure
    else if !a.environmentOk then IntegrityFailure
    else if a.isHook && !a.timeLeft then HookTimeout
    else LaunchOutcome(a)
  }

  /** Whether a launcher that has passed verification gets as far as creating the process. */
  predicate Launches(a: Answers) {
    && !a.verifyOnly && a.environmentOk && (a.isHook ==> a.timeLeft)
    && a.commandFits && a.jobOk && a.limitsOk && a.processOk
  }

  /** Among the open handles are one for each of the three directories, one for the launcher's file, and
      for every record one for its path or for a file the system calls the same. */
  ghost predicate HoldsEverything(a: Answers, open: multiset<nat>, uses: seq<Resource>) {
    && IsOpen(InstallDirectory, open, uses) && IsOpen(BinDirectory, open, uses)
    && IsOpen(PayloadDirectory, open, uses) && IsOpen(LauncherFile, open, uses)
    && forall i :: 0 <= i < |a.manifest| ==> RecordHeld(a.manifest[i], open, uses, a.disk)
  }

  ghost predicate IsOpen(what: Resource, open: multiset<nat>, uses: seq<Resource>) {
    exists h :: h in open && OpenedFor(h, what, uses)
  }

  ghost predicate RecordHeld(r: Record, open: multiset<nat>, uses: seq<Resource>, disk: Disk) {
    r.Record? && r.path.Some? && exists h :: h in open && Guards(h, r.path.value, uses, disk)
  }

  // ---- Opening ----

  /** Opens a directory guard, or closes what it opened. */
  method OpenDirectory(os: Os, s: Session, what: Resource, opens: bool, inside: bool, ghost base: multiset<nat>)
      returns (ok: bool)
    requires s.Accounts(os, base)
    modifies os`uses, os`open, s`directories
    ensures s.Accounts(os, base) && (ok <==> opens && inside) && old(os.uses) <= os.uses
    ensures !ok ==> s.directories == old(s.directories)
    ensures ok ==> s.directories == old(s.directories) + [|old(os.uses)|]
    ensures ok ==> OpenedFor(|old(os.uses)|, what, os.uses)
  {
    hide Session.Accounts;
    if !opens {
      return false;
    }
    if !inside {
      PassBy(os, s, what, base);
      return false;
    }
    HoldDirectory(os, s, what, base);
    return true;
  }

  /** Opened, and closed again. */
  method PassBy(os: Os, s: Session, what: Resource, ghost base: multiset<nat>)
    requires s.Accounts(os, base)
    modifies os`uses, os`open
    ensures s.Accounts(os, base) && os.uses == old(os.uses) + [what]
  {
    hide Os.Valid, Session.Guards, Session.Others;
    ghost var open := os.open;
    var h := os.Acquire(what);
    Emptied(open, multiset{h});
    os.Release(h);
  }

  method HoldDirectory(os: Os, s: Session, what: Resource, ghost base: multiset<nat>)
    requires s.Accounts(os, base)
    modifies os`uses, os`open, s`directories
    ensures s.Accounts(os, base) && os.uses == old(os.uses) + [what]
    ensures s.directories == old(s.directories) + [|old(os.uses)|]
  {
    hide Os.Valid, FileHandles, OptionalHandle, Session.Others;
    ghost var files, launcher, dirs := FileHandles(s.files), OptionalHandle(s.launcher), multiset(s.directories);
    var h := os.Acquire(what);
    ThreeParts(files, launcher, dirs);
    ThreeParts(files, launcher, dirs + multiset{h});
    GiveToFirst(base, dirs, files, launcher, s.Others(), multiset{h});
    s.directories := s.directories + [h];
  }

  lemma Emptied(rest: multiset<nat>, gone: multiset<nat>)
    ensures gone <= rest + gone && rest + gone - gone == rest
  {}

  /** The guards are three parts; the first gets more. */
  lemma GiveToFirst(base: multiset<nat>, a: multiset<nat>, b: multiset<nat>, c: multiset<nat>, others: multiset<nat>,
                    more: multiset<nat>)
    ensures base + (a + b + c) + others + more == base + (a + more + b + c) + others
  {}

  /** The guards are three parts; `gone` is given up by the first. */
  lemma TakeFromFirst(base: multiset<nat>, a: multiset<nat>, b: multiset<nat>, c: multiset<nat>,
                      others: multiset<nat>, left: multiset<nat>, gone: multiset<nat>)
    requires a == left + gone
    ensures gone <= base + (a + b + c) + others
    ensures base + (a + b + c) + others - gone == base + (left + b + c) + others
  {}

  /** The same sum with another part in front. */
  lemma ThreeParts(a: multiset<nat>, b: multiset<nat>, c: multiset<nat>)
    ensures a + b + c == b + a + c == c + a + b
  {}

  /** Reads a JSON document: its file is closed again whatever happens, the document is kept. */
  method ReadJson(os: Os, opens: bool, parses: bool) returns (doc: Option<nat>)
    requires os.Valid()
    modifies os`uses, os`open
    ensures os.Valid() && os.open == old(os.open) + OptionalHandle(doc) && (doc.Some? <==> opens && parses)
    ensures old(os.uses) <= os.uses
  {
    if !opens {
      return None;
    }
    var file := os.Acquire(JsonFile);
    os.Release(file);
    if !parses {
      return None;
    }
    var d := os.Acquire(Document);
    return Some(d);
  }

  method FreeDoc(os: Os, doc: Option<nat>)
    requires os.Valid() && OptionalHandle(doc) <= os.open
    modifies os`open
    ensures os.Valid() && os.open == old(os.open) - OptionalHandle(doc)
  {
    if doc.Some? {
      assert doc.value in OptionalHandle(doc);
      os.Release(doc.value);
    }
  }

  /** The version pointer: read, copied, and freed again. */
  method ReadPointer(os: Os, s: Session, opens: bool, ghost base: multiset<nat>) returns (ok: bool)
    requires s.Accounts(os, base)
    modifies os`uses, os`open
    ensures s.Accounts(os, base) && (ok <==> opens) && old(os.uses) <= os.uses
  {
    hide Os.Valid, Session.Guards, Session.Others, OptionalHandle;
    ghost var before := os.open;
    var pointerDoc := ReadJson(os, opens, true);
    Emptied(before, OptionalHandle(pointerDoc));
    FreeDoc(os, pointerDoc);
    ok := pointerDoc.Some?;
  }

  /** Directories and the version pointer. */
  method OpenStage(os: Os, s: Session, a: Answers, ghost base: multiset<nat>) returns (ok: bool)
    requires s.Accounts(os, base) && s.directories == []
    modifies os`uses, os`open, s`directories
    ensures s.Accounts(os, base) && old(os.uses) <= os.uses
    ensures ok <==> a.installOpens && a.binOpens && a.binInside && a.pointerOpens && a.pointerOk && a.pathsOk
                    && a.payloadOpens && a.payloadInside
    ensures ok ==> DirectoriesHeld(s.directories, os.uses)
  {
    hide Os.Valid, Session.Guards, Session.Others, Session.Accounts;
    ok := OpenDirectory(os, s, InstallDirectory, a.installOpens, true, base);
    if !ok {
      return false;
    }
    ok := OpenDirectory(os, s, BinDirectory, a.binOpens, a.binInside, base);
    if !ok {
      return false;
    }
    ok := ReadPointer(os, s, a.pointerOpens, base);
    if !ok || !a.pointerOk || !a.pathsOk {
      return false;
    }
    ok := OpenDirectory(os, s, PayloadDirectory, a.payloadOpens, a.payloadInside, base);
  }

  /** The hash context and the two documents. */
  method DocumentStage(os: Os, s: Session, a: Answers, ghost base: multiset<nat>) returns (ok: bool)
    requires s.Accounts(os, base) && s.sha == None && s.manifestDoc == None && s.receiptDoc == None
    modifies os`uses, os`open, s`sha, s`manifestDoc, s`receiptDoc
    ensures s.Accounts(os, base) && old(os.uses) <= os.uses
    ensures ok <==> a.shaOk && a.manifestOpens && a.manifestParses && a.receiptOpens && a.receiptParses
                    && a.documentHashesOk && a.headersOk && 0 < |a.manifest| == |a.receipt| <= MAX_PAYLOAD_FILES
  {
    hide Session.Accounts;
    if !a.shaOk {
      return false;
    }
    TakeSha(os, s, base);
    TakeManifest(os, s, a.manifestOpens, a.manifestParses, base);
    TakeReceipt(os, s, a.receiptOpens, a.receiptParses, base);
    if s.manifestDoc.None? || s.receiptDoc.None? || !a.documentHashesOk || !a.headersOk {
      return false;
    }
    return |a.manifest| == |a.receipt| && |a.manifest| > 0 && |a.manifest| <= MAX_PAYLOAD_FILES;
  }

  lemma FourParts(a: multiset<nat>, b: multiset<nat>, c: multiset<nat>, d: multiset<nat>, base: multiset<nat>)
    ensures base + (a + b + c + d) == base + (b + c + d) + a
    ensures base + (a + b + c + d) == base + (a + c + d) + b
    ensures base + (a + b + c + d) == base + (a + b + d) + c
    ensures base + (a + b + c + d) == base + (a + b + c) + d
  {}

  method TakeSha(os: Os, s: Session, ghost base: multiset<nat>)
    requires s.Accounts(os, base) && s.sha == None
    modifies os`uses, os`open, s`sha
    ensures s.Accounts(os, base) && old(os.uses) <= os.uses
  {
    hide Os.Valid, Session.Guards, OptionalHandle;
    NoHandle();
    ghost var a, b, d := OptionalHandle(s.manifestDoc), OptionalHandle(s.receiptDoc), OptionalHandle(s.finalPaths);
    var h := os.Acquire(HashContext);
    s.sha := Some(h);
    ThisHandle(h);
    FourParts(a, b, multiset{h}, d, base + s.Guards());
    FourParts(a, b, multiset{}, d, base + s.Guards());
  }

  method TakeManifest(os: Os, s: Session, opens: bool, parses: bool, ghost base: multiset<nat>)
    requires s.Accounts(os, base) && s.manifestDoc == None
    modifies os`uses, os`open, s`manifestDoc
    ensures s.Accounts(os, base) && (s.manifestDoc.Some? <==> opens && parses) && old(os.uses) <= os.uses
  {
    hide Os.Valid, Session.Guards, OptionalHandle;
    NoHandle();
    ghost var b, c, d := OptionalHandle(s.receiptDoc), OptionalHandle(s.sha), OptionalHandle(s.finalPaths);
    s.manifestDoc := ReadJson(os, opens, parses);
    FourParts(OptionalHandle(s.manifestDoc), b, c, d, base + s.Guards());
    FourParts(multiset{}, b, c, d, base + s.Guards());
  }

  method TakeReceipt(os: Os, s: Session, opens: bool, parses: bool, ghost base: multiset<nat>)
    requires s.Accounts(os, base) && s.receiptDoc == None
    modifies os`uses, os`open, s`receiptDoc
    ensures s.Accounts(os, base) && (s.receiptDoc.Some? <==> opens && parses) && old(os.uses) <= os.uses
  {
    hide Os.Valid, Session.Guards, OptionalHandle;
    NoHandle();
    ghost var a, c, d := OptionalHandle(s.manifestDoc), OptionalHandle(s.sha), OptionalHandle(s.finalPaths);
    s.receiptDoc := ReadJson(os, opens, parses);
    FourParts(a, OptionalHandle(s.receiptDoc), c, d, base + s.Guards());
    FourParts(a, multiset{}, c, d, base + s.Guards());
  }

  /** The launcher's own file against the verified entry: not hashed again if it is the same file. */
  method LauncherStage(os: Os, s: Session, a: Answers, entry: EntryFile, ghost base: multiset<nat>) returns (ok: bool)
    requires s.Accounts(os, base) && s.launcher == None
    requires EntryFound(entry, a.manifest, |a.manifest|, a.disk, a.entry.relative)
    modifies os`uses, os`open, s`launcher
    ensures s.Accounts(os, base) && old(os.uses) <= os.uses && (ok ==> LauncherHeld(s.launcher, os.uses))
    ensures ok <==> LauncherMatches(a, OncePerFile)
  {
    if a.launcher.NotOpened? {
      return false;
    }
    HoldLauncher(os, s, base);
    if a.launcher.Outside? || a.launcher.file.bytes != entry.bytes {
      return false;
    }
    if SameFile(a.launcher.file.identity, entry.identity) {
      return true;
    }
    return a.launcher.file.sha == Some(entry.sha);
  }

  method HoldLauncher(os: Os, s: Session, ghost base: multiset<nat>)
    requires s.Accounts(os, base) && s.launcher == None
    modifies os`uses, os`open, s`launcher
    ensures s.Accounts(os, base) && old(os.uses) <= os.uses && LauncherHeld(s.launcher, os.uses)
  {
    hide Os.Valid, FileHandles, Session.Others, OptionalHandle;
    NoHandle();
    ghost var files, dirs := FileHandles(s.files), multiset(s.directories);
    var h := os.Acquire(LauncherFile);
    ThisHandle(h);
    ThreeParts(files, multiset{}, dirs);
    ThreeParts(files, multiset{h}, dirs);
    GiveToFirst(base, multiset{}, files, dirs, s.Others(), multiset{h});
    s.launcher := Some(h);
  }

  /** All that can end at the cleanup label before anything is launched. */
  method Attempt(os: Os, s: Session, a: Answers, ghost base: multiset<nat>) returns (ok: bool)
    requires s.Accounts(os, base) && a.heapOk
    requires s.files == [] && s.launcher == None && s.directories == []
    requires s.sha == None && s.manifestDoc == None && s.receiptDoc == None
    modifies os`uses, os`open, s
    ensures s.Accounts(os, base) && old(os.uses) <= os.uses
    ensures ok <==> Passes(a, OncePerFile)
    ensures ok ==> Held(s.files, s.launcher, s.directories, os.uses, a)
  {
    hide Session.Accounts, IdentitiesSound, LauncherMatches, Accepts, AllGuarded, DirectoriesHeld;
    hide LauncherHeld, EntryFound;
    ok := OpenStage(os, s, a, base);
    if !ok {
      return false;
    }
    ghost var uses := os.uses;
    ok := DocumentStage(os, s, a, base);
    if !ok {
      return false;
    }
    var entryFile;
    ok, entryFile := VerifyRecords(os, s, a.manifest, a.receipt, a.disk, a.entry, base);
    if !ok {
      return false;
    }
    ghost var before := os.uses;
    EntryIsInside(entryFile.value, a.manifest, |a.manifest|, a.disk, a.entry.relative);
    ok := LauncherStage(os, s, a, entryFile.value, base);
    DirectoriesStay(s.directories, uses, os.uses);
    AllStayGuarded(s.files, s.files, a.manifest, |a.manifest|, before, os.uses, a.disk);
  }

  lemma EntryIsInside(found: EntryFile, manifest: seq<Record>, n: nat, disk: Disk, path: string)
    requires n <= |manifest| && EntryFound(found, manifest, n, disk, path)
    ensures disk(path).Inside?
  {}

  lemma DirectoriesStay(directories: seq<nat>, uses: seq<Resource>, more: seq<Resource>)
    requires DirectoriesHeld(directories, uses) && uses <= more
    ensures DirectoriesHeld(directories, more)
  {}

  /** All the guards that a launch needs are held. */
  ghost predicate Held(files: seq<Verified>, launcher: Option<nat>, directories: seq<nat>, uses: seq<Resource>,
                       a: Answers)
  {
    && AllGuarded(files, a.manifest, |a.manifest|, uses, a.disk) && LauncherHeld(launcher, uses)
    && DirectoriesHeld(directories, uses)
  }

  /** If the guards are open, everything needed is. */
  lemma HeldIsOpen(files: seq<Verified>, launcher: Option<nat>, directories: seq<nat>, uses: seq<Resource>,
                   a: Answers, open: multiset<nat>)
    requires Held(files, launcher, directories, uses, a)
    requires FileHandles(files) <= open && OptionalHandle(launcher) <= open && multiset(directories) <= open
    ensures HoldsEverything(a, open, uses)
  {
    hide FileHandles, Guards, OpenedFor;
    assert launcher.value in OptionalHandle(launcher);
    assert directories[0] in multiset(directories) && directories[1] in multiset(directories)
           && directories[2] in multiset(directories);
    forall i | 0 <= i < |a.manifest| ensures RecordHeld(a.manifest[i], open, uses, a.disk) {
      assert RecordGuarded(files, a.manifest[i], uses, a.disk);
      var j :| 0 <= j < |files| && files[j].handle.Some?
               && Guards(files[j].handle.value, a.manifest[i].path.value, uses, a.disk);
      FileHandleHeld(files, j);
    }
  }

  lemma StillHolds(a: Answers, open: multiset<nat>, uses: seq<Resource>, more: seq<Resource>)
    requires HoldsEverything(a, open, uses) && uses <= more
    ensures HoldsEverything(a, open, more)
  {
    hide IsOpen, RecordHeld;
    StillOpen(InstallDirectory, open, uses, more);
    StillOpen(BinDirectory, open, uses, more);
    StillOpen(PayloadDirectory, open, uses, more);
    StillOpen(LauncherFile, open, uses, more);
    forall i | 0 <= i < |a.manifest| ensures RecordHeld(a.manifest[i], open, more, a.disk) {
      StillHeld(a.manifest[i], open, uses, more, a.disk);
    }
  }

  lemma StillOpen(what: Resource, open: multiset<nat>, uses: seq<Resource>, more: seq<Resource>)
    requires IsOpen(what, open, uses) && uses <= more
    ensures IsOpen(what, open, more)
  {
    var h :| h in open && OpenedFor(h, what, uses);
    assert OpenedFor(h, what, more);
  }

  lemma StillHeld(r: Record, open: multiset<nat>, uses: seq<Resource>, more: seq<Resource>, disk: Disk)
    requires RecordHeld(r, open, uses, disk) && uses <= more
    ensures RecordHeld(r, open, more, disk)
  {
    var h :| h in open && Guards(h, r.path.value, uses, disk);
    assert Guards(h, r.path.value, more, disk);
  }

  // ---- Closing ----

  /** `stage14_release_launch_guards`. */
  method ReleaseGuards(os: Os, s: Session, ghost base: multiset<nat>)
    requires s.Accounts(os, base)
    modifies os`open, s`files, s`launcher, s`directories
    ensures s.Accounts(os, base) && s.Guards() == multiset{}
  {
    hide Os.Valid, Session.Others, Session.Accounts;
    CloseFiles(os, s, base);
    CloseLauncher(os, s, base);
    CloseDirectories(os, s, base);
  }

  method CloseLauncher(os: Os, s: Session, ghost base: multiset<nat>)
    requires s.Accounts(os, base)
    modifies os`open, s`launcher
    ensures s.Accounts(os, base) && s.launcher == None
  {
    hide Os.Valid, FileHandles, Session.Others, OptionalHandle;
    NoHandle();
    ghost var files, held, dirs := FileHandles(s.files), OptionalHandle(s.launcher), multiset(s.directories);
    ThreeParts(files, held, dirs);
    ThreeParts(files, multiset{}, dirs);
    TakeFromFirst(base, held, files, dirs, s.Others(), multiset{}, held);
    FreeDoc(os, s.launcher);
    s.launcher := None;
  }

  /** `stage14_close_verified_files`. */
  method CloseFiles(os: Os, s: Session, ghost base: multiset<nat>)
    requires s.Accounts(os, base)
    modifies os`open, s`files
    ensures s.Accounts(os, base) && s.files == []
  {
    hide Os.Valid, Session.Others, OptionalHandle;
    for i := 0 to |s.files|
      invariant s.Accounts(os, base) && |s.files| == |old(s.files)|
      invariant forall k :: 0 <= k < i ==> s.files[k].handle == None
    {
      CloseFile(os, s, i, base);
    }
    NoFileHandles(s.files);
    s.files := [];
  }

  method CloseFile(os: Os, s: Session, i: nat, ghost base: multiset<nat>)
    requires s.Accounts(os, base) && i < |s.files|
    modifies os`open, s`files
    ensures s.Accounts(os, base) && s.files == old(s.files)[i := old(s.files)[i].(handle := None)]
  {
    hide Os.Valid, FileHandles, Session.Others, OptionalHandle;
    var h := s.files[i].handle;
    FileHandlesClose(s.files, i);
    TakeFromFirst(base, FileHandles(s.files), OptionalHandle(s.launcher), multiset(s.directories), s.Others(),
                  FileHandles(s.files[i := s.files[i].(handle := None)]), OptionalHandle(h));
    FreeDoc(os, h);
    s.files := s.files[i := s.files[i].(handle := None)];
  }

  lemma {:induction false} NoFileHandles(files: seq<Verified>)
    requires forall k :: 0 <= k < |files| ==> files[k].handle == None
    ensures FileHandles(files) == multiset{}
  {
    if files != [] { NoFileHandles(files[..|files| - 1]); }
  }

  method CloseDirectories(os: Os, s: Session, ghost base: multiset<nat>)
    requires s.Accounts(os, base)
    modifies os`open, s`directories
    ensures s.Accounts(os, base) && s.directories == []
  {
    while s.directories != []
      invariant s.Accounts(os, base)
      decreases |s.directories|
    {
      CloseFirstDirectory(os, s, base);
    }
  }

  method CloseFirstDirectory(os: Os, s: Session, ghost base: multiset<nat>)
    requires s.Accounts(os, base) && s.directories != []
    modifies os`open, s`directories
    ensures s.Accounts(os, base) && s.directories == old(s.directories)[1..]
  {
    hide FileHandles, Session.Others, OptionalHandle;
    var h := s.directories[0];
    assert s.directories == [h] + s.directories[1..];
    ghost var files, held, dirs := FileHandles(s.files), OptionalHandle(s.launcher), multiset(s.directories[1..]);
    assert multiset(s.directories) == dirs + multiset{h};
    ThreeParts(files, held, dirs + multiset{h});
    ThreeParts(files, held, dirs);
    TakeFromFirst(base, dirs + multiset{h}, files, held, s.Others(), dirs, multiset{h});
    assert h in multiset{h};
    os.Release(h);
    s.directories := s.directories[1..];
  }

  method FreeManifest(os: Os, s: Session, ghost base: multiset<nat>)
    requires s.Accounts(os, base)
    modifies os`open, s`manifestDoc
    ensures s.Accounts(os, base) && s.manifestDoc == None
  {
    hide Os.Valid, Session.Guards, OptionalHandle;
    NoHandle();
    ghost var a, b := OptionalHandle(s.manifestDoc), OptionalHandle(s.receiptDoc);
    ghost var c, d := OptionalHandle(s.sha), OptionalHandle(s.finalPaths);
    GiveUpOther(base + s.Guards(), a, b, c, d);
    FreeDoc(os, s.manifestDoc);
    s.manifestDoc := None;
  }

  method FreeReceipt(os: Os, s: Session, ghost base: multiset<nat>)
    requires s.Accounts(os, base)
    modifies os`open, s`receiptDoc
    ensures s.Accounts(os, base) && s.receiptDoc == None
  {
    hide Os.Valid, Session.Guards, OptionalHandle;
    NoHandle();
    ghost var a, b := OptionalHandle(s.manifestDoc), OptionalHandle(s.receiptDoc);
    ghost var c, d := OptionalHandle(s.sha), OptionalHandle(s.finalPaths);
    GiveUpOther(base + s.Guards(), a, b, c, d);
    FreeDoc(os, s.receiptDoc);
    s.receiptDoc := None;
  }

  method FreeSha(os: Os, s: Session, ghost base: multiset<nat>)
    requires s.Accounts(os, base)
    modifies os`open, s`sha
    ensures s.Accounts(os, base) && s.sha == None
  {
    hide Os.Valid, Session.Guards, OptionalHandle;
    NoHandle();
    ghost var a, b := OptionalHandle(s.manifestDoc), OptionalHandle(s.receiptDoc);
    ghost var c, d := OptionalHandle(s.sha), OptionalHandle(s.finalPaths);
    GiveUpOther(base + s.Guards(), a, b, c, d);
    FreeDoc(os, s.sha);
    s.sha := None;
  }

  method FreePaths(os: Os, s: Session, ghost base: multiset<nat>)
    requires s.Accounts(os, base)
    modifies os`open, s`finalPaths
    ensures s.Accounts(os, base) && s.finalPaths == None
  {
    hide Os.Valid, Session.Guards, OptionalHandle;
    NoHandle();
    ghost var a, b := OptionalHandle(s.manifestDoc), OptionalHandle(s.receiptDoc);
    ghost var c, d := OptionalHandle(s.sha), OptionalHandle(s.finalPaths);
    GiveUpOther(base + s.Guards(), a, b, c, d);
    FreeDoc(os, s.finalPaths);
    s.finalPaths := None;
  }

  /** Any of the four parts may be given up. */
  lemma GiveUpOther(base: multiset<nat>, a: multiset<nat>, b: multiset<nat>, c: multiset<nat>, d: multiset<nat>)
    ensures var all := base + (a + b + c + d);
            a <= all && b <= all && c <= all && d <= all
    ensures base + (a + b + c + d) - a == base + (multiset{} + b + c + d)
    ensures base + (a + b + c + d) - b == base + (a + multiset{} + c + d)
    ensures base + (a + b + c + d) - c == base + (a + b + multiset{} + d)
    ensures base + (a + b + c + d) - d == base + (a + b + c + multiset{})
  {}

  /** Frees the documents and the hash context. */
  method FreeDocuments(os: Os, s: Session, ghost base: multiset<nat>)
    requires s.Accounts(os, base)
    modifies os`open, s`manifestDoc, s`receiptDoc, s`sha
    ensures s.Accounts(os, base) && s.manifestDoc == None && s.receiptDoc == None && s.sha == None
  {
    hide Session.Accounts;
    FreeManifest(os, s, base);
    FreeReceipt(os, s, base);
    FreeSha(os, s, base);
  }

  /** The cleanup label, whatever is held when it is reached. */
  method CleanUp(os: Os, s: Session, ghost base: multiset<nat>)
    requires s.Accounts(os, base)
    modifies os`open, s
    ensures os.Valid() && os.open == base
  {
    hide Os.Valid, Session.Guards, Session.Others, Session.Accounts;
    FreeDocuments(os, s, base);
    ReleaseGuards(os, s, base);
    FreePaths(os, s, base);
    AllReleased(os, s, base);
  }

  lemma AllReleased(os: Os, s: Session, base: multiset<nat>)
    requires s.Accounts(os, base) && s.Guards() == multiset{}
    requires s.manifestDoc == None && s.receiptDoc == None && s.sha == None && s.finalPaths == None
    ensures os.Valid() && os.open == base
  {
    hide Os.Valid;
    NothingElse(s);
  }

  lemma NothingElse(s: Session)
    requires s.manifestDoc == None && s.receiptDoc == None && s.sha == None && s.finalPaths == None
    ensures s.Others() == multiset{}
  {}

  // ---- Launching ----

  lemma AccountsAre(os: Os, s: Session, base: multiset<nat>)
    requires s.Accounts(os, base)
    ensures os.Valid() && os.open == base + s.Guards() + s.Others() && s.Guards() <= os.open
  {
    hide Os.Valid, Session.Guards, Session.Others;
  }

  lemma AccountsAlso(os: Os, s: Session, base: multiset<nat>, more: multiset<nat>)
    requires os.Valid() && os.open == base + s.Guards() + s.Others() + more
    ensures s.Accounts(os, base + more)
  {
    hide Os.Valid, Session.Guards, Session.Others;
  }

  method ReleaseAll(os: Os, s: Session, ghost base: multiset<nat>)
    requires s.Accounts(os, base) && s.Others() == multiset{}
    modifies os`open, s`files, s`launcher, s`directories
    ensures os.Valid() && os.open == base
  {
    hide Os.Valid, Session.Guards, Session.Others;
    ReleaseGuards(os, s, base);
  }

  method CloseJob(os: Os, s: Session, ghost base: multiset<nat>, job: nat)
    requires s.Accounts(os, base + multiset{job})
    modifies os`open
    ensures s.Accounts(os, base)
  {
    hide Os.Valid, Session.Guards, Session.Others;
    os.Release(job);
  }

  method CloseProcess(os: Os, ghost base: multiset<nat>, job: nat, process: nat, thread: nat)
    requires os.Valid() && os.open == base + multiset{job} + multiset{process, thread}
    modifies os`open
    ensures os.Valid() && os.open == base
  {
    hide Os.Valid;
    os.Release(thread);
    os.Release(process);
    os.Release(job);
  }

  /** The guards, each in turn. */
  lemma GuardsOpen(os: Os, s: Session, a: Answers, base: multiset<nat>)
    requires s.Accounts(os, base) && Held(s.files, s.launcher, s.directories, os.uses, a)
    ensures HoldsEverything(a, os.open, os.uses)
  {
    hide Os.Valid, Session.Others, Held, HoldsEverything, FileHandles, OptionalHandle;
    HeldIsOpen(s.files, s.launcher, s.directories, os.uses, a, os.open);
  }

  /** `stage14_launch_payload`: everything is held when the process is created, and nothing after. */
  method LaunchPayload(os: Os, s: Session, a: Answers, ghost base: multiset<nat>) returns (outcome: Outcome)
    requires s.Accounts(os, base) && s.Others() == multiset{}
    requires Held(s.files, s.launcher, s.directories, os.uses, a)
    modifies os, s`files, s`launcher, s`directories
    ensures os.Valid() && os.open == base && outcome == LaunchOutcome(a) && old(os.uses) <= os.uses
    ensures if a.commandFits && a.jobOk && a.limitsOk && a.processOk then CreatedOnce(old(os.created), os, a)
            else os.created == old(os.created)
  {
    hide Os.Valid, Session.Guards, Session.Others, Session.Accounts, Held, CreatedOnce;
    if !a.commandFits || !a.jobOk {
      ReleaseAll(os, s, base);
      return IntegrityFailure;
    }
    AccountsAre(os, s, base);
    ghost var before := os.uses;
    var job := os.Acquire(Job);
    AccountsAlso(os, s, base, multiset{job});
    HeldStays(s.files, s.launcher, s.directories, before, os.uses, a);
    if !a.limitsOk {
      CloseJob(os, s, base, job);
      ReleaseAll(os, s, base);
      return IntegrityFailure;
    }
    outcome := LaunchInJob(os, s, a, base, job);
  }

  lemma HeldStays(files: seq<Verified>, launcher: Option<nat>, directories: seq<nat>, uses: seq<Resource>,
                  more: seq<Resource>, a: Answers)
    requires Held(files, launcher, directories, uses, a) && uses <= more
    ensures Held(files, launcher, directories, more, a)
  {
    AllStayGuarded(files, files, a.manifest, |a.manifest|, uses, more, a.disk);
  }

  /** One process has been created, and everything was held then. */
  ghost predicate CreatedOnce(before: seq<multiset<nat>>, os: Os, a: Answers)
    reads os`created, os`uses
  {
    |os.created| == |before| + 1 && before <= os.created
    && HoldsEverything(a, os.created[|before|], os.uses)
  }

  /** The guards go first, then what was opened for the launch. */
  method EndProcess(os: Os, s: Session, ghost base: multiset<nat>, job: nat, process: nat, thread: nat)
    requires os.Valid() && s.Others() == multiset{}
    requires os.open == base + multiset{job} + s.Guards() + s.Others() + multiset{process, thread}
    modifies os`open, s`files, s`launcher, s`directories
    ensures os.Valid() && os.open == base
  {
    hide Os.Valid, Session.Guards, Session.Others, Session.Accounts;
    AccountsAlso(os, s, base + multiset{job}, multiset{process, thread});
    ReleaseAll(os, s, base + multiset{job} + multiset{process, thread});
    CloseProcess(os, base, job, process, thread);
  }

  /** From the finished job object on. */
  method LaunchInJob(os: Os, s: Session, a: Answers, ghost base: multiset<nat>, job: nat) returns (outcome: Outcome)
    requires s.Accounts(os, base + multiset{job}) && s.Others() == multiset{}
    requires a.commandFits && a.jobOk && a.limitsOk && Held(s.files, s.launcher, s.directories, os.uses, a)
    modifies os, s`files, s`launcher, s`directories
    ensures os.Valid() && os.open == base && outcome == LaunchOutcome(a) && old(os.uses) <= os.uses
    ensures if a.processOk then CreatedOnce(old(os.created), os, a) else os.created == old(os.created)
  {
    hide Os.Valid, Session.Guards, Session.Others, Session.Accounts, Held, HoldsEverything;
    if !a.processOk {
      CloseJob(os, s, base, job);
      ReleaseAll(os, s, base);
      return IntegrityFailure;
    }
    AccountsAre(os, s, base + multiset{job});
    GuardsOpen(os, s, a, base + multiset{job});
    ghost var open, uses := os.open, os.uses;
    var process, thread := os.CreateProcess();
    StillHolds(a, open, uses, os.uses);
    EndProcess(os, s, base, job, process, thread);
    return if !a.assignedOk then IntegrityFailure else if a.inTime then PayloadRan else HookTimeout;
  }

  /** From the end of verification on: report, or launch. */
  method Finish(os: Os, s: Session, a: Answers, ok: bool, ghost base: multiset<nat>) returns (outcome: Outcome)
    requires s.Accounts(os, base)
    requires ok <==> Passes(a, OncePerFile)
    requires ok ==> Held(s.files, s.launcher, s.directories, os.uses, a)
    modifies os, s
    ensures os.Valid() && os.open == base && old(os.uses) <= os.uses && outcome == OutcomeOf(a, OncePerFile)
    ensures if ok && Launches(a) then CreatedOnce(old(os.created), os, a) else os.created == old(os.created)
  {
    hide Os.Valid, Passes, Held, CreatedOnce, Session.Guards, Session.Others, Session.Accounts;
    if !ok {
      CleanUp(os, s, base);
      return IntegrityFailure;
    }
    FreeDocuments(os, s, base);
    if a.verifyOnly || !a.environmentOk {
      CleanUp(os, s, base);
      return if a.verifyOnly && a.sealWritten then VerifyPass else IntegrityFailure;
    }
    if a.isHook && !a.timeLeft {
      ReleaseGuards(os, s, base);
      FreePaths(os, s, base);
      AllReleased(os, s, base);
      return HookTimeout;
    }
    FreePaths(os, s, base);
    NothingElse(s);
    outcome := LaunchPayload(os, s, a, base);
  }

  /** `stage14_stable_launcher` from its first resource on. Whatever the disk, on every way out exactly
      what was open before is open again, the outcome is the one that hashing once per file determines,
      and at most one process is created: exactly when verification passes and nothing fails before, and
      with everything held. If identities are sound, or all files differ in volume or file number, all this
      is as with every file hashed. */
  method StableLauncher(os: Os, a: Answers) returns (outcome: Outcome)
    requires os.Valid()
    modifies os
    ensures os.Valid() && os.open == old(os.open) && old(os.uses) <= os.uses
    ensures outcome == OutcomeOf(a, OncePerFile)
    ensures if Passes(a, OncePerFile) && Launches(a) then CreatedOnce(old(os.created), os, a)
            else os.created == old(os.created)
    ensures AllSound(a) || AllDifferent(a) ==>
              outcome == OutcomeOf(a, EachTime) && (Passes(a, OncePerFile) <==> Passes(a, EachTime))
  {
    hide Os.Valid, Passes, AllSound, AllDifferent, CreatedOnce, LaunchOutcome, Launches, Session.Accounts;
    SoundPasses(a);
    DifferentPasses(a);
    if !a.heapOk {
      NoHeap(a);
      return IntegrityFailure;
    }
    ghost var base := os.open;
    var s := Start(os);
    outcome := VerifyAndLaunch(os, s, a, base);
  }

  method VerifyAndLaunch(os: Os, s: Session, a: Answers, ghost base: multiset<nat>) returns (outcome: Outcome)
    requires s.Accounts(os, base) && a.heapOk
    requires s.files == [] && s.launcher == None && s.directories == []
    requires s.sha == None && s.manifestDoc == None && s.receiptDoc == None
    modifies os, s
    ensures os.Valid() && os.open == base && old(os.uses) <= os.uses && outcome == OutcomeOf(a, OncePerFile)
    ensures if Passes(a, OncePerFile) && Launches(a) then CreatedOnce(old(os.created), os, a)
            else os.created == old(os.created)
  {
    hide Os.Valid, Passes, Held, CreatedOnce, OutcomeOf, Launches;
    hide Session.Accounts, Session.Guards, Session.Others;
    var ok := Attempt(os, s, a, base);
    outcome := Finish(os, s, a, ok, base);
  }

  /** The heap block for the final paths is the first thing to be given back. */
  method Start(os: Os) returns (s: Session)
    requires os.Valid()
    modifies os`uses, os`open
    ensures fresh(s) && s.Accounts(os, old(os.open)) && old(os.uses) <= os.uses
    ensures s.files == [] && s.launcher == None && s.directories == []
    ensures s.manifestDoc == None && s.receiptDoc == None && s.sha == None
  {
    ghost var base := os.open;
    var paths := os.Acquire(HeapBlock);
    s := new Session(paths);
    StartAccounts(os, s, base);
  }

  lemma NoHeap(a: Answers)
    requires !a.heapOk
    ensures !Passes(a, OncePerFile)
  {}

  lemma StartAccounts(os: Os, s: Session, base: multiset<nat>)
    requires os.Valid() && s.files == [] && s.launcher == None && s.directories == [] && s.finalPaths.Some?
    requires s.manifestDoc == None && s.receiptDoc == None && s.sha == None
    requires os.open == base + multiset{s.finalPaths.value}
    ensures s.Accounts(os, base)
  {
    hide Os.Valid;
  }
}
