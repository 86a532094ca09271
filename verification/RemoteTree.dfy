/** The remote file tree behind `RemoteFs`, as the in-memory implementation has it (src/commands/remote_fs.rs). */
module RemoteTrees {
  import opened Basics
  import opened ListCaches

  type Path = seq<string>
  type Bytes = seq<byte>

  datatype Remote = Remote(files: map<Path, Bytes>, dirs: set<Path>)

  datatype Policy = Overwrite | Fail | Rename

  datatype RemoteError = InvalidPath | LocalFileError | AlreadyExists | TooManyConflicts | NotFound

  datatype UploadOutcome = UploadOutcome(finalName: string, size: nat, renamed: bool)

  const MAX_RENAMES := 100

  /** Every directory on the way to a file or directory can be listed. */
  ghost predicate Listable(r: Remote)
  {
    && [] in r.dirs
    && (forall k, i | k in r.files && 0 <= i < |k| :: k[..i] in r.dirs)
    && (forall d, i | d in r.dirs && 0 <= i < |d| :: d[..i] in r.dirs)
  }

  /** The initial parts of `p` of a length in `lo..hi`. */
  function Initials(p: Path, lo: nat, hi: nat): set<Path>
    requires hi <= |p| + 1
  {
    set i | lo <= i < hi :: p[..i]
  }

  /** Name number `n` tried for a leaf: itself first, then what the suffixing makes of it. */
  function Candidate(suffix: (string, nat) -> string, leaf: string, n: nat): string
  {
    if n == 0 then leaf else suffix(leaf, n)
  }

  predicate Taken(files: map<Path, Bytes>, parent: Path, leaf: string, suffix: (string, nat) -> string, n: nat)
  {
    parent + [Candidate(suffix, leaf, n)] in files
  }

  predicate AllTaken(files: map<Path, Bytes>, parent: Path, leaf: string, suffix: (string, nat) -> string)
  {
    forall n | 0 <= n <= MAX_RENAMES :: Taken(files, parent, leaf, suffix, n)
  }

  /** The first free name from number `n` on, if one of the hundred renames is free. */
  function FirstFree(files: map<Path, Bytes>, parent: Path, leaf: string, suffix: (string, nat) -> string, n: nat)
    : (r: Option<nat>)
    requires n <= MAX_RENAMES + 1
    ensures r.Some? ==> n <= r.value <= MAX_RENAMES && !Taken(files, parent, leaf, suffix, r.value)
    ensures forall i | n <= i < (if r.Some? then r.value else MAX_RENAMES + 1) :: Taken(files, parent, leaf, suffix, i)
    decreases MAX_RENAMES + 1 - n
  {
    if n > MAX_RENAMES then None
    else if !Taken(files, parent, leaf, suffix, n) then Some(n)
    else FirstFree(files, parent, leaf, suffix, n + 1)
  }

  function AfterUpload(r: Remote, key: Path, body: Bytes, policy: Policy, suffix: (string, nat) -> string)
    : (Remote, Result<UploadOutcome, RemoteError>)
  {
    if key == [] then (r, Err(InvalidPath))
    else
      var parent, leaf := key[..|key| - 1], key[|key| - 1];
      var dirs := r.dirs + Initials(key, 1, |key|);
      match policy
      case Overwrite => (Remote(r.files[key := body], dirs), Ok(UploadOutcome(leaf, |body|, false)))
      case Fail =>
        if key in r.files then (r.(dirs := dirs), Err(AlreadyExists))
        else (Remote(r.files[key := body], dirs), Ok(UploadOutcome(leaf, |body|, false)))
      case Rename =>
        var n := FirstFree(r.files, parent, leaf, suffix, 0);
        if n.None? then (r.(dirs := dirs), Err(TooManyConflicts))
        else
          var name := Candidate(suffix, leaf, n.value);
          (Remote(r.files[parent + [name] := body], dirs), Ok(UploadOutcome(name, |body|, n.value > 0)))
  }

  /** Uploading keeps every stored file reachable by listings. */
  lemma {:induction false} UploadKeepsListable(r: Remote, key: Path, body: Bytes, policy: Policy,
                                               suffix: (string, nat) -> string)
    requires Listable(r)
    ensures Listable(AfterUpload(r, key, body, policy, suffix).0)
  {
    if key != [] {
      var r' := AfterUpload(r, key, body, policy, suffix).0;
      forall d, i | d in r'.dirs && 0 <= i < |d| ensures d[..i] in r'.dirs {
        InitialOfInitial(r, key, d, i);
      }
      forall k, i | k in r'.files && 0 <= i < |k| ensures k[..i] in r'.dirs {
        if k !in r.files && i > 0 {
          assert k[..i] == key[..i];
          assert key[..i] in Initials(key, 1, |key|);
        }
      }
    }
  }

  lemma {:induction false} InitialOfInitial(r: Remote, key: Path, d: Path, i: nat)
    requires Listable(r) && key != [] && d in r.dirs + Initials(key, 1, |key|) && i < |d|
    ensures d[..i] in r.dirs + Initials(key, 1, |key|)
  {
    if d !in r.dirs {
      var j :| 1 <= j < |key| && d == key[..j];
      assert d[..i] == key[..i];
      if i > 0 {
        assert key[..i] in Initials(key, 1, |key|);
      }
    }
  }

  /** The directories an upload leaves: those that were there and every one on the way to the file. */
  predicate DirsMade(before: set<Path>, after: set<Path>, key: Path)
  {
    (forall d | d in before :: d in after) && (forall i | 1 <= i < |key| :: key[..i] in after)
    && forall d | d in after && d !in before :: 1 <= |d| < |key| && d < key
  }

  /** Overwrite and Fail: the body is stored under the name itself, but Fail refuses when that name is there. */
  lemma {:induction false} OverwriteAndFail(r: Remote, key: Path, body: Bytes, suffix: (string, nat) -> string)
    requires key != []
    ensures var (r', outcome) := AfterUpload(r, key, body, Overwrite, suffix);
            && r'.files == r.files[key := body] && DirsMade(r.dirs, r'.dirs, key)
            && outcome == Ok(UploadOutcome(key[|key| - 1], |body|, false))
    ensures var (r', outcome) := AfterUpload(r, key, body, Fail, suffix);
            && DirsMade(r.dirs, r'.dirs, key)
            && if key in r.files then r'.files == r.files && outcome == Err(AlreadyExists)
               else r'.files == r.files[key := body] && outcome == Ok(UploadOutcome(key[|key| - 1], |body|, false))
  {
    DirsAreMade(r.dirs, key);
  }

  /**
   Rename never touches a stored file: the body goes under the name when that is free, else under the first free of its
   hundred renames, and the outcome tells which; without a free one nothing is stored.
   */
  lemma {:induction false} RenamePolicy(r: Remote, key: Path, body: Bytes, suffix: (string, nat) -> string)
    requires key != []
    ensures var (r', outcome) := AfterUpload(r, key, body, Rename, suffix);
            var parent, leaf := key[..|key| - 1], key[|key| - 1];
            && DirsMade(r.dirs, r'.dirs, key)
            && (outcome.Err? <==> AllTaken(r.files, parent, leaf, suffix))
            && (outcome.Err? ==> r'.files == r.files && outcome == Err(TooManyConflicts))
            && (outcome.Ok? ==>
                  && r'.files == r.files[parent + [outcome.value.finalName] := body]
                  && parent + [outcome.value.finalName] !in r.files && outcome.value.size == |body|
                  && (outcome.value.renamed <==> key in r.files)
                  && (!outcome.value.renamed ==> outcome.value.finalName == leaf))
  {
    assert key[..|key| - 1] + [key[|key| - 1]] == key;
    assert Taken(r.files, key[..|key| - 1], key[|key| - 1], suffix, 0) <==> key in r.files;
    DirsAreMade(r.dirs, key);
  }

  /** The rename with the least number whose name is free. */
  ghost predicate IsFirstFree(files: map<Path, Bytes>, parent: Path, leaf: string, suffix: (string, nat) -> string,
                              name: string)
  {
    exists n | 1 <= n <= MAX_RENAMES ::
      && name == suffix(leaf, n) && parent + [name] !in files
      && forall i | 1 <= i < n :: parent + [suffix(leaf, i)] in files
  }

  lemma {:induction false} RenamesToFirstFree(r: Remote, key: Path, body: Bytes, suffix: (string, nat) -> string)
    requires key != [] && key in r.files
    ensures var outcome := AfterUpload(r, key, body, Rename, suffix).1;
            outcome.Ok? ==> IsFirstFree(r.files, key[..|key| - 1], key[|key| - 1], suffix, outcome.value.finalName)
  {
    var parent, leaf := key[..|key| - 1], key[|key| - 1];
    var found := FirstFree(r.files, parent, leaf, suffix, 0);
    assert parent + [leaf] == key;
    if found.Some? {
      FreeIsFirst(r.files, parent, leaf, suffix, found.value);
    }
  }

  lemma FreeIsFirst(files: map<Path, Bytes>, parent: Path, leaf: string, suffix: (string, nat) -> string, n: nat)
    requires 1 <= n <= MAX_RENAMES && !Taken(files, parent, leaf, suffix, n)
    requires forall i | 0 <= i < n :: Taken(files, parent, leaf, suffix, i)
    ensures IsFirstFree(files, parent, leaf, suffix, Candidate(suffix, leaf, n))
  {
    assert forall i | 1 <= i < n :: Taken(files, parent, leaf, suffix, i) ==> parent + [suffix(leaf, i)] in files;
  }

  lemma DirsAreMade(dirs: set<Path>, key: Path)
    requires key != []
    ensures DirsMade(dirs, dirs + Initials(key, 1, |key|), key)
  {
    assert forall i | 1 <= i < |key| :: key[..i] in Initials(key, 1, |key|);
  }

  // ----- listing -----

  function FileEntry(name: string, body: Bytes): RawEntry { RawEntry(name, Some(|body|), false) }

  function DirEntryOf(name: string): RawEntry { RawEntry(name, None, true) }

  /** A listing of `src`: each child once, files first, nothing else. */
  ghost predicate IsListing(es: seq<RawEntry>, r: Remote, src: Path)
  {
    && (forall e | e in es :: if e.isDirectory then src + [e.name] in r.dirs && e == DirEntryOf(e.name)
                              else src + [e.name] in r.files && e == FileEntry(e.name, r.files[src + [e.name]]))
    && (forall k | k in r.files && |k| == |src| + 1 && src < k :: FileEntry(k[|src|], r.files[k]) in es)
    && (forall d | d in r.dirs && |d| == |src| + 1 && src < d :: DirEntryOf(d[|src|]) in es)
    && (forall i, j | 0 <= i < j < |es| :: es[i] != es[j] && (es[i].isDirectory ==> es[j].isDirectory))
  }

  class FakeRemoteFs {
    var files: map<Path, Bytes>
    var dirs: set<Path>
    var uploadCount: nat
    var downloadCount: nat
    var listCount: nat

    constructor ()
      ensures Model() == Remote(map[], {[]}) && Listable(Model())
      ensures uploadCount == downloadCount == listCount == 0
    {
      files, dirs := map[], {[]};
      uploadCount, downloadCount, listCount := 0, 0, 0;
    }

    function Model(): Remote
      reads this
    {
      Remote(files, dirs)
    }

    method InsertInitials(key: Path, lo: nat, hi: nat)
      requires lo <= hi <= |key| + 1
      modifies this`dirs
      ensures dirs == old(dirs) + Initials(key, lo, hi)
    {
      var i := lo;
      while i < hi
        invariant lo <= i <= hi
        invariant dirs == old(dirs) + Initials(key, lo, i)
      {
        dirs := dirs + {key[..i]};
        i := i + 1;
      }
    }

    method PutFile(key: Path, body: Bytes)
      modifies this`files, this`dirs
      ensures Model() == Remote(old(files)[key := body], old(dirs) + Initials(key, 0, |key|))
      ensures old(Listable(Model())) ==> Listable(Model())
    {
      InsertInitials(key, 0, |key|);
      files := files[key := body];
      forall d, i | d in dirs && 0 <= i < |d| ensures old(Listable(Model())) ==> d[..i] in dirs {
        if d !in old(dirs) {
          var j :| 0 <= j < |key| && d == key[..j];
          assert d[..i] == key[..i] && key[..i] in Initials(key, 0, |key|);
        }
      }
      forall k, i | k in files && 0 <= i < |k| ensures old(Listable(Model())) ==> k[..i] in dirs {
        if k == key {
          assert key[..i] in Initials(key, 0, |key|);
        }
      }
    }

    method EnsureDir(key: Path)
      modifies this`dirs
      ensures dirs == old(dirs) + Initials(key, 0, |key| + 1)
      ensures key in dirs
      ensures old(Listable(Model())) ==> Listable(Model())
    {
      InsertInitials(key, 0, |key| + 1);
      assert key == key[..|key|] && key[..|key|] in Initials(key, 0, |key| + 1);
      forall d, i | d in dirs && 0 <= i < |d| ensures old(Listable(Model())) ==> d[..i] in dirs {
        if d !in old(dirs) {
          var j :| 0 <= j < |key| + 1 && d == key[..j];
          assert d[..i] == key[..i] && key[..i] in Initials(key, 0, |key| + 1);
        }
      }
    }

    /** `body` is what reading the local file gives; `None` when that fails. */
    method Upload(body: Option<Bytes>, key: Path, policy: Policy, suffix: (string, nat) -> string)
      returns (outcome: Result<UploadOutcome, RemoteError>)
      modifies this
      ensures key != [] && body.None? ==> outcome == Err(LocalFileError) && Model() == old(Model())
      ensures key == [] || body.Some? ==>
                (Model(), outcome) == AfterUpload(old(Model()), key, if body.Some? then body.value else [], policy, suffix)
      ensures uploadCount == old(uploadCount) + if outcome.Ok? then 1 else 0
    {
      if key == [] {
        return Err(InvalidPath);
      }
      if body.None? {
        return Err(LocalFileError);
      }
      var parent, leaf := key[..|key| - 1], key[|key| - 1];
      InsertInitials(key, 1, |key|);
      match policy {
        case Overwrite =>
          files := files[key := body.value];
          outcome := Ok(UploadOutcome(leaf, |body.value|, false));
        case Fail =>
          if key in files {
            return Err(AlreadyExists);
          }
          files := files[key := body.value];
          outcome := Ok(UploadOutcome(leaf, |body.value|, false));
        case Rename =>
          var n := 0;
          while true
            invariant 0 <= n <= MAX_RENAMES
            invariant files == old(files)
            invariant FirstFree(files, parent, leaf, suffix, 0) == FirstFree(files, parent, leaf, suffix, n)
            decreases MAX_RENAMES - n
          {
            var candidate := Candidate(suffix, leaf, n);
            if parent + [candidate] !in files {
              files := files[parent + [candidate] := body.value];
              outcome := Ok(UploadOutcome(candidate, |body.value|, n > 0));
              break;
            }
            n := n + 1;
            if n > MAX_RENAMES {
              return Err(TooManyConflicts);
            }
          }
      }
      uploadCount := uploadCount + 1;
    }

    method ListFiles(src: Path) returns (out: seq<RawEntry>)
      ensures forall e | e in out :: !e.isDirectory && src + [e.name] in files && e == FileEntry(e.name, files[src + [e.name]])
      ensures forall k | k in files && |k| == |src| + 1 && src < k :: FileEntry(k[|src|], files[k]) in out
      ensures forall i, j | 0 <= i < j < |out| :: out[i] != out[j]
    {
      out := [];
      var pending := files.Keys;
      while pending != {}
        invariant pending <= files.Keys
        invariant forall e | e in out :: !e.isDirectory && src + [e.name] in files.Keys - pending
                                         && e == FileEntry(e.name, files[src + [e.name]])
        invariant forall k | k in files.Keys - pending && |k| == |src| + 1 && src < k ::
                    FileEntry(k[|src|], files[k]) in out
        invariant forall i, j | 0 <= i < j < |out| :: out[i] != out[j]
        decreases pending
      {
        var k :| k in pending;
        pending := pending - {k};
        if |k| == |src| + 1 && src < k {
          assert k == src + [k[|src|]];
          out := out + [FileEntry(k[|src|], files[k])];
        }
      }
    }

    method ListDirs(src: Path) returns (out: seq<RawEntry>)
      ensures forall e | e in out :: src + [e.name] in dirs && e == DirEntryOf(e.name)
      ensures forall d | d in dirs && |d| == |src| + 1 && src < d :: DirEntryOf(d[|src|]) in out
      ensures forall i, j | 0 <= i < j < |out| :: out[i] != out[j]
    {
      out := [];
      var pending := dirs;
      while pending != {}
        invariant pending <= dirs
        invariant forall e | e in out :: src + [e.name] in dirs - pending && e == DirEntryOf(e.name)
        invariant forall d | d in dirs - pending && |d| == |src| + 1 && src < d :: DirEntryOf(d[|src|]) in out
        invariant forall i, j | 0 <= i < j < |out| :: out[i] != out[j]
        decreases pending
      {
        var d :| d in pending;
        pending := pending - {d};
        if |d| == |src| + 1 && src < d {
          assert d == src + [d[|src|]];
          out := out + [DirEntryOf(d[|src|])];
        }
      }
    }

    method List(src: Path) returns (es: Result<seq<RawEntry>, RemoteError>)
      modifies this`listCount
      ensures es.Err? <==> src !in dirs
      ensures es.Err? ==> es.error == NotFound
      ensures es.Ok? ==> IsListing(es.value, Model(), src)
      ensures listCount == old(listCount) + if es.Ok? then 1 else 0
    {
      if src !in dirs {
        return Err(NotFound);
      }
      var fileEntries := ListFiles(src);
      var dirEntries := ListDirs(src);
      FilesThenDirs(fileEntries, dirEntries);
      listCount := listCount + 1;
      return Ok(fileEntries + dirEntries);
    }
  }

  lemma FilesThenDirs(a: seq<RawEntry>, b: seq<RawEntry>)
    requires (forall e | e in a :: !e.isDirectory) && (forall e | e in b :: e.isDirectory)
    requires forall i, j | 0 <= i < j < |a| :: a[i] != a[j]
    requires forall i, j | 0 <= i < j < |b| :: b[i] != b[j]
    ensures forall i, j | 0 <= i < j < |a + b| ::
              (a + b)[i] != (a + b)[j] && ((a + b)[i].isDirectory ==> (a + b)[j].isDirectory)
  {
    forall i, j | 0 <= i < j < |a + b|
      ensures (a + b)[i] != (a + b)[j] && ((a + b)[i].isDirectory ==> (a + b)[j].isDirectory)
    {
      assert i < |a| ==> (a + b)[i] in a;
      assert j >= |a| ==> (a + b)[j] in b;
    }
  }
}
