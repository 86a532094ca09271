/** Bulk download of a remote directory into a local one (src/commands/download.rs). */
module Download {
  import opened Basics
  import opened Text
  import opened ListCaches
  import opened RemoteTrees
  import opened SaveAll
  import opened PathTexts

  /** The local side: what has been written where. */
  datatype Local = Local(files: map<Path, Bytes>, dirs: set<Path>)

  /** A listing name may become one local path component only if it cannot leave the directory or carry control bytes. */
  predicate SafeName(name: string)
  {
    && name != "" && name != "." && name != ".."
    && '/' !in name && '\\' !in name && '\0' !in name
    && forall c | c in name :: !IsControl(c)
  }

  /** The names accepted are exactly those whose text is one step down and nothing else, without control characters. */
  lemma {:induction false} SafeNamesAreOneStep(name: string)
    ensures SafeName(name) <==> Resolve([], name) == [name] && !HasControl(name)
    ensures SafeName(name) ==> IsOneStep(name) && LeadsBelow([name])
  {
    OneStepIffResolvesToItself(name);
    if SafeName(name) {
      NameLeadsBelow(name);
    }
    assert IsControl('\0');
  }

  /** Spaces and leading dots do no harm; the two dots alone do. */
  lemma {:induction false} SpaceIsSafe()
    ensures SafeName("a b") && SafeName(".hidden") && !SafeName("..")
  {
  }

  predicate SafePath(p: Path) { forall n | n in p :: SafeName(n) }

  /** `create_dir_all` fails on a path that is or runs through a file. */
  predicate CanMakeDirs(l: Local, p: Path) { forall i | 0 <= i <= |p| :: p[..i] !in l.files }

  function MakeDirs(l: Local, p: Path): Local { l.(dirs := l.dirs + Initials(p, 0, |p| + 1)) }

  predicate CanWrite(l: Local, p: Path) { p != [] && p !in l.dirs && p[..|p| - 1] in l.dirs }

  function AfterDownload(r: Remote, key: Path, l: Local, dest: Path): (Local, Result<nat, RemoteError>)
    requires dest != []
  {
    var parent := dest[..|dest| - 1];
    if key !in r.files then (l, Err(NotFound))
    else if !CanMakeDirs(l, parent) then (l, Err(LocalFileError))
    else if !CanWrite(MakeDirs(l, parent), dest) then (MakeDirs(l, parent), Err(LocalFileError))
    else (MakeDirs(l, parent).(files := l.files[dest := r.files[key]]), Ok(|r.files[key]|))
  }

  class LocalFs {
    var files: map<Path, Bytes>
    var dirs: set<Path>

    constructor (files: map<Path, Bytes>, dirs: set<Path>)
      ensures this.files == files && this.dirs == dirs
    {
      this.files, this.dirs := files, dirs;
    }

    function Model(): Local
      reads this
    {
      Local(files, dirs)
    }

    method CreateDirAll(p: Path) returns (ok: bool)
      modifies this
      ensures ok <==> CanMakeDirs(old(Model()), p)
      ensures Model() == if ok then MakeDirs(old(Model()), p) else old(Model())
    {
      ok := forall i | 0 <= i <= |p| :: p[..i] !in files;
      if ok {
        dirs := dirs + Initials(p, 0, |p| + 1);
      }
    }

    method Write(p: Path, body: Bytes) returns (ok: bool)
      modifies this
      ensures ok <==> CanWrite(old(Model()), p)
      ensures Model() == if ok then old(Model()).(files := old(files)[p := body]) else old(Model())
    {
      ok := p != [] && p !in dirs && p[..|p| - 1] in dirs;
      if ok {
        files := files[p := body];
      }
    }
  }

  method DownloadFile(remote: FakeRemoteFs, key: Path, local: LocalFs, dest: Path)
    returns (r: Result<nat, RemoteError>)
    requires dest != []
    modifies remote`downloadCount, local
    ensures (local.Model(), r) == AfterDownload(remote.Model(), key, old(local.Model()), dest)
    ensures remote.downloadCount == old(remote.downloadCount) + if r.Ok? then 1 else 0
  {
    if key !in remote.files {
      return Err(NotFound);
    }
    var body := remote.files[key];
    var made := local.CreateDirAll(dest[..|dest| - 1]);
    if !made {
      return Err(LocalFileError);
    }
    var written := local.Write(dest, body);
    if !written {
      return Err(LocalFileError);
    }
    remote.downloadCount := remote.downloadCount + 1;
    return Ok(|body|);
  }

  // ----- what must come down -----

  /** The stored files that a download of `src` has to write, and the names it has to refuse. */
  predicate Wanted(src: Path, recursive: bool, k: Path)
  {
    src < k && SafePath(k[|src|..]) && (recursive || |k| == |src| + 1)
  }

  predicate Refused(src: Path, recursive: bool, k: Path)
  {
    src < k && SafePath(k[|src|..|k| - 1]) && !SafeName(k[|k| - 1]) && (recursive || |k| == |src| + 1)
  }

  ghost function WantedKeys(r: Remote, src: Path, recursive: bool): set<Path>
  {
    set k | k in r.files && Wanted(src, recursive, k)
  }

  ghost function RefusedKeys(r: Remote, src: Path, recursive: bool): set<Path>
  {
    set k | k in r.files.Keys + r.dirs && Refused(src, recursive, k)
  }

  function Moved(src: Path, dest: Path, k: Path): Path
    requires |src| <= |k|
  {
    dest + k[|src|..]
  }

  ghost predicate IsMoved(q: Path, src: Path, dest: Path, keys: set<Path>)
  {
    exists k | k in keys :: src < k && q == Moved(src, dest, k)
  }

  /** `after` is `before` plus the files `keys`, each at its place under `dest` with its own bytes. */
  ghost predicate CopiedInto(before: map<Path, Bytes>, after: map<Path, Bytes>, files: map<Path, Bytes>,
                             src: Path, dest: Path, keys: set<Path>)
  {
    && (forall q :: q in after <==> q in before || IsMoved(q, src, dest, keys))
    && (forall q | q in before && !IsMoved(q, src, dest, keys) :: after[q] == before[q])
    && (forall k | k in keys && src < k :: k in files && Moved(src, dest, k) in after
                                         && after[Moved(src, dest, k)] == files[k])
  }

  /** No stored file is also a directory. */
  ghost predicate NoClash(r: Remote, src: Path) { forall k | k in r.files && src < k :: k !in r.dirs }

  /** A listed directory below `src` that a download visits. */
  predicate Visited(src: Path, recursive: bool, d: Path) { recursive && src < d && SafePath(d[|src|..]) }

  /**
   Nothing local is in the way, whatever else lies there: no file at the destination, above it, or at the place of a
   directory that is visited, and no directory at the place of a file that is wanted.
   */
  ghost predicate Fits(r: Remote, src: Path, recursive: bool, l: Local, dest: Path)
  {
    && CanMakeDirs(l, dest)
    && (forall d | d in r.dirs && Visited(src, recursive, d) :: Moved(src, dest, d) !in l.files)
    && (forall k | k in WantedKeys(r, src, recursive) :: Moved(src, dest, k) !in l.dirs)
  }

  ghost predicate Ready(r: Remote, src: Path, recursive: bool, l: Local, dest: Path)
  {
    Listable(r) && NoClash(r, src) && Fits(r, src, recursive, l, dest)
  }

  ghost predicate IsMovedDir(q: Path, r: Remote, src: Path, dest: Path)
  {
    exists d | d in r.dirs :: src < d && q == Moved(src, dest, d)
  }

  /**
   The outcome of a download: one failure when `src` cannot be listed; else every wanted file is in its place, every
   other local file as it was, new directories only where listed ones go, and the tally is files and refusals.
   */
  ghost predicate DownloadedExactly(r: Remote, src: Path, recursive: bool, before: Local, after: Local, dest: Path,
                                    t: Tally)
  {
    if src !in r.dirs then after == before && t == Tally(0, 1)
    else
      && CopiedInto(before.files, after.files, r.files, src, dest, WantedKeys(r, src, recursive))
      && before.dirs <= after.dirs
      && (forall d | d in after.dirs :: d in before.dirs || d <= dest || IsMovedDir(d, r, src, dest))
      && t == Tally(|WantedKeys(r, src, recursive)|, |RefusedKeys(r, src, recursive)|)
  }

  /**
   Whatever the remote says, nothing is removed, and nothing is written except where the text of the path leads strictly
   below `dest`, through no `..` and no separator hidden in a name.
   */
  ghost predicate Contained(before: Local, after: Local, dest: Path)
  {
    && before.files.Keys <= after.files.Keys && before.dirs <= after.dirs
    && (forall q | q in after.files ::
          (q in before.files && after.files[q] == before.files[q]) || (dest < q && LeadsBelow(q[|dest|..])))
    && (forall d | d in after.dirs :: d in before.dirs || d <= dest || (dest < d && LeadsBelow(d[|dest|..])))
  }

  lemma {:induction false} ContainedTrans(a: Local, b: Local, c: Local, dest: Path)
    requires Contained(a, b, dest) && Contained(b, c, dest)
    ensures Contained(a, c, dest)
  {
  }

  lemma {:induction false} ContainedInChild(b: Local, c: Local, dest: Path, name: string)
    requires Contained(b, c, dest + [name]) && SafeName(name)
    ensures Contained(b, c, dest)
  {
    var child := dest + [name];
    SafeNamesAreOneStep(name);
    assert !HasControl(name);
    forall q: Path | child < q && LeadsBelow(q[|child|..]) ensures dest < q && LeadsBelow(q[|dest|..]) {
      LeadsBelowFrom(name, q[|child|..]);
      assert q[|dest|..] == [name] + q[|child|..];
    }
    forall d: Path | d <= child ensures d <= dest || (dest < d && LeadsBelow(d[|dest|..])) {
      if !(d <= dest) {
        assert d == child && d[|dest|..] == [name];
      }
    }
  }

  lemma {:induction false} DownloadIsContained(r: Remote, key: Path, l: Local, dest: Path, name: string)
    requires SafeName(name)
    ensures Contained(l, AfterDownload(r, key, l, dest + [name]).0, dest)
  {
    var target := dest + [name];
    SafeNamesAreOneStep(name);
    assert target[..|target| - 1] == dest && target[|dest|..] == [name];
  }

  // ----- the pieces of a listing -----

  /** The keys an entry of a listing of `src` stands for: itself, or everything below it. */
  predicate Covers(r: Remote, e: RawEntry, src: Path, k: Path)
  {
    src < k && e.name == k[|src|] && (e.isDirectory <==> |k| > |src| + 1 || k in r.dirs)
  }

  ghost function Part(keys: set<Path>, r: Remote, es: seq<RawEntry>, src: Path): set<Path>
  {
    set k | k in keys && exists e | e in es :: Covers(r, e, src, k)
  }

  ghost function Slice(keys: set<Path>, r: Remote, e: RawEntry, src: Path): set<Path>
  {
    set k | k in keys && Covers(r, e, src, k)
  }

  /** Entries of a listing differ by name. */
  lemma {:induction false} NamesDiffer(es: seq<RawEntry>, r: Remote, src: Path, i: nat, j: nat)
    requires IsListing(es, r, src) && NoClash(r, src) && i < j < |es|
    ensures es[i].name != es[j].name
  {
    assert es[i] in es && es[j] in es;
    assert src < src + [es[i].name];
  }

  lemma {:induction false} PartNext(keys: set<Path>, r: Remote, es: seq<RawEntry>, i: nat, src: Path)
    requires IsListing(es, r, src) && NoClash(r, src) && i < |es|
    ensures Part(keys, r, es[..i + 1], src) == Part(keys, r, es[..i], src) + Slice(keys, r, es[i], src)
    ensures |Part(keys, r, es[..i + 1], src)| == |Part(keys, r, es[..i], src)| + |Slice(keys, r, es[i], src)|
  {
    assert es[..i + 1] == es[..i] + [es[i]];
    forall k, e | e in es[..i] && Covers(r, e, src, k) ensures !Covers(r, es[i], src, k) {
      var j :| 0 <= j < i && es[j] == e;
      NamesDiffer(es, r, src, j, i);
    }
    var before, slice := Part(keys, r, es[..i], src), Slice(keys, r, es[i], src);
    assert before !! slice;
    assert Part(keys, r, es[..i + 1], src) == before + slice;
  }

  lemma {:induction false} PartIsAll(keys: set<Path>, r: Remote, es: seq<RawEntry>, src: Path)
    requires IsListing(es, r, src) && Listable(r) && NoClash(r, src)
    requires forall k | k in keys :: src < k && k in r.files.Keys + r.dirs
    ensures Part(keys, r, es, src) == keys
  {
    forall k | k in keys ensures exists e | e in es :: Covers(r, e, src, k) {
      var d := k[..|src| + 1];
      assert d[|src|] == k[|src|] && src < d;
      if k == d && k in r.files {
        assert Covers(r, FileEntry(k[|src|], r.files[k]), src, k);
      } else {
        assert d in r.dirs;
        assert Covers(r, DirEntryOf(d[|src|]), src, k);
      }
    }
  }

  lemma {:induction false} SliceOfUnsafe(r: Remote, e: RawEntry, src: Path, recursive: bool)
    requires !SafeName(e.name) && NoClash(r, src)
    requires if e.isDirectory then src + [e.name] in r.dirs else src + [e.name] in r.files
    ensures Slice(WantedKeys(r, src, recursive), r, e, src) == {}
    ensures Slice(RefusedKeys(r, src, recursive), r, e, src) == {src + [e.name]}
  {
    var c := src + [e.name];
    forall k | k in WantedKeys(r, src, recursive) ensures !Covers(r, e, src, k) {
      assert k[|src|] == k[|src|..][0] && k[|src|] in k[|src|..];
    }
    forall k: Path | Covers(r, e, src, k) && |k| > |src| + 1 ensures !SafePath(k[|src|..|k| - 1]) {
      assert k[|src|] == k[|src|..|k| - 1][0] && k[|src|] in k[|src|..|k| - 1];
    }
    forall k | k in RefusedKeys(r, src, recursive) && Covers(r, e, src, k) ensures k == c {
      assert k == k[..|src|] + [k[|src|]];
    }
    assert c[|src|..|c| - 1] == [] && c[|c| - 1] == e.name;
    assert c in RefusedKeys(r, src, recursive) && Covers(r, e, src, c);
  }

  lemma {:induction false} SliceOfFile(r: Remote, e: RawEntry, src: Path, recursive: bool)
    requires SafeName(e.name) && NoClash(r, src) && !e.isDirectory && src + [e.name] in r.files
    ensures Slice(WantedKeys(r, src, recursive), r, e, src) == {src + [e.name]}
    ensures Slice(RefusedKeys(r, src, recursive), r, e, src) == {}
  {
    var c := src + [e.name];
    forall k | Covers(r, e, src, k) ensures k == c {
      assert k == k[..|src|] + [k[|src|]];
    }
    assert c[|src|..] == [e.name];
    assert Covers(r, e, src, c) && c in WantedKeys(r, src, recursive);
  }

  lemma {:induction false} SliceOfSkippedDir(r: Remote, e: RawEntry, src: Path)
    requires SafeName(e.name) && NoClash(r, src) && e.isDirectory
    ensures Slice(WantedKeys(r, src, false), r, e, src) == {}
    ensures Slice(RefusedKeys(r, src, false), r, e, src) == {}
  {
  }

  lemma {:induction false} SliceOfDir(r: Remote, e: RawEntry, src: Path)
    requires SafeName(e.name) && NoClash(r, src) && e.isDirectory
    ensures var c := src + [e.name];
            && Slice(WantedKeys(r, src, true), r, e, src) == WantedKeys(r, c, true)
            && Slice(RefusedKeys(r, src, true), r, e, src) == RefusedKeys(r, c, true)
  {
    var c := src + [e.name];
    forall k ensures k in Slice(WantedKeys(r, src, true), r, e, src) <==> k in WantedKeys(r, c, true) {
      BelowChild(r, e, src, k);
      if c < k {
        assert k[|src|..] == [e.name] + k[|c|..];
      }
    }
    forall k ensures k in Slice(RefusedKeys(r, src, true), r, e, src) <==> k in RefusedKeys(r, c, true) {
      BelowChild(r, e, src, k);
      if c < k {
        assert k[|src|..|k| - 1] == [e.name] + k[|c|..|k| - 1];
      }
    }
  }

  lemma {:induction false} BelowChild(r: Remote, e: RawEntry, src: Path, k: Path)
    requires e.isDirectory
    ensures Covers(r, e, src, k) <==> src + [e.name] < k || (k == src + [e.name] && k in r.dirs)
  {
    var c := src + [e.name];
    if src < k && k[|src|] == e.name {
      assert k[..|c|] == k[..|src|] + [k[|src|]] == c;
    }
  }

  // ----- one entry of the loop -----

  /** What a loop over the entries `done` adds to the tally. */
  ghost function Count(r: Remote, src: Path, recursive: bool, done: seq<RawEntry>): Tally
  {
    Tally(|Part(WantedKeys(r, src, recursive), r, done, src)|, |Part(RefusedKeys(r, src, recursive), r, done, src)|)
  }

  /** New directories are where listed ones go. */
  ghost predicate NewDirs(r: Remote, src: Path, mid: set<Path>, now: set<Path>, dest: Path)
  {
    mid <= now && forall q | q in now :: q in mid || IsMovedDir(q, r, src, dest)
  }

  /** How far the loop over a listing got after the entries `done`, starting from `mid`. */
  ghost predicate Stage(r: Remote, src: Path, recursive: bool, mid: Local, now: Local, dest: Path,
                        done: seq<RawEntry>, t: Tally)
  {
    && CopiedInto(mid.files, now.files, r.files, src, dest, Part(WantedKeys(r, src, recursive), r, done, src))
    && NewDirs(r, src, mid.dirs, now.dirs, dest)
    && t == Count(r, src, recursive, done)
  }

  /** The local place once its directory is made. */
  ghost predicate Opened(r: Remote, src: Path, recursive: bool, es: seq<RawEntry>, mid: Local, dest: Path)
  {
    && Listable(r) && NoClash(r, src) && IsListing(es, r, src) && Fits(r, src, recursive, mid, dest)
    && Initials(dest, 0, |dest| + 1) <= mid.dirs
  }

  lemma {:induction false} MovedIsInjective(src: Path, dest: Path, a: Path, b: Path)
    requires src < a && src < b && Moved(src, dest, a) == Moved(src, dest, b)
    ensures a == b
  {
    assert Moved(src, dest, a)[|dest|..] == a[|src|..] && Moved(src, dest, b)[|dest|..] == b[|src|..];
    assert a == src + a[|src|..] && b == src + b[|src|..];
  }

  lemma {:induction false} CopyMore(a: map<Path, Bytes>, b: map<Path, Bytes>, c: map<Path, Bytes>,
                                    files: map<Path, Bytes>, src: Path, dest: Path, keys: set<Path>, more: set<Path>)
    requires CopiedInto(a, b, files, src, dest, keys) && CopiedInto(b, c, files, src, dest, more)
    requires forall k | k in keys + more :: src < k
    ensures CopiedInto(a, c, files, src, dest, keys + more)
  {
    forall q ensures IsMoved(q, src, dest, keys + more) <==>
                     IsMoved(q, src, dest, keys) || IsMoved(q, src, dest, more)
    {
      if IsMoved(q, src, dest, keys) {
        var k :| k in keys && src < k && q == Moved(src, dest, k);
        assert k in keys + more;
      }
      if IsMoved(q, src, dest, more) {
        var k :| k in more && src < k && q == Moved(src, dest, k);
        assert k in keys + more;
      }
    }
    forall k | k in keys + more && src < k
      ensures k in files && Moved(src, dest, k) in c && c[Moved(src, dest, k)] == files[k]
    {
      if k !in more {
        var q := Moved(src, dest, k);
        if IsMoved(q, src, dest, more) {
          var k' :| k' in more && src < k' && q == Moved(src, dest, k');
          MovedIsInjective(src, dest, k, k');
        }
      }
    }
  }

  lemma {:induction false} CopyFromChild(b: map<Path, Bytes>, c: map<Path, Bytes>, files: map<Path, Bytes>,
                                         src: Path, dest: Path, name: string, keys: set<Path>)
    requires CopiedInto(b, c, files, src + [name], dest + [name], keys)
    requires forall k | k in keys :: src + [name] < k
    ensures CopiedInto(b, c, files, src, dest, keys)
  {
    forall k | k in keys ensures src < k && Moved(src + [name], dest + [name], k) == Moved(src, dest, k) {
      assert k[|src|..] == [name] + k[|src| + 1..];
    }
    forall q ensures IsMoved(q, src, dest, keys) <==> IsMoved(q, src + [name], dest + [name], keys) {
      if IsMoved(q, src, dest, keys) {
        var k :| k in keys && src < k && q == Moved(src, dest, k);
        assert q == Moved(src + [name], dest + [name], k);
      }
      if IsMoved(q, src + [name], dest + [name], keys) {
        var k :| k in keys && src + [name] < k && q == Moved(src + [name], dest + [name], k);
        assert q == Moved(src, dest, k);
      }
    }
  }

  lemma {:induction false} NotMoved(q: Path, src: Path, dest: Path, keys: set<Path>)
    requires q <= dest
    ensures !IsMoved(q, src, dest, keys)
  {
  }

  /** What the loop writes gets in the way of nothing that is still to come. */
  lemma {:induction false} StillFits(r: Remote, src: Path, recursive: bool, mid: Local, now: Local, dest: Path,
                                     keys: set<Path>)
    requires NoClash(r, src) && Fits(r, src, recursive, mid, dest) && keys <= WantedKeys(r, src, recursive)
    requires CopiedInto(mid.files, now.files, r.files, src, dest, keys) && NewDirs(r, src, mid.dirs, now.dirs, dest)
    ensures Fits(r, src, recursive, now, dest)
  {
    forall i | 0 <= i <= |dest| ensures dest[..i] !in now.files {
      NotMoved(dest[..i], src, dest, keys);
    }
    forall d | d in r.dirs && Visited(src, recursive, d) ensures !IsMoved(Moved(src, dest, d), src, dest, keys) {
      if k :| k in keys && src < k && Moved(src, dest, d) == Moved(src, dest, k) {
        MovedIsInjective(src, dest, d, k);
      }
    }
    forall k | k in WantedKeys(r, src, recursive) ensures !IsMovedDir(Moved(src, dest, k), r, src, dest) {
      if d :| d in r.dirs && src < d && Moved(src, dest, k) == Moved(src, dest, d) {
        MovedIsInjective(src, dest, d, k);
      }
    }
  }

  /** Nothing is in the way of a safe file entry. */
  lemma {:induction false} FileFits(r: Remote, src: Path, recursive: bool, now: Local, dest: Path, e: RawEntry)
    requires Fits(r, src, recursive, now, dest) && Initials(dest, 0, |dest| + 1) <= now.dirs
    requires SafeName(e.name) && src + [e.name] in r.files
    ensures var (key, target) := (src + [e.name], dest + [e.name]);
            AfterDownload(r, key, now, target) == (now.(files := now.files[target := r.files[key]]), Ok(|r.files[key]|))
  {
    var key, target := src + [e.name], dest + [e.name];
    assert target[..|target| - 1] == dest && key[|src|..] == [e.name];
    assert key in WantedKeys(r, src, recursive) && Moved(src, dest, key) == target;
    assert dest == dest[..|dest|] && dest[..|dest|] in Initials(dest, 0, |dest| + 1);
    assert MakeDirs(now, dest).dirs == now.dirs;
  }

  lemma PartIsWanted(r: Remote, src: Path, recursive: bool, es: seq<RawEntry>)
    ensures Part(WantedKeys(r, src, recursive), r, es, src) <= WantedKeys(r, src, recursive)
  {
  }

  /** A safe file entry downloads, and the loop is one file further. */
  lemma {:induction false} FileStep(r: Remote, src: Path, recursive: bool, mid: Local, now: Local, dest: Path,
                                    es: seq<RawEntry>, i: nat, t: Tally)
    requires Opened(r, src, recursive, es, mid, dest) && i < |es|
    requires Stage(r, src, recursive, mid, now, dest, es[..i], t)
    requires !es[i].isDirectory && SafeName(es[i].name)
    ensures var (next, outcome) := AfterDownload(r, src + [es[i].name], now, dest + [es[i].name]);
            outcome.Ok? && Stage(r, src, recursive, mid, next, dest, es[..i + 1], t.(successes := t.successes + 1))
  {
    var e := es[i];
    assert e in es;
    var key, target := src + [e.name], dest + [e.name];
    var part := Part(WantedKeys(r, src, recursive), r, es[..i], src);
    PartIsWanted(r, src, recursive, es[..i]);
    StillFits(r, src, recursive, mid, now, dest, part);
    FileFits(r, src, recursive, now, dest, e);
    PartNext(WantedKeys(r, src, recursive), r, es, i, src);
    PartNext(RefusedKeys(r, src, recursive), r, es, i, src);
    SliceOfFile(r, e, src, recursive);
    OneCopied(now.files, r.files, src, dest, e.name);
    CopyMore(mid.files, now.files, now.files[target := r.files[key]], r.files, src, dest, part, {key});
  }

  lemma {:induction false} OneCopied(b: map<Path, Bytes>, files: map<Path, Bytes>, src: Path, dest: Path, name: string)
    requires src + [name] in files
    ensures CopiedInto(b, b[dest + [name] := files[src + [name]]], files, src, dest, {src + [name]})
  {
    var key := src + [name];
    assert Moved(src, dest, key) == dest + [name];
    forall q ensures IsMoved(q, src, dest, {key}) <==> q == dest + [name] {
      if q == dest + [name] {
        assert key in {key} && src < key && q == Moved(src, dest, key);
      }
    }
  }

  lemma {:induction false} UnsafeStep(r: Remote, src: Path, recursive: bool, mid: Local, now: Local, dest: Path,
                                      es: seq<RawEntry>, i: nat, t: Tally)
    requires Opened(r, src, recursive, es, mid, dest) && i < |es|
    requires Stage(r, src, recursive, mid, now, dest, es[..i], t)
    requires !SafeName(es[i].name)
    ensures Stage(r, src, recursive, mid, now, dest, es[..i + 1], t.(failures := t.failures + 1))
  {
    assert es[i] in es;
    var wanted := WantedKeys(r, src, recursive);
    PartNext(wanted, r, es, i, src);
    PartNext(RefusedKeys(r, src, recursive), r, es, i, src);
    SliceOfUnsafe(r, es[i], src, recursive);
    assert Part(wanted, r, es[..i + 1], src) == Part(wanted, r, es[..i], src);
  }

  lemma {:induction false} SkippedDirStep(r: Remote, src: Path, mid: Local, now: Local, dest: Path,
                                          es: seq<RawEntry>, i: nat, t: Tally)
    requires Opened(r, src, false, es, mid, dest) && i < |es|
    requires Stage(r, src, false, mid, now, dest, es[..i], t)
    requires es[i].isDirectory && SafeName(es[i].name)
    ensures Stage(r, src, false, mid, now, dest, es[..i + 1], t)
  {
    var wanted := WantedKeys(r, src, false);
    PartNext(wanted, r, es, i, src);
    PartNext(RefusedKeys(r, src, false), r, es, i, src);
    SliceOfSkippedDir(r, es[i], src);
    assert Part(wanted, r, es[..i + 1], src) == Part(wanted, r, es[..i], src);
  }

  /** Before descending: the child is listable and nothing is in the way of its files. */
  lemma {:induction false} ChildIsReady(r: Remote, src: Path, mid: Local, now: Local, dest: Path,
                                        es: seq<RawEntry>, i: nat, t: Tally)
    requires Opened(r, src, true, es, mid, dest) && i < |es|
    requires Stage(r, src, true, mid, now, dest, es[..i], t)
    requires es[i].isDirectory && SafeName(es[i].name)
    ensures Ready(r, src + [es[i].name], true, now, dest + [es[i].name]) && src + [es[i].name] in r.dirs
  {
    var e := es[i];
    assert e in es;
    PartIsWanted(r, src, true, es[..i]);
    StillFits(r, src, true, mid, now, dest, Part(WantedKeys(r, src, true), r, es[..i], src));
    ChildFits(r, src, now, dest, e.name);
  }

  lemma {:induction false} ChildFits(r: Remote, src: Path, now: Local, dest: Path, name: string)
    requires Fits(r, src, true, now, dest) && SafeName(name) && src + [name] in r.dirs
    ensures Fits(r, src + [name], true, now, dest + [name])
  {
    var c, child := src + [name], dest + [name];
    assert c[|src|..] == [name] && Visited(src, true, c) && Moved(src, dest, c) == child;
    forall i | 0 <= i <= |child| ensures child[..i] !in now.files {
      if i <= |dest| {
        assert child[..i] == dest[..i];
      } else {
        assert child[..i] == child;
      }
    }
    forall k: Path | c < k
      ensures src < k && k[|src|..] == [name] + k[|c|..] && Moved(c, child, k) == Moved(src, dest, k)
    {
      assert k[|src|] == name;
    }
  }

  /** After descending: the child's files are the entry's slice. */
  lemma {:induction false} DirStep(r: Remote, src: Path, mid: Local, now: Local, next: Local, dest: Path,
                                   es: seq<RawEntry>, i: nat, t: Tally, inner: Tally)
    requires Opened(r, src, true, es, mid, dest) && i < |es|
    requires Stage(r, src, true, mid, now, dest, es[..i], t)
    requires es[i].isDirectory && SafeName(es[i].name)
    requires src + [es[i].name] in r.dirs
    requires DownloadedExactly(r, src + [es[i].name], true, now, next, dest + [es[i].name], inner)
    ensures Stage(r, src, true, mid, next, dest, es[..i + 1],
                  Tally(t.successes + inner.successes, t.failures + inner.failures))
  {
    var e := es[i];
    var c := src + [e.name];
    var wanted, inside := WantedKeys(r, src, true), WantedKeys(r, c, true);
    DirCount(r, src, es, i);
    PartNext(wanted, r, es, i, src);
    SliceOfDir(r, e, src);
    CopyFromChild(now.files, next.files, r.files, src, dest, e.name, inside);
    CopyMore(mid.files, now.files, next.files, r.files, src, dest, Part(wanted, r, es[..i], src), inside);
    ChildDirs(r, src, mid.dirs, now.dirs, next.dirs, dest, e.name);
  }

  lemma {:induction false} DirCount(r: Remote, src: Path, es: seq<RawEntry>, i: nat)
    requires IsListing(es, r, src) && NoClash(r, src) && i < |es| && es[i].isDirectory && SafeName(es[i].name)
    ensures var c := src + [es[i].name];
            var before := Count(r, src, true, es[..i]);
            Count(r, src, true, es[..i + 1]) ==
            Tally(before.successes + |WantedKeys(r, c, true)|, before.failures + |RefusedKeys(r, c, true)|)
  {
    PartNext(WantedKeys(r, src, true), r, es, i, src);
    PartNext(RefusedKeys(r, src, true), r, es, i, src);
    SliceOfDir(r, es[i], src);
  }

  lemma {:induction false} ChildDirs(r: Remote, src: Path, mid: set<Path>, now: set<Path>, next: set<Path>, dest: Path,
                                     name: string)
    requires src + [name] in r.dirs && NewDirs(r, src, mid, now, dest)
    requires Initials(dest, 0, |dest| + 1) <= mid && now <= next
    requires forall q | q in next ::
               q in now || q <= dest + [name] || IsMovedDir(q, r, src + [name], dest + [name])
    ensures NewDirs(r, src, mid, next, dest)
  {
    var c, child := src + [name], dest + [name];
    forall q: Path | q <= child && q != child ensures q in mid {
      assert q == dest[..|q|] && q in Initials(dest, 0, |dest| + 1);
    }
    forall q | q in next && q !in now ensures q in mid || IsMovedDir(q, r, src, dest) {
      if q == child {
        assert src < c && q == Moved(src, dest, c);
      } else {
        var d :| d in r.dirs && c < d && q == Moved(c, child, d);
        assert d[|src|] == name && d[|src|..] == [name] + d[|c|..];
        assert src < d && q == Moved(src, dest, d);
      }
    }
  }

  // ----- the download -----

  ghost function Longest(ps: set<Path>): (n: nat)
    ensures forall p | p in ps :: |p| <= n
  {
    if ps == {} then 0
    else
      var p :| p in ps;
      var n := Longest(ps - {p});
      assert forall q | q in ps :: q == p || q in ps - {p};
      if |p| > n then |p| else n
  }

  method DownloadDir(remote: FakeRemoteFs, src: Path, local: LocalFs, dest: Path, recursive: bool)
    returns (tally: Tally)
    modifies remote`listCount, remote`downloadCount, local
    decreases Longest(remote.dirs) - |src|, 2
    ensures Contained(old(local.Model()), local.Model(), dest)
    ensures old(Ready(remote.Model(), src, recursive, local.Model(), dest)) ==>
              DownloadedExactly(remote.Model(), src, recursive, old(local.Model()), local.Model(), dest, tally)
  {
    ghost var r := remote.Model();
    ghost var ready := Ready(r, src, recursive, local.Model(), dest);
    ContainedRefl(local.Model(), dest);
    var listing := remote.List(src);
    if listing.Err? {
      return Tally(0, 1);
    }
    var es := listing.value;
    var made := local.CreateDirAll(dest);
    if !made {
      return Tally(0, 1);
    }
    ghost var mid := local.Model();
    if ready { OpenedAfterMakeDirs(r, src, recursive, es, old(local.Model()), dest); }
    tally := DownloadEntries(remote, src, local, dest, recursive, es);
    ContainedAfterMakeDirs(old(local.Model()), local.Model(), dest);
    if ready {
      TracksToEnd(r, src, recursive, es, mid, local.Model(), dest, tally);
      LastStage(r, src, recursive, old(local.Model()), mid, local.Model(), dest, es, tally);
    }
  }

  /** After `n` entries the loop is on its track, if it started on it. */
  ghost predicate Tracks(r: Remote, src: Path, recursive: bool, es: seq<RawEntry>, mid: Local, now: Local, dest: Path,
                         n: nat, t: Tally)
  {
    n <= |es| && (Opened(r, src, recursive, es, mid, dest) ==> Stage(r, src, recursive, mid, now, dest, es[..n], t))
  }

  lemma TracksAtStart(r: Remote, src: Path, recursive: bool, es: seq<RawEntry>, mid: Local, dest: Path)
    ensures Tracks(r, src, recursive, es, mid, mid, dest, 0, Tally(0, 0))
  {
    EmptyStage(r, src, recursive, mid, dest);
    assert es[..0] == [];
  }

  lemma TracksToEnd(r: Remote, src: Path, recursive: bool, es: seq<RawEntry>, mid: Local, now: Local, dest: Path, t: Tally)
    requires Tracks(r, src, recursive, es, mid, now, dest, |es|, t) && Opened(r, src, recursive, es, mid, dest)
    ensures Stage(r, src, recursive, mid, now, dest, es, t)
  {
    assert es[..|es|] == es;
  }

  /** The loop over a listing. */
  method DownloadEntries(remote: FakeRemoteFs, src: Path, local: LocalFs, dest: Path, recursive: bool,
                         es: seq<RawEntry>) returns (tally: Tally)
    requires IsListing(es, remote.Model(), src)
    modifies remote`listCount, remote`downloadCount, local
    decreases Longest(remote.dirs) - |src|, 1
    ensures Contained(old(local.Model()), local.Model(), dest)
    ensures Tracks(remote.Model(), src, recursive, es, old(local.Model()), local.Model(), dest, |es|, tally)
  {
    ghost var r, mid := remote.Model(), local.Model();
    tally := Tally(0, 0);
    ContainedRefl(mid, dest);
    TracksAtStart(r, src, recursive, es, mid, dest);
    var i := 0;
    while i < |es|
      invariant 0 <= i <= |es|
      invariant remote.Model() == r
      invariant Contained(mid, local.Model(), dest)
      invariant Tracks(r, src, recursive, es, mid, local.Model(), dest, i, tally)
    {
      ghost var now := local.Model();
      tally := DownloadEntry(remote, src, local, dest, recursive, es, i, mid, tally);
      ContainedTrans(mid, now, local.Model(), dest);
      i := i + 1;
    }
  }

  lemma ContainedRefl(l: Local, dest: Path)
    ensures Contained(l, l, dest)
  {
  }

  /** The body of the loop over a listing. */
  method DownloadEntry(remote: FakeRemoteFs, src: Path, local: LocalFs, dest: Path, recursive: bool,
                       es: seq<RawEntry>, i: nat, ghost mid: Local, before: Tally) returns (tally: Tally)
    requires i < |es| && IsListing(es, remote.Model(), src)
    modifies remote`listCount, remote`downloadCount, local
    decreases Longest(remote.dirs) - |src|, 0
    ensures Contained(old(local.Model()), local.Model(), dest)
    ensures old(Tracks(remote.Model(), src, recursive, es, mid, local.Model(), dest, i, before)) ==>
              Tracks(remote.Model(), src, recursive, es, mid, local.Model(), dest, i + 1, tally)
  {
    ghost var r := remote.Model();
    ghost var now := local.Model();
    ghost var tracked := Opened(r, src, recursive, es, mid, dest) && Stage(r, src, recursive, mid, now, dest, es[..i], before);
    var e := es[i];
    assert e in es;
    tally := before;
    if !SafeName(e.name) {
      if tracked { UnsafeStep(r, src, recursive, mid, now, dest, es, i, before); }
      tally := tally.(failures := tally.failures + 1);
    } else if e.isDirectory {
      if recursive {
        if tracked { ChildIsReady(r, src, mid, now, dest, es, i, before); }
        var inner := DownloadDir(remote, src + [e.name], local, dest + [e.name], recursive);
        ContainedInChild(now, local.Model(), dest, e.name);
        if tracked { DirStep(r, src, mid, now, local.Model(), dest, es, i, before, inner); }
        tally := Tally(tally.successes + inner.successes, tally.failures + inner.failures);
      } else if tracked {
        SkippedDirStep(r, src, mid, now, dest, es, i, before);
      }
    } else {
      if tracked { FileStep(r, src, recursive, mid, now, dest, es, i, before); }
      DownloadIsContained(r, src + [e.name], now, dest, e.name);
      var outcome := DownloadFile(remote, src + [e.name], local, dest + [e.name]);
      if outcome.Ok? {
        tally := tally.(successes := tally.successes + 1);
      } else {
        tally := tally.(failures := tally.failures + 1);
      }
    }
  }

  lemma {:induction false} ContainedAfterMakeDirs(before: Local, after: Local, dest: Path)
    requires Contained(MakeDirs(before, dest), after, dest)
    ensures Contained(before, after, dest)
  {
  }

  lemma {:induction false} OpenedAfterMakeDirs(r: Remote, src: Path, recursive: bool, es: seq<RawEntry>, before: Local,
                                               dest: Path)
    requires Ready(r, src, recursive, before, dest) && IsListing(es, r, src)
    ensures Opened(r, src, recursive, es, MakeDirs(before, dest), dest)
  {
    forall k | k in WantedKeys(r, src, recursive) ensures Moved(src, dest, k) !in Initials(dest, 0, |dest| + 1) {
      assert |Moved(src, dest, k)| > |dest|;
    }
  }

  lemma {:induction false} EmptyStage(r: Remote, src: Path, recursive: bool, mid: Local, dest: Path)
    ensures Stage(r, src, recursive, mid, mid, dest, [], Tally(0, 0))
  {
    assert Part(WantedKeys(r, src, recursive), r, [], src) == {};
    assert Part(RefusedKeys(r, src, recursive), r, [], src) == {};
  }

  lemma {:induction false} LastStage(r: Remote, src: Path, recursive: bool, before: Local, mid: Local, after: Local,
                                     dest: Path, es: seq<RawEntry>, t: Tally)
    requires mid == MakeDirs(before, dest) && src in r.dirs
    requires Opened(r, src, recursive, es, mid, dest) && Stage(r, src, recursive, mid, after, dest, es, t)
    ensures DownloadedExactly(r, src, recursive, before, after, dest, t)
  {
    PartIsAll(WantedKeys(r, src, recursive), r, es, src);
    PartIsAll(RefusedKeys(r, src, recursive), r, es, src);
  }

  /** `run_download_all` without decompression. */
  method RunDownloadAll(remote: FakeRemoteFs, local: LocalFs, dest: Path, recursive: bool, srcRemote: Option<string>)
    returns (tally: Tally)
    modifies remote`listCount, remote`downloadCount, local
    ensures Contained(old(local.Model()), local.Model(), dest)
    ensures old(Ready(remote.Model(), PrefixSegments(srcRemote), recursive, local.Model(), dest)) ==>
              DownloadedExactly(remote.Model(), PrefixSegments(srcRemote), recursive,
                                old(local.Model()), local.Model(), dest, tally)
  {
    tally := DownloadDir(remote, PrefixSegments(srcRemote), local, dest, recursive);
  }
}
