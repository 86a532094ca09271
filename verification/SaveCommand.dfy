/**
 The save-all command from end to end: fetch the profile, walk, upload, push, invalidate (src/commands/mod.rs,
 src/commands/upload.rs), and which cached listings are stale afterwards.
 */
module SaveCommands {
  import opened Basics
  import opened Text
  import opened RemotePrefix
  import opened Profiles
  import opened ListCaches
  import opened AgentModel
  import opened AgentObjects
  import opened Writers
  import opened RemoteTrees
  import opened LocalWalk
  import opened SaveAll
  import Sorting
  import Decimal

  function ExitOf(end: SaveEnd): int
  {
    match end
    case CannotWalk => EXIT_USAGE
    case Done(tally) => if tally.failures > 0 then EXIT_PROVIDER_ERROR else EXIT_OK
  }

  /** How the operation of the command ends, and the remote it leaves. */
  function SaveEffect(r: Remote, root: Option<seq<Entry>>, recursive: bool, dest: Option<string>,
                      suffix: (string, nat) -> string): (Remote, SaveEnd)
  {
    if WalkedRoot(root, recursive).None? then (r, CannotWalk)
    else
      var s := SaveEach(r, PrefixSegments(dest), Selection(root, recursive), suffix);
      (s.remote, Done(s.tally))
  }

  /** `sa` and `sar` without compression; the provider may have refreshed its state on the way. */
  method SaveAllCommand(agent: AgentState, remote: FakeRemoteFs, root: Option<seq<Entry>>, recursive: bool,
                        dest: Option<string>, suffix: (string, nat) -> string, contact: Contact, scriptable: bool,
                        refreshed: Option<Provider>, env: Env, envs: (Env, Env)) returns (exit: int)
    modifies agent, agent.listCache, agent.clients, agent.file, remote
    ensures var (r', end) := SaveEffect(old(remote.Model()), root, recursive, dest, suffix);
            var (s1, fetched) := FetchEffect(old(agent.Model()), contact, scriptable, env);
            if fetched.Err? then exit == fetched.error && agent.Model() == s1 && remote.Model() == old(remote.Model())
            else
              && exit == (if end.CannotWalk? then 2 else if end.tally.failures > 0 then 9 else 0)
              && remote.Model() == r'
              && agent.Model() == FinishEffect(s1, fetched.value, exit, refreshed, Some(dest), envs)
  {
    var fetched := FetchProfile(agent, contact, scriptable, env);
    if fetched.Err? {
      return fetched.error;
    }
    var end := RunSaveAll(remote, root, recursive, dest, suffix);
    exit := ExitOf(end);
    FinishCommand(agent, fetched.value, exit, refreshed, Some(dest), envs);
  }

  // ----- the directories on the way -----

  /** A directory on the way to a saved file: it received that file or one of the directories above it. */
  ghost predicate OnTheWay(dir: Path, prefix: Path, fs: seq<LocalFile>)
  {
    exists f | f in fs :: dir < prefix + f.relative
  }

  /** The two remotes have the same entry of this path. */
  predicate SameEntry(a: Remote, b: Remote, p: Path)
  {
    && (p in a.files <==> p in b.files) && (p in a.files && p in b.files ==> a.files[p] == b.files[p])
    && (p in a.dirs <==> p in b.dirs)
  }

  lemma {:induction false} UploadChangesTheWay(r: Remote, key: Path, body: Bytes, suffix: (string, nat) -> string,
                                               dir: Path, name: string)
    requires key != [] && !(dir < key)
    ensures SameEntry(r, AfterUpload(r, key, body, Rename, suffix).0, dir + [name])
  {
    var p := dir + [name];
    var parent := key[..|key| - 1];
    assert p[..|dir|] == dir;
    forall n: string ensures p != parent + [n] {
      assert (parent + [n])[..|parent|] == parent;
    }
    if p in Initials(key, 1, |key|) {
      ChildOnTheWay(key, dir, name);
    }
  }

  lemma ChildOnTheWay(key: Path, dir: Path, name: string)
    requires dir + [name] in Initials(key, 1, |key|)
    ensures dir < key
  {
    var i :| 1 <= i < |key| && dir + [name] == key[..i];
    assert dir == key[..i][..i - 1] == key[..i - 1];
  }

  lemma LastFileChangesTheWay(r: Remote, prefix: Path, fs: seq<LocalFile>, suffix: (string, nat) -> string, dir: Path,
                              name: string)
    requires fs != [] && fs[|fs| - 1].relative != [] && !(dir < prefix + fs[|fs| - 1].relative)
    ensures SameEntry(SaveEach(r, prefix, fs[..|fs| - 1], suffix).remote, SaveEach(r, prefix, fs, suffix).remote,
                      dir + [name])
  {
    var f := fs[|fs| - 1];
    UploadChangesTheWay(SaveEach(r, prefix, fs[..|fs| - 1], suffix).remote, prefix + f.relative, f.body, suffix, dir,
                        name);
  }

  lemma SameEntryTrans(a: Remote, b: Remote, c: Remote, p: Path)
    requires SameEntry(a, b, p) && SameEntry(b, c, p)
    ensures SameEntry(a, c, p)
  {
  }

  /** A save-all changes the entries of directories on the way to its files, and of no others, renames included. */
  lemma {:induction false} OthersStayAsTheyWere(r: Remote, prefix: Path, fs: seq<LocalFile>,
                                                suffix: (string, nat) -> string, dir: Path, name: string)
    requires forall f | f in fs :: f.relative != []
    requires !OnTheWay(dir, prefix, fs)
    ensures SameEntry(r, SaveEach(r, prefix, fs, suffix).remote, dir + [name])
    decreases |fs|
  {
    if fs != [] {
      var n := |fs| - 1;
      assert fs[n] in fs && forall f | f in fs[..n] :: f in fs;
      OthersStayAsTheyWere(r, prefix, fs[..n], suffix, dir, name);
      LastFileChangesTheWay(r, prefix, fs, suffix, dir, name);
      SameEntryTrans(r, SaveEach(r, prefix, fs[..n], suffix).remote, SaveEach(r, prefix, fs, suffix).remote, dir + [name]);
    }
  }

  // ----- what the invalidation drops -----

  lemma {:induction false} DroppedExactly(m: CacheMap, dest: Option<string>, key: CacheKey)
    requires key in m
    ensures key !in Without(m, ChainToRoot(dest)) <==> CanonicalKey(key) && DirectoryOf(key) <= QuerySegments(dest)
  {
    match dest
    case Some(target) => InvalidationIsExact(m, target, key);
    case None =>
      if key.prefix.Some? && DirectoryOf(key) == [] {
        assert Join(Segments(key.prefix.value), '/') == "";
      }
  }

  // ----- which directories change -----

  /** Some entry of the directory is not what it was. */
  ghost predicate Changed(r: Remote, r': Remote, dir: Path) { exists name :: !SameEntry(r, r', dir + [name]) }

  lemma {:induction false} ChangedIsOnTheWay(r: Remote, prefix: Path, fs: seq<LocalFile>,
                                             suffix: (string, nat) -> string, dir: Path)
    requires forall f | f in fs :: f.relative != []
    requires Changed(r, SaveEach(r, prefix, fs, suffix).remote, dir)
    ensures OnTheWay(dir, prefix, fs)
  {
    var name :| !SameEntry(r, SaveEach(r, prefix, fs, suffix).remote, dir + [name]);
    if !OnTheWay(dir, prefix, fs) {
      OthersStayAsTheyWere(r, prefix, fs, suffix, dir, name);
    }
  }

  function ParentOf(key: Path): Path
    requires key != []
  {
    key[..|key| - 1]
  }

  /** A subdirectory of `dir` on the way to `key` that was not there before. */
  predicate NewSubdirectory(r: Remote, dir: Path, key: Path)
  {
    dir < key && |dir| + 1 < |key| && key[..|dir| + 1] !in r.dirs
  }

  /** The directory receives the file stored for `f`, or a new subdirectory on the way to it. */
  predicate Receives(r: Remote, dir: Path, key: Path)
    requires key != []
  {
    dir == ParentOf(key) || NewSubdirectory(r, dir, key)
  }

  /** What a save leaves and adds: nothing stored is touched, each file goes to its own directory, parents are made. */
  ghost predicate Grown(r: Remote, r': Remote, prefix: Path, fs: seq<LocalFile>)
  {
    && (forall k | k in r.files :: k in r'.files && r'.files[k] == r.files[k])
    && (forall k | k in r'.files && k !in r.files ::
          k != [] && exists f | f in fs :: prefix + f.relative != [] && ParentOf(prefix + f.relative) == ParentOf(k))
    && (forall d :: d in r'.dirs <==> d in r.dirs || IsParentOf(d, prefix, fs))
  }

  /** Every file was stored, under a name that was free. */
  ghost predicate AllStored(r: Remote, r': Remote, prefix: Path, fs: seq<LocalFile>)
  {
    forall f | f in fs :: prefix + f.relative != [] && HasNewFileIn(r, r', ParentOf(prefix + f.relative))
  }

  ghost predicate HasNewFileIn(r: Remote, r': Remote, dir: Path)
  {
    exists name :: dir + [name] in r'.files && dir + [name] !in r.files
  }

  lemma {:induction false} UploadGrows(r: Remote, mid: Remote, prefix: Path, fs: seq<LocalFile>, f: LocalFile,
                                       suffix: (string, nat) -> string)
    requires f.relative != [] && Grown(r, mid, prefix, fs)
    ensures Grown(r, AfterUpload(mid, prefix + f.relative, f.body, Rename, suffix).0, prefix, fs + [f])
  {
    var key, all := prefix + f.relative, fs + [f];
    var (next, outcome) := AfterUpload(mid, key, f.body, Rename, suffix);
    RenamePolicy(mid, key, f.body, suffix);
    assert f in all && forall g :: g in all <==> g in fs || g == f;
    forall k | k in next.files && k !in r.files
      ensures k != [] && exists g | g in all :: prefix + g.relative != [] && ParentOf(prefix + g.relative) == ParentOf(k)
    {
      if k !in mid.files {
        assert k == ParentOf(key) + [outcome.value.finalName];
        assert ParentOf(k) == ParentOf(key);
      }
    }
    forall d ensures d in next.dirs <==> d in r.dirs || IsParentOf(d, prefix, all) {
      InitialsAreParents(key, d);
      assert IsParentOf(d, prefix, all) <==> IsParentOf(d, prefix, fs) || (d < key && d != []);
    }
  }

  lemma {:induction false} UploadStores(r: Remote, mid: Remote, prefix: Path, fs: seq<LocalFile>, f: LocalFile,
                                        suffix: (string, nat) -> string)
    requires f.relative != [] && Grown(r, mid, prefix, fs) && AllStored(r, mid, prefix, fs)
    requires AfterUpload(mid, prefix + f.relative, f.body, Rename, suffix).1.Ok?
    ensures AllStored(r, AfterUpload(mid, prefix + f.relative, f.body, Rename, suffix).0, prefix, fs + [f])
  {
    var key := prefix + f.relative;
    var (next, outcome) := AfterUpload(mid, key, f.body, Rename, suffix);
    RenamePolicy(mid, key, f.body, suffix);
    assert ParentOf(key) + [outcome.value.finalName] in next.files;
    assert HasNewFileIn(r, next, ParentOf(key));
    OneMoreStored(r, mid, next, prefix, fs, f);
  }

  lemma {:induction false} OneMoreStored(r: Remote, mid: Remote, next: Remote, prefix: Path, fs: seq<LocalFile>,
                                         f: LocalFile)
    requires AllStored(r, mid, prefix, fs) && forall k | k in mid.files :: k in next.files
    requires prefix + f.relative != [] && HasNewFileIn(r, next, ParentOf(prefix + f.relative))
    ensures AllStored(r, next, prefix, fs + [f])
  {
    forall g | g in fs ensures prefix + g.relative != [] && HasNewFileIn(r, next, ParentOf(prefix + g.relative)) {
      var name :| ParentOf(prefix + g.relative) + [name] in mid.files && ParentOf(prefix + g.relative) + [name] !in r.files;
      assert ParentOf(prefix + g.relative) + [name] in next.files;
    }
  }

  lemma {:induction false} SavingGrows(r: Remote, prefix: Path, fs: seq<LocalFile>, suffix: (string, nat) -> string)
    requires forall f | f in fs :: f.relative != []
    ensures var s := SaveEach(r, prefix, fs, suffix);
            Grown(r, s.remote, prefix, fs) && (s.tally.failures == 0 ==> AllStored(r, s.remote, prefix, fs))
    decreases |fs|
  {
    if fs != [] {
      var n := |fs| - 1;
      var before, f := fs[..n], fs[n];
      assert f in fs && fs == before + [f] && forall g | g in before :: g in fs;
      SavingGrows(r, prefix, before, suffix);
      var mid := SaveEach(r, prefix, before, suffix);
      UploadGrows(r, mid.remote, prefix, before, f, suffix);
      if SaveEach(r, prefix, fs, suffix).tally.failures == 0 {
        UploadStores(r, mid.remote, prefix, before, f, suffix);
      }
    }
  }

  /**
   The directories a save without failures changes are exactly those that receive a file or a new subdirectory; one
   that only lies on the way is as it was.
   */
  lemma {:induction false} ChangedDirectories(r: Remote, prefix: Path, fs: seq<LocalFile>,
                                              suffix: (string, nat) -> string, dir: Path)
    requires forall f | f in fs :: f.relative != []
    requires SaveEach(r, prefix, fs, suffix).tally.failures == 0
    ensures Changed(r, SaveEach(r, prefix, fs, suffix).remote, dir) <==>
            exists f | f in fs :: prefix + f.relative != [] && Receives(r, dir, prefix + f.relative)
  {
    var r' := SaveEach(r, prefix, fs, suffix).remote;
    SavingGrows(r, prefix, fs, suffix);
    if Changed(r, r', dir) {
      var name :| !SameEntry(r, r', dir + [name]);
      ChangeIsReceived(r, r', prefix, fs, dir, name);
    }
    if f :| f in fs && prefix + f.relative != [] && Receives(r, dir, prefix + f.relative) {
      ReceivedIsChange(r, r', prefix, fs, dir, f);
    }
  }

  lemma {:induction false} ChangeIsReceived(r: Remote, r': Remote, prefix: Path, fs: seq<LocalFile>, dir: Path,
                                            name: string)
    requires Grown(r, r', prefix, fs) && !SameEntry(r, r', dir + [name])
    ensures exists f | f in fs :: prefix + f.relative != [] && Receives(r, dir, prefix + f.relative)
  {
    var p := dir + [name];
    assert ParentOf(p) == dir;
    if p in r'.files && p !in r.files {
      var f :| f in fs && prefix + f.relative != [] && ParentOf(prefix + f.relative) == ParentOf(p);
      assert Receives(r, dir, prefix + f.relative);
    } else {
      assert p in r'.dirs && p !in r.dirs;
      var f :| f in fs && p < prefix + f.relative && p != [];
      var key := prefix + f.relative;
      assert key[..|dir| + 1] == p && dir < key;
      assert Receives(r, dir, key);
    }
  }

  lemma {:induction false} ReceivedIsChange(r: Remote, r': Remote, prefix: Path, fs: seq<LocalFile>, dir: Path,
                                            f: LocalFile)
    requires Grown(r, r', prefix, fs) && AllStored(r, r', prefix, fs)
    requires f in fs && prefix + f.relative != [] && Receives(r, dir, prefix + f.relative)
    ensures Changed(r, r', dir)
  {
    if dir == ParentOf(prefix + f.relative) {
      NewFileIsChange(r, r', dir);
    } else {
      NewSubdirectoryIsChange(r, r', dir, prefix + f.relative, prefix, fs, f);
    }
  }

  lemma NewFileIsChange(r: Remote, r': Remote, dir: Path)
    requires HasNewFileIn(r, r', dir)
    ensures Changed(r, r', dir)
  {
    var name :| dir + [name] in r'.files && dir + [name] !in r.files;
    assert !SameEntry(r, r', dir + [name]);
  }

  lemma NewSubdirectoryIsChange(r: Remote, r': Remote, dir: Path, key: Path, prefix: Path, fs: seq<LocalFile>,
                                f: LocalFile)
    requires Grown(r, r', prefix, fs) && f in fs && key == prefix + f.relative && NewSubdirectory(r, dir, key)
    ensures Changed(r, r', dir)
  {
    var sub := key[..|dir| + 1];
    assert sub == dir + [key[|dir|]] && sub < key;
    assert IsParentOf(sub, prefix, fs);
    assert !SameEntry(r, r', dir + [key[|dir|]]);
  }

  // ----- which cached listings are left -----

  /** Uploads and listings spell the destination alike: it has no `.` or `..` component. */
  predicate PlainDest(dest: Option<string>) { PrefixSegments(dest) == QuerySegments(dest) }

  lemma {:induction false} FilterAlike(f: string -> bool, g: string -> bool, xs: seq<string>)
    requires forall x | x in xs :: f(x) <==> g(x)
    ensures Filter(f, xs) == Filter(g, xs)
  {
    if xs != [] {
      FilterAlike(f, g, xs[1..]);
    }
  }

  /** A destination as the grammar leaves it is plain unless it names `.` or `..`. */
  lemma {:induction false} TypedDestIsPlain(dest: string)
    requires !StartsWithChar(dest, '/') && !EndsWithChar(dest, '/')
    requires forall p | p in Split(dest, '/') :: p != "." && p != ".."
    ensures PlainDest(Some(dest))
  {
    TrimmedEnds(dest, '/');
    FilterAlike((piece: string) => piece != "", IsSegment, Split(dest, '/'));
  }

  lemma WayIsAboveOrBelow(dir: Path, prefix: Path, fs: seq<LocalFile>)
    requires OnTheWay(dir, prefix, fs)
    ensures dir <= prefix || prefix < dir
  {
    var f :| f in fs && dir < prefix + f.relative;
    var whole := prefix + f.relative;
    if |dir| <= |prefix| {
      assert dir == whole[..|dir|] == prefix[..|dir|];
    } else {
      assert dir[..|prefix|] == whole[..|prefix|] == prefix;
    }
  }

  /** A cached listing of a directory that is no longer as it was listed. */
  ghost predicate Stale(m: CacheMap, key: CacheKey, r: Remote, r': Remote)
  {
    key in m && Changed(r, r', DirectoryOf(key))
  }

  /** A cached listing of a changed directory that the invalidation of `prefix` does not reach. */
  ghost predicate StaleBelow(m: CacheMap, key: CacheKey, prefix: Path, r: Remote, r': Remote)
  {
    Stale(m, key, r, r') && prefix < DirectoryOf(key)
  }

  /**
   After a save below `dest` and the invalidation of `dest`: a cached listing that does not show its directory as it is
   now is left iff there was one of a directory strictly below the destination, canonical keys and a plain destination
   provided.
   */
  lemma {:induction false} StaleListingsLeft(m: CacheMap, r: Remote, dest: Option<string>, fs: seq<LocalFile>,
                                             suffix: (string, nat) -> string)
    requires PlainDest(dest) && (forall k | k in m :: CanonicalKey(k)) && forall f | f in fs :: f.relative != []
    ensures var r' := SaveEach(r, PrefixSegments(dest), fs, suffix).remote;
            (forall k :: !Stale(Without(m, ChainToRoot(dest)), k, r, r')) <==>
            (forall k :: !StaleBelow(m, k, PrefixSegments(dest), r, r'))
  {
    var prefix := PrefixSegments(dest);
    var r' := SaveEach(r, prefix, fs, suffix).remote;
    var left := Without(m, ChainToRoot(dest));
    forall k ensures Stale(left, k, r, r') <==> StaleBelow(m, k, prefix, r, r') {
      if k in m {
        DroppedExactly(m, dest, k);
        if Changed(r, r', DirectoryOf(k)) {
          ChangedIsOnTheWay(r, prefix, fs, suffix, DirectoryOf(k));
          WayIsAboveOrBelow(DirectoryOf(k), prefix, fs);
        }
      }
    }
  }

  /** The same for keys and destinations of any spelling. */
  lemma {:induction false} StaleListingsByKey(m: CacheMap, r: Remote, r': Remote, dest: Option<string>, key: CacheKey)
    ensures Stale(Without(m, ChainToRoot(dest)), key, r, r') <==>
            Stale(m, key, r, r') && !(CanonicalKey(key) && DirectoryOf(key) <= QuerySegments(dest))
  {
    if key in m {
      DroppedExactly(m, dest, key);
    }
  }

  /** Without recursion nothing lies below the destination, so no stale listing is left. */
  lemma {:induction false} TopLevelSaveLeavesNothingStale(m: CacheMap, r: Remote, dest: Option<string>,
                                                          root: Option<seq<Entry>>, suffix: (string, nat) -> string)
    requires PlainDest(dest) && forall k | k in m :: CanonicalKey(k)
    ensures var r' := SaveEach(r, PrefixSegments(dest), Selection(root, false), suffix).remote;
            forall k :: !Stale(Without(m, ChainToRoot(dest)), k, r, r')
  {
    var prefix, fs := PrefixSegments(dest), Selection(root, false);
    var r' := SaveEach(r, prefix, fs, suffix).remote;
    SelectedPathsAreNonEmpty(root, false);
    StaleListingsLeft(m, r, dest, fs, suffix);
    forall k | StaleBelow(m, k, prefix, r, r') ensures false {
      ChangedIsOnTheWay(r, prefix, fs, suffix, DirectoryOf(k));
      var f :| f in fs && DirectoryOf(k) < prefix + f.relative;
      TopLevelFiles(root, f);
      assert false;
    }
  }

  lemma {:induction false} TopLevelFiles(root: Option<seq<Entry>>, f: LocalFile)
    requires f in Selection(root, false)
    ensures |f.relative| == 1
  {
    SelectionIsTheWalk(root, false);
    WalkSelects(root.value, [], false, f.relative, f.body);
    assert LocalFile([] + f.relative, f.body) == f;
  }

  lemma SelectionIsTheWalk(root: Option<seq<Entry>>, recursive: bool)
    ensures WalkedRoot(root, recursive).Some? ==>
              forall f :: f in Selection(root, recursive) <==> f in WalkedRoot(root, recursive).value
  {
    if WalkedRoot(root, recursive).Some? {
      Sorting.SortPermutes(WalkedRoot(root, recursive).value, FileLe);
    }
  }

  lemma {:induction false} SelectedPathsAreNonEmpty(root: Option<seq<Entry>>, recursive: bool)
    ensures forall f | f in Selection(root, recursive) :: f.relative != []
  {
    SelectionIsTheWalk(root, recursive);
    if WalkedRoot(root, recursive).Some? {
      WalkedIsBelow(root.value, [], recursive);
    }
  }

  /** The whole command with exit code 0: the stale listings in the cache are exactly those below the destination. */
  lemma {:induction false} SavedCommandCache(s: Agent, r: Remote, root: Option<seq<Entry>>, recursive: bool,
                                             dest: Option<string>, suffix: (string, nat) -> string, profile: Profile,
                                             refreshed: Option<Provider>, envs: (Env, Env), key: CacheKey)
    requires var m := AfterRefresh(s, profile, refreshed, envs.0).cache;
             PlainDest(dest) && forall k | k in m :: CanonicalKey(k)
    requires ExitOf(SaveEffect(r, root, recursive, dest, suffix).1) == EXIT_OK
    ensures var m := AfterRefresh(s, profile, refreshed, envs.0).cache;
            var r' := SaveEffect(r, root, recursive, dest, suffix).0;
            var left := FinishEffect(s, profile, EXIT_OK, refreshed, Some(dest), envs).cache;
            Stale(left, key, r, r') <==> StaleBelow(m, key, PrefixSegments(dest), r, r')
  {
    var m := AfterRefresh(s, profile, refreshed, envs.0).cache;
    var prefix, fs := PrefixSegments(dest), Selection(root, recursive);
    var r' := SaveEffect(r, root, recursive, dest, suffix).0;
    StaleListingsByKey(m, r, r', dest, key);
    if Stale(m, key, r, r') {
      SelectedPathsAreNonEmpty(root, recursive);
      ChangedIsOnTheWay(r, prefix, fs, suffix, DirectoryOf(key));
      WayIsAboveOrBelow(DirectoryOf(key), prefix, fs);
    }
  }

  /** With any other exit code nothing is invalidated, whatever was stored: the agent is as after the refresh. */
  lemma FailureInvalidatesNothing(s: Agent, profile: Profile, exit: int, refreshed: Option<Provider>,
                                  invalidate: Option<Option<string>>, envs: (Env, Env))
    ensures exit != EXIT_OK ==>
              FinishEffect(s, profile, exit, refreshed, invalidate, envs) == AfterRefresh(s, profile, refreshed, envs.0)
    ensures exit == EXIT_OK && invalidate.Some? ==>
              FinishEffect(s, profile, exit, refreshed, invalidate, envs).cache ==
              Without(AfterRefresh(s, profile, refreshed, envs.0).cache, ChainToRoot(invalidate.value))
  {
  }

  // ----- how it goes wrong -----

  const NESTED := CacheKey(Some("backup/snap"), Both)

  /** The remote with `backup/snap` in it and nothing else. */
  const SNAPSHOTS := Remote(map[], {[], ["backup"], ["backup", "snap"]})

  lemma TwoSegments(a: string, b: string)
    requires Clean([a, b])
    ensures Segments(a + ['/'] + b) == [a, b] && Canonical(a + ['/'] + b)
  {
    SegmentsOfJoin([a, b]);
    assert [a, b][1..] == [b];
    assert Join([a, b], '/') == a + ['/'] + b;
  }

  lemma NestedSegments()
    ensures DirectoryOf(NESTED) == ["backup", "snap"] && CanonicalKey(NESTED)
  {
    TwoSegments("backup", "snap");
    assert "backup" + ['/'] + "snap" == "backup/snap";
  }

  lemma BackupSegments()
    ensures PrefixSegments(Some("backup")) == ["backup"] && PlainDest(Some("backup"))
  {
    SegmentsOfJoin(["backup"]);
    SplitPiece("backup", "", '/');
  }

  /** The listing of a directory just below the destination, after one file was saved into it. */
  lemma {:induction false} ListingJustBelowStays(r: Remote, dest: Option<string>, key: CacheKey, e: CacheEntry,
                                                 sub: string, leaf: string, body: Bytes, suffix: (string, nat) -> string)
    requires PlainDest(dest) && CanonicalKey(key) && DirectoryOf(key) == PrefixSegments(dest) + [sub]
    requires DirectoryOf(key) + [leaf] !in r.files
    ensures var s := SaveEach(r, PrefixSegments(dest), [LocalFile([sub, leaf], body)], suffix);
            s.tally == Tally(1, 0) && Stale(Without(map[key := e], ChainToRoot(dest)), key, r, s.remote)
  {
    var prefix, f := PrefixSegments(dest), LocalFile([sub, leaf], body);
    var fs := [f];
    var file := prefix + f.relative;
    assert file == DirectoryOf(key) + [leaf] && ParentOf(file) == DirectoryOf(key);
    assert fs[..0] == [] && f in fs;
    FreeNameIsKept(r, file, body, suffix);
    assert SaveEach(r, prefix, fs, suffix) == SaveOne(SaveEach(r, prefix, [], suffix), prefix, f, suffix);
    ChangedDirectories(r, prefix, fs, suffix, DirectoryOf(key));
    assert Receives(r, DirectoryOf(key), file);
    StaleListingsByKey(map[key := e], r, SaveEach(r, prefix, fs, suffix).remote, dest, key);
  }

  /** `sar . backup` that stores `snap/file.md`, with `backup/snap` cached: the listing is of no use and stays. */
  lemma {:induction false} NestedListingSurvives(e: CacheEntry, body: Bytes, suffix: (string, nat) -> string)
    ensures CanonicalKey(NESTED)
    ensures var s := SaveEach(SNAPSHOTS, PrefixSegments(Some("backup")), [LocalFile(["snap", "file.md"], body)], suffix);
            && s.tally == Tally(1, 0)
            && Stale(Without(map[NESTED := e], ChainToRoot(Some("backup"))), NESTED, SNAPSHOTS, s.remote)
  {
    NestedSegments();
    BackupSegments();
    ListingJustBelowStays(SNAPSHOTS, Some("backup"), NESTED, e, "snap", "file.md", body, suffix);
  }

  /**
   A batch with a failure invalidates nothing although the other files were stored: one name with all its renames taken,
   another free, and the listing of the destination stays.
   */
  lemma {:induction false} FailedBatchLeavesStaleListing(s: Agent, r: Remote, dest: Option<string>, a: string, b: string,
                                                         body: Bytes, suffix: (string, nat) -> string,
                                                         profile: Profile, envs: (Env, Env), key: CacheKey)
    requires AllTaken(r.files, PrefixSegments(dest), a, suffix) && PrefixSegments(dest) + [b] !in r.files
    requires key in s.cache && DirectoryOf(key) == PrefixSegments(dest)
    ensures var saved := SaveEach(r, PrefixSegments(dest), [LocalFile([a], body), LocalFile([b], body)], suffix);
            && PrefixSegments(dest) + [b] in saved.remote.files && saved.tally == Tally(1, 1)
            && Stale(FinishEffect(s, profile, ExitOf(Done(saved.tally)), None, Some(dest), envs).cache, key,
                     r, saved.remote)
  {
    var prefix := PrefixSegments(dest);
    var f, g := LocalFile([a], body), LocalFile([b], body);
    var fs := [f, g];
    assert fs[..1] == [f] && [f][..0] == [];
    var key1, key2 := prefix + [a], prefix + [b];
    assert key1[..|key1| - 1] == prefix && key2[..|key2| - 1] == prefix;
    var one := SaveEach(r, prefix, [f], suffix);
    assert one == SaveOne(SaveEach(r, prefix, [], suffix), prefix, f, suffix);
    RenamePolicy(r, key1, body, suffix);
    assert one.remote.files == r.files && one.tally == Tally(0, 1);
    FreeNameIsKept(one.remote, key2, body, suffix);
    var r' := SaveEach(r, prefix, fs, suffix).remote;
    assert !SameEntry(r, r', DirectoryOf(key) + [b]);
  }

  /** A numbering of renames, for the sake of an example. */
  function Numbered(): (string, nat) -> string { (leaf: string, n: nat) => leaf + Decimal.Print(n) }

  function RenamesOfA(): set<Path> { set n | 0 <= n <= MAX_RENAMES :: [Candidate(Numbered(), "a", n)] }

  /** A root with `a` and every rename of it taken. */
  function Crowded(body: Bytes): Remote { Remote(map p | p in RenamesOfA() :: body, {[]}) }

  /** Saving `a` and `b` at such a root: `b` is stored, `a` is not, and the cached listing of the root stays. */
  lemma {:induction false} CrowdedBatchLeavesStaleListing(s: Agent, e: CacheEntry, body: Bytes, profile: Profile,
                                                          envs: (Env, Env))
    requires s.cache == map[CacheKey(None, Both) := e]
    ensures var saved := SaveEach(Crowded(body), [], [LocalFile(["a"], body), LocalFile(["b"], body)], Numbered());
            && ["b"] in saved.remote.files && saved.tally == Tally(1, 1)
            && Stale(FinishEffect(s, profile, ExitOf(Done(saved.tally)), None, Some(None), envs).cache,
                     CacheKey(None, Both), Crowded(body), saved.remote)
  {
    var r, suffix := Crowded(body), Numbered();
    var none: Path := [];
    forall n | 0 <= n <= MAX_RENAMES ensures Taken(r.files, [], "a", suffix, n) && none + ["b"] != [Candidate(suffix, "a", n)] {
      assert none + [Candidate(suffix, "a", n)] == [Candidate(suffix, "a", n)];
      assert Candidate(suffix, "a", n)[0] == 'a' && "b"[0] == 'b';
      assert none + ["b"] == ["b"] && ["b"][0] != [Candidate(suffix, "a", n)][0];
    }
    assert none + ["b"] == ["b"];
    FailedBatchLeavesStaleListing(s, r, None, "a", "b", body, suffix, profile, envs, CacheKey(None, Both));
  }
}
