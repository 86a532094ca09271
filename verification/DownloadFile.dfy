/** Downloading the files named on the command line (src/commands/download.rs). */
module DownloadFiles {
  import opened Basics
  import opened Text
  import opened Utf8
  import opened Sorting
  import opened RemoteTrees
  import opened LocalWalk
  import opened SaveAll
  import opened Download
  import opened Glob
  import opened UserPaths

  function LeafOf(path: Path): string
    requires path != []
  {
    path[|path| - 1]
  }

  /** One argument taken literally: where it lands, and how the tally counts it; a hidden file is only skipped. */
  function FetchOne(r: Remote, arg: string, l: Local, dest: Path): (Local, Tally)
  {
    match PathOf(arg)
    case None => (l, if RefusalOf(Split(arg, '/')).Dotfile? then Tally(0, 0) else Tally(0, 1))
    case Some(path) =>
      var (l', outcome) := AfterDownload(r, path, l, dest + [LeafOf(path)]);
      (l', if outcome.Ok? then Tally(1, 0) else Tally(0, 1))
  }

  function Plus(a: Tally, b: Tally): Tally { Tally(a.successes + b.successes, a.failures + b.failures) }

  function FetchAll(r: Remote, args: seq<string>, l: Local, dest: Path): (Local, Tally)
  {
    if args == [] then (l, Tally(0, 0))
    else
      var (l1, t1) := FetchAll(r, args[..|args| - 1], l, dest);
      var (l2, t2) := FetchOne(r, args[|args| - 1], l1, dest);
      (l2, Plus(t1, t2))
  }

  /** `download_one`. */
  method DownloadOne(remote: FakeRemoteFs, arg: string, local: LocalFs, dest: Path, before: Tally)
    returns (tally: Tally)
    modifies remote`downloadCount, local
    ensures var (l, t) := FetchOne(remote.Model(), arg, old(local.Model()), dest);
            local.Model() == l && tally == Plus(before, t)
  {
    var split := SplitUserPath(arg);
    if split.Err? {
      return if split.error.Dotfile? then before else before.(failures := before.failures + 1);
    }
    var basename := LeafOf(split.value);
    var outcome := DownloadFile(remote, split.value, local, dest + [basename]);
    return if outcome.Ok? then before.(successes := before.successes + 1)
           else before.(failures := before.failures + 1);
  }

  /** What an argument stands for: itself, or with a glob in its last component the matching files of its parent. */
  ghost predicate IsExpansion(r: Remote, arg: string, args: Option<seq<string>>)
  {
    if !HasGlob(arg) || HasGlob(ParentOf(arg)) then args == Some([arg])
    else if PrefixSegments(Some(ParentOf(arg))) !in r.dirs then args == None
    else
      && args.Some? && (forall s :: s in args.value <==> Expands(r.files, arg, s))
      && Sorted(args.value, StringLe) && Distinct(args.value)
  }

  /** What `run_download` does for one of its arguments. */
  method DownloadArgument(remote: FakeRemoteFs, arg: string, local: LocalFs, dest: Path, before: Tally)
    returns (tally: Tally, ghost args: Option<seq<string>>)
    modifies remote`listCount, remote`downloadCount, local
    ensures IsExpansion(remote.Model(), arg, args)
    ensures var (l, t) := if args.None? || args.value == [] then (old(local.Model()), Tally(0, 1))
                          else FetchAll(remote.Model(), args.value, old(local.Model()), dest);
            local.Model() == l && tally == Plus(before, t)
  {
    if !HasGlob(arg) {
      tally := DownloadOne(remote, arg, local, dest, before);
      args := Some([arg]);
      FetchSingle(remote.Model(), arg, old(local.Model()), dest);
      return;
    }
    var expanded := ExpandRemoteGlob(remote, arg);
    if expanded.Err? {
      return before.(failures := before.failures + 1), None;
    }
    var matches := expanded.value;
    args := Some(matches);
    if matches == [] {
      return before.(failures := before.failures + 1), args;
    }
    tally := before;
    for i := 0 to |matches|
      invariant remote.Model() == old(remote.Model())
      invariant var (l, t) := FetchAll(remote.Model(), matches[..i], old(local.Model()), dest);
                local.Model() == l && tally == Plus(before, t)
    {
      assert matches[..i + 1][..i] == matches[..i];
      tally := DownloadOne(remote, matches[i], local, dest, tally);
    }
    assert matches[..|matches|] == matches;
  }

  lemma FetchSingle(r: Remote, arg: string, l: Local, dest: Path)
    ensures FetchAll(r, [arg], l, dest) == FetchOne(r, arg, l, dest)
  {
    assert [arg][..0] == [];
  }

  // ----- a stored file by its own name -----

  /** Joining the components of a path: its last one is the pattern, the others are the parent. */
  lemma {:induction false} JoinedParts(path: Path)
    requires Nameable(path)
    ensures PatternOf(Join(path, '/')) == LeafOf(path)
    ensures ParentOf(Join(path, '/')) == Join(path[..|path| - 1], '/')
    ensures path[..|path| - 1] == [] ==> Join(path, '/') == LeafOf(path)
    ensures path[..|path| - 1] != [] ==>
              Join(path, '/') == Join(path[..|path| - 1], '/') + "/" + LeafOf(path)
  {
    var init, leaf := path[..|path| - 1], LeafOf(path);
    assert path == init + [leaf] && leaf in path;
    if init == [] {
      assert path == [leaf];
    } else {
      JoinLast(init, leaf);
      SlashedParts(Join(init, '/'), leaf);
    }
  }

  lemma SlashedParts(head: string, tail: string)
    requires Free(tail, '/')
    ensures PatternOf(head + "/" + tail) == tail && ParentOf(head + "/" + tail) == head
  {
    LastSlash(head, tail);
    var s := head + "/" + tail;
    assert s[..|head|] == head && s[|head| + 1..] == tail;
  }

  lemma {:induction false} JoinLast(init: Path, last: string)
    requires init != []
    ensures Join(init + [last], '/') == Join(init, '/') + "/" + last
  {
    if |init| == 1 {
      assert (init + [last])[1..] == [last];
    } else {
      assert (init + [last])[1..] == init[1..] + [last];
      JoinLast(init[1..], last);
    }
  }

  lemma {:induction false} LastSlash(head: string, tail: string)
    requires Free(tail, '/')
    ensures LastIndex(head + "/" + tail, '/') == Some(|head|)
    decreases |tail|
  {
    var s := head + "/" + tail;
    if tail == "" {
      assert s[|s| - 1] == '/';
    } else {
      var m := |tail| - 1;
      assert tail[m] in tail && forall c | c in tail[..m] :: c in tail;
      assert s[|s| - 1] == tail[m] && s[..|s| - 1] == head + "/" + tail[..m];
      LastSlash(head, tail[..m]);
    }
  }

  lemma {:induction false} CleanParent(path: Path)
    requires Nameable(path)
    ensures PrefixSegments(Some(Join(path[..|path| - 1], '/'))) == path[..|path| - 1]
  {
    var init := path[..|path| - 1];
    var piece := (piece: string) => piece != "";
    assert forall p | p in init :: p in path;
    if init == [] {
      assert Split("", '/') == [""];
    } else {
      assert AllFree(init, '/');
      SplitJoin(init, '/');
      FilterAll(piece, init);
    }
  }

  lemma JoinIsFullName(path: Path)
    requires Nameable(path)
    ensures Join(path, '/') == FullName(Join(path[..|path| - 1], '/'), LeafOf(path))
  {
    JoinedParts(path);
    if path[..|path| - 1] != [] {
      assert path[0] in path && path[..|path| - 1][0] == path[0];
      assert Join(path[..|path| - 1], '/') != "";
    }
  }

  /** Another stored file of the same directory that the name of `path` matches when it is read as a pattern. */
  ghost predicate AlsoMatches(files: map<Path, Bytes>, path: Path, k: Path)
    requires path != []
  {
    && k in files && |k| == |path| && k != path && k[..|k| - 1] == path[..|path| - 1]
    && GlobMatch(LeafOf(path), LeafOf(k))
  }

  /** A stored file of the directory of `path` whose name matches its last component; `s` is how it is spelled. */
  ghost predicate Spells(files: map<Path, Bytes>, path: Path, k: Path, s: string)
    requires path != []
  {
    && k in files && |k| == |path| && k[..|k| - 1] == path[..|path| - 1] && GlobMatch(LeafOf(path), LeafOf(k))
    && s == FullName(Join(path[..|path| - 1], '/'), LeafOf(k))
  }

  lemma SameDirectory(init: Path, k: Path)
    requires |k| == |init| + 1
    ensures init < k <==> k[..|k| - 1] == init
  {
  }

  lemma {:induction false} ExpandsByName(files: map<Path, Bytes>, path: Path, s: string)
    requires Nameable(path)
    ensures Expands(files, Join(path, '/'), s) <==> exists k :: Spells(files, path, k, s)
  {
    JoinedParts(path);
    CleanParent(path);
    var arg, init := Join(path, '/'), path[..|path| - 1];
    assert PrefixSegments(Some(ParentOf(arg))) == init && PatternOf(arg) == LeafOf(path);
    if Expands(files, arg, s) {
      var k :| k in files && |k| == |init| + 1 && init < k && GlobMatch(LeafOf(path), k[|k| - 1])
               && s == FullName(ParentOf(arg), k[|k| - 1]);
      SameDirectory(init, k);
      assert Spells(files, path, k, s);
    }
    if k :| Spells(files, path, k, s) {
      SameDirectory(init, k);
      assert k in files && |k| == |init| + 1 && init < k && GlobMatch(PatternOf(arg), k[|k| - 1]);
    }
  }

  /**
   A stored file named by its own path is always among the files fetched, `*` and `?` in its name or not; it is the only
   one iff no glob is read in it or no other file of its directory matches.
   */
  lemma {:induction false} StoredFileIsExpanded(r: Remote, path: Path, args: Option<seq<string>>)
    requires Listable(r) && Nameable(path) && path in r.files
    requires IsExpansion(r, Join(path, '/'), args)
    ensures args.Some? && Join(path, '/') in args.value
    ensures args.value == [Join(path, '/')] <==>
            || !HasGlob(Join(path, '/')) || HasGlob(ParentOf(Join(path, '/')))
            || (forall k :: !AlsoMatches(r.files, path, k))
  {
    var arg := Join(path, '/');
    if HasGlob(arg) && !HasGlob(ParentOf(arg)) {
      JoinedParts(path);
      CleanParent(path);
      JoinIsFullName(path);
      MatchesItself(Encode(LeafOf(path)));
      assert PrefixSegments(Some(ParentOf(arg))) in r.dirs;
      ExpandsByName(r.files, path, arg);
      assert Spells(r.files, path, path, arg);
      assert Expands(r.files, arg, arg);
      AloneIffNoOther(r.files, path, args.value);
    }
  }

  /** The expansion of a stored file's name is that name alone iff no other file matches. */
  lemma {:induction false} AloneIffNoOther(files: map<Path, Bytes>, path: Path, names: seq<string>)
    requires Nameable(path) && Join(path, '/') in names && Distinct(names)
    requires forall s :: s in names <==> Expands(files, Join(path, '/'), s)
    ensures names == [Join(path, '/')] <==> forall k :: !AlsoMatches(files, path, k)
  {
    var arg := Join(path, '/');
    if k :| AlsoMatches(files, path, k) {
      OtherIsNamed(files, path, k, names);
    } else {
      forall s | s in names ensures s == arg {
        ExpandsByName(files, path, s);
        var k :| Spells(files, path, k, s);
        JoinIsFullName(path);
        assert !AlsoMatches(files, path, k);
      }
      OnlyOne(names, arg);
    }
  }

  lemma {:induction false} OtherIsNamed(files: map<Path, Bytes>, path: Path, k: Path, names: seq<string>)
    requires Nameable(path) && AlsoMatches(files, path, k)
    requires forall s :: s in names <==> Expands(files, Join(path, '/'), s)
    ensures exists s | s in names :: s != Join(path, '/')
  {
    var s := FullName(Join(path[..|path| - 1], '/'), LeafOf(k));
    assert Spells(files, path, k, s);
    ExpandsByName(files, path, s);
    OtherName(path, k);
    assert s in names;
  }

  lemma OtherName(path: Path, k: Path)
    requires Nameable(path) && |k| == |path| && k != path && k[..|k| - 1] == path[..|path| - 1]
    ensures FullName(Join(path[..|path| - 1], '/'), LeafOf(k)) != Join(path, '/')
  {
    JoinIsFullName(path);
    OtherLeaf(path, k);
    var parent := Join(path[..|path| - 1], '/');
    if FullName(parent, LeafOf(k)) == FullName(parent, LeafOf(path)) {
      FullNameInjective(parent, LeafOf(k), LeafOf(path));
    }
  }

  lemma OtherLeaf(path: Path, k: Path)
    requires path != [] && |k| == |path| && k != path && k[..|k| - 1] == path[..|path| - 1]
    ensures LeafOf(k) != LeafOf(path)
  {
    assert k == k[..|k| - 1] + [LeafOf(k)] && path == path[..|path| - 1] + [LeafOf(path)];
  }

  lemma OnlyOne(xs: seq<string>, x: string)
    requires x in xs && Distinct(xs) && forall y | y in xs :: y == x
    ensures xs == [x]
  {
    assert xs[0] in xs && xs[|xs| - 1] in xs;
  }

  // ----- it arrives -----

  /** The place for the file `leaf`: the directory can be made, and no directory has the file's name. */
  predicate Roomy(l: Local, dest: Path, leaf: string) { CanMakeDirs(l, dest) && dest + [leaf] !in l.dirs }

  lemma {:induction false} FetchKeepsRoom(r: Remote, arg: string, l: Local, dest: Path, leaf: string)
    requires Roomy(l, dest, leaf)
    ensures Roomy(FetchOne(r, arg, l, dest).0, dest, leaf)
  {
    if PathOf(arg).Some? {
      var target := dest + [LeafOf(PathOf(arg).value)];
      assert target[..|target| - 1] == dest;
      forall i | 0 <= i <= |dest| ensures dest[..i] != target {
      }
    }
  }

  /** A file named by its own path arrives, under its last component and with its bytes, iff there is room for it. */
  lemma {:induction false} NamedFileArrives(r: Remote, path: Path, l: Local, dest: Path)
    requires Nameable(path) && path in r.files
    ensures var (l', t) := FetchOne(r, Join(path, '/'), l, dest);
            && t == (if Roomy(l, dest, LeafOf(path)) then Tally(1, 0) else Tally(0, 1))
            && (Roomy(l, dest, LeafOf(path)) ==>
                  && dest + [LeafOf(path)] in l'.files && l'.files[dest + [LeafOf(path)]] == r.files[path])
  {
    NameablePathsAreNamed(path);
    var target := dest + [LeafOf(path)];
    assert target[..|target| - 1] == dest;
    assert dest == dest[..|dest|] && dest in Initials(dest, 0, |dest| + 1);
    assert target !in Initials(dest, 0, |dest| + 1);
  }

  /**
   One argument taken literally: a hidden component and nothing worse is passed over, any other refusal is a failure; a
   path is stored under its last component iff there is such a file and room for it, else it is a failure and no file
   changes.
   */
  lemma {:induction false} LiteralArgument(r: Remote, arg: string, l: Local, dest: Path)
    ensures var (l', t) := FetchOne(r, arg, l, dest);
            var path := Filter(IsComponent(), Split(arg, '/'));
            if path != [] && forall p | p in path :: !BeginsWithDot(p) then
              if path in r.files && Roomy(l, dest, LeafOf(path))
              then t == Tally(1, 0) && l'.files == l.files[dest + [LeafOf(path)] := r.files[path]]
              else t == Tally(0, 1) && l'.files == l.files
            else
              && l' == l
              && t == if exists i: nat :: FirstDotAt(path, i) && path[i] != ".." then Tally(0, 0) else Tally(0, 1)
  {
    ArgumentIsRead(arg);
    var path := Filter(IsComponent(), Split(arg, '/'));
    if PathOf(arg).Some? {
      FetchedIffRoomy(r, path, l, dest);
    } else {
      FirstDotOrNone(path);
      if i: nat :| FirstDotAt(path, i) {
        assert forall j: nat | FirstDotAt(path, j) :: j == i;
      }
    }
  }

  lemma {:induction false} FetchedIffRoomy(r: Remote, path: Path, l: Local, dest: Path)
    requires path != []
    ensures var (l', outcome) := AfterDownload(r, path, l, dest + [LeafOf(path)]);
            if path in r.files && Roomy(l, dest, LeafOf(path))
            then outcome.Ok? && l'.files == l.files[dest + [LeafOf(path)] := r.files[path]]
            else outcome.Err? && l'.files == l.files
  {
    var target := dest + [LeafOf(path)];
    assert target[..|target| - 1] == dest;
    assert dest == dest[..|dest|] && dest in Initials(dest, 0, |dest| + 1);
    assert target !in Initials(dest, 0, |dest| + 1);
  }

  lemma {:induction false} FirstDotOrNone(path: Path)
    ensures (exists i: nat :: FirstDotAt(path, i)) <==> exists p | p in path :: BeginsWithDot(p)
  {
    if path != [] {
      if BeginsWithDot(path[0]) {
        assert FirstDotAt(path, 0);
      } else {
        FirstDotOrNone(path[1..]);
        assert path == [path[0]] + path[1..];
        if i: nat :| FirstDotAt(path[1..], i) {
          assert FirstDotAt(path, i + 1);
        }
        if i: nat :| FirstDotAt(path, i) {
          assert i > 0 && path[i] in path[1..];
        }
      }
    }
  }

  /** Another argument with another last component leaves it alone. */
  lemma {:induction false} OthersLeaveIt(r: Remote, arg: string, l: Local, dest: Path, leaf: string)
    requires dest + [leaf] in l.files
    requires PathOf(arg).Some? ==> LeafOf(PathOf(arg).value) != leaf
    ensures var l' := FetchOne(r, arg, l, dest).0;
            dest + [leaf] in l'.files && l'.files[dest + [leaf]] == l.files[dest + [leaf]]
  {
    if PathOf(arg).Some? {
      var target := dest + [LeafOf(PathOf(arg).value)];
      assert target[|dest|] != leaf == (dest + [leaf])[|dest|];
    }
  }

  /** Whatever else the argument expands to, its own file arrives. */
  lemma {:induction false} FileArrivesAmongOthers(r: Remote, path: Path, args: seq<string>, l: Local, dest: Path)
    requires Nameable(path) && path in r.files && Roomy(l, dest, LeafOf(path)) && Join(path, '/') in args
    requires forall s | s in args && s != Join(path, '/') && PathOf(s).Some? :: LeafOf(PathOf(s).value) != LeafOf(path)
    ensures var l' := FetchAll(r, args, l, dest).0;
            dest + [LeafOf(path)] in l'.files && l'.files[dest + [LeafOf(path)]] == r.files[path]
    decreases |args|
  {
    var n := |args| - 1;
    var before, last := args[..n], args[n];
    assert args == before + [last];
    FetchAllKeepsRoom(r, before, l, dest, LeafOf(path));
    var l1 := FetchAll(r, before, l, dest).0;
    if last == Join(path, '/') {
      NamedFileArrives(r, path, l1, dest);
    } else {
      FileArrivesAmongOthers(r, path, before, l, dest);
      OthersLeaveIt(r, last, l1, dest, LeafOf(path));
    }
  }

  lemma {:induction false} FetchAllKeepsRoom(r: Remote, args: seq<string>, l: Local, dest: Path, leaf: string)
    requires Roomy(l, dest, leaf)
    ensures Roomy(FetchAll(r, args, l, dest).0, dest, leaf)
    decreases |args|
  {
    if args != [] {
      FetchAllKeepsRoom(r, args[..|args| - 1], l, dest, leaf);
      FetchKeepsRoom(r, args[|args| - 1], FetchAll(r, args[..|args| - 1], l, dest).0, dest, leaf);
    }
  }

  /** Stored names are names: not empty, not `.`, without a separator. */
  ghost predicate RealLeaves(files: map<Path, Bytes>)
  {
    forall k | k in files && k != [] :: LeafOf(k) != "" && LeafOf(k) != "." && Free(LeafOf(k), '/')
  }

  /** The argument made for another file of the directory names that file, or nothing when it is hidden. */
  lemma {:induction false} ArgumentOfSibling(path: Path, k: Path)
    requires Nameable(path) && |k| == |path| && k[..|k| - 1] == path[..|path| - 1]
    requires LeafOf(k) != "" && LeafOf(k) != "." && Free(LeafOf(k), '/')
    ensures var s := FullName(Join(path[..|path| - 1], '/'), LeafOf(k));
            PathOf(s) == if Hidden(LeafOf(k)) then None else Some(k)
  {
    var init := path[..|path| - 1];
    var leaf := LeafOf(k);
    assert k == init + [leaf];
    assert forall p | p in init :: p in path;
    assert FullName(Join(init, '/'), leaf) == Join(k, '/') by {
      if init == [] {
        assert k == [leaf];
      } else {
        assert init[0] in init && Join(init, '/') != "";
        JoinLast(init, leaf);
      }
    }
    assert leaf in k;
    if Hidden(leaf) {
      assert AllFree(k, '/');
      SplitJoin(k, '/');
    } else {
      NameablePathsAreNamed(k);
    }
  }

  /** A stored file named by its own path arrives, whatever its name and whatever else its name matches. */
  lemma {:induction false} StoredFileArrives(r: Remote, path: Path, args: Option<seq<string>>, l: Local, dest: Path)
    requires Listable(r) && RealLeaves(r.files) && Nameable(path) && path in r.files && Roomy(l, dest, LeafOf(path))
    requires IsExpansion(r, Join(path, '/'), args)
    ensures args.Some?
    ensures var l' := FetchAll(r, args.value, l, dest).0;
            dest + [LeafOf(path)] in l'.files && l'.files[dest + [LeafOf(path)]] == r.files[path]
  {
    StoredFileIsExpanded(r, path, args);
    var arg := Join(path, '/');
    forall s | s in args.value && s != arg && PathOf(s).Some? ensures LeafOf(PathOf(s).value) != LeafOf(path) {
      ExpandsByName(r.files, path, s);
      var k :| Spells(r.files, path, k, s);
      ArgumentOfSibling(path, k);
      JoinIsFullName(path);
    }
    FileArrivesAmongOthers(r, path, args.value, l, dest);
  }
}
