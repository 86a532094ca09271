/** Save-all followed by download-all: the round trip over a local tree, the remote and a fresh local place. */
module Mirror {
  import opened Basics
  import opened Sorting
  import opened RemoteTrees
  import opened LocalWalk
  import opened SaveAll
  import opened Download

  /** A saved tree puts no file where a directory is. */
  ghost predicate NoneBelowAnother(fs: seq<LocalFile>)
  {
    forall f, g | f in fs && g in fs :: f.relative <= g.relative ==> f.relative == g.relative
  }

  lemma {:induction false} SavedTreeHasNoClash(r: Remote, r': Remote, prefix: Path, fs: seq<LocalFile>)
    requires EmptyBelow(r, prefix) && HoldsExactly(r, r', prefix, fs) && NoneBelowAnother(fs)
    ensures NoClash(r', prefix)
  {
    forall k | k in r'.files && prefix < k ensures k !in r'.dirs {
      assert k !in r.files && k !in r.dirs;
      var f :| f in fs && k == prefix + f.relative;
      forall g | g in fs ensures !(k < prefix + g.relative) {
        if k <= prefix + g.relative {
          assert f.relative == k[|prefix|..] <= (prefix + g.relative)[|prefix|..] == g.relative;
        }
      }
    }
  }

  /** Exactly the safe ones among the saved files are wanted back. */
  ghost predicate SafeFile(f: LocalFile) { SafePath(f.relative) }

  ghost function KeysOf(prefix: Path, fs: seq<LocalFile>): set<Path>
  {
    set f | f in fs && SafeFile(f) :: prefix + f.relative
  }

  lemma {:induction false} SavedFilesAreWanted(r: Remote, r': Remote, prefix: Path, fs: seq<LocalFile>)
    requires EmptyBelow(r, prefix) && HoldsExactly(r, r', prefix, fs)
    requires forall f | f in fs :: f.relative != []
    ensures WantedKeys(r', prefix, true) == KeysOf(prefix, fs)
  {
    forall k ensures k in WantedKeys(r', prefix, true) <==> k in KeysOf(prefix, fs) {
      if k in WantedKeys(r', prefix, true) {
        assert k !in r.files;
        var f :| f in fs && k == prefix + f.relative;
        assert k[|prefix|..] == f.relative && SafeFile(f);
      }
      if k in KeysOf(prefix, fs) {
        var f :| f in fs && SafeFile(f) && k == prefix + f.relative;
        assert k[|prefix|..] == f.relative && prefix < k;
      }
    }
  }

  lemma {:induction false} KeyCount(prefix: Path, fs: seq<LocalFile>)
    requires DistinctPaths(fs) && forall f | f in fs :: SafeFile(f)
    ensures |KeysOf(prefix, fs)| == |fs|
    decreases |fs|
  {
    if fs == [] {
      assert KeysOf(prefix, fs) == {};
    } else {
      var n := |fs| - 1;
      var before, f := fs[..n], fs[n];
      assert DistinctPaths(before);
      KeyCount(prefix, before);
      NotUploadedBefore(prefix, fs);
      assert fs == before + [f];
      assert KeysOf(prefix, fs) == KeysOf(prefix, before) + {prefix + f.relative};
      assert prefix + f.relative !in KeysOf(prefix, before);
    }
  }

  /** The first unsafe component on a path is a name that the download meets and refuses. */
  lemma {:induction false} FirstUnsafe(p: Path) returns (i: nat)
    requires !SafePath(p)
    ensures i < |p| && SafePath(p[..i]) && !SafeName(p[i])
  {
    i := 0;
    while SafeName(p[i])
      invariant i < |p| && SafePath(p[..i]) && !SafePath(p[i..])
      decreases |p| - i
    {
      assert p[..i + 1] == p[..i] + [p[i]] && p[i..] == [p[i]] + p[i + 1..];
      i := i + 1;
    }
  }

  lemma {:induction false} UnsafeFileIsRefused(r': Remote, prefix: Path, f: LocalFile)
    requires Listable(r') && prefix + f.relative in r'.files && !SafeFile(f)
    ensures RefusedKeys(r', prefix, true) != {}
  {
    var key := prefix + f.relative;
    var i := FirstUnsafe(f.relative);
    var k := key[..|prefix| + i + 1];
    assert k[|prefix|..|k| - 1] == f.relative[..i] && k[|k| - 1] == f.relative[i];
    assert prefix < k && k in r'.files.Keys + r'.dirs by {
      if k == key {
      } else {
        assert k in r'.dirs;
      }
    }
    assert k in RefusedKeys(r', prefix, true);
  }

  lemma {:induction false} SafeTreeRefusesNothing(r: Remote, r': Remote, prefix: Path, fs: seq<LocalFile>)
    requires EmptyBelow(r, prefix) && HoldsExactly(r, r', prefix, fs)
    requires forall f | f in fs :: SafeFile(f)
    ensures RefusedKeys(r', prefix, true) == {}
  {
    forall k | k in r'.files.Keys + r'.dirs && prefix < k ensures SafeName(k[|k| - 1]) {
      assert k !in r.files && k !in r.dirs;
      var f :| f in fs && k <= prefix + f.relative;
      var j := |k| - 1 - |prefix|;
      assert k[|k| - 1] == (prefix + f.relative)[|k| - 1] == f.relative[j];
      assert f.relative[j] in f.relative;
    }
  }

  /** `prefix` can be listed after the save iff it could before or something was saved below it. */
  lemma {:induction false} PrefixIsListed(r: Remote, r': Remote, prefix: Path, fs: seq<LocalFile>)
    requires Listable(r) && HoldsExactly(r, r', prefix, fs)
    requires forall f | f in fs :: f.relative != []
    ensures prefix in r'.dirs <==> prefix in r.dirs || fs != []
  {
    if fs != [] && prefix != [] {
      assert fs[0] in fs && prefix < prefix + fs[0].relative;
      assert IsParentOf(prefix, prefix, fs);
    }
  }

  /** The place of a selected file below `dest`. */
  ghost predicate IsSelectedAt(root: seq<Entry>, dest: Path, q: Path)
  {
    exists rel, body :: Selected(root, rel, body) && q == dest + rel
  }

  /** Every selected file has arrived below `dest`, and every other local file is as it was. */
  ghost predicate Mirrored(root: seq<Entry>, before: Local, after: Local, dest: Path)
  {
    && (forall rel, body | Selected(root, rel, body) :: dest + rel in after.files && after.files[dest + rel] == body)
    && before.files.Keys <= after.files.Keys
    && (forall q | q in after.files :: IsSelectedAt(root, dest, q) || (q in before.files && after.files[q] == before.files[q]))
  }

  /** The downloaded place holds under `dest` the selected files of the tree, all of them and nothing else. */
  ghost predicate Reproduces(root: seq<Entry>, after: Local, dest: Path)
  {
    forall rel: Path, body: Bytes ::
      Selected(root, rel, body) <==> rel != [] && dest + rel in after.files && after.files[dest + rel] == body
  }

  /** Where no file was before, mirroring is reproducing. */
  lemma {:induction false} FreePlaceReproduces(root: seq<Entry>, before: Local, after: Local, dest: Path)
    requires ValidTree(root) && Mirrored(root, before, after, dest) && forall q | q in before.files :: !(dest < q)
    ensures Reproduces(root, after, dest)
  {
    forall rel: Path, body: Bytes | rel != [] && dest + rel in after.files && after.files[dest + rel] == body
      ensures Selected(root, rel, body)
    {
      assert IsSelectedAt(root, dest, dest + rel);
      var other, found :| Selected(root, other, found) && dest + rel == dest + other;
      assert rel == (dest + rel)[|dest|..] == (dest + other)[|dest|..] == other;
    }
  }

  /** All the facts about one round trip of a tree through the remote. */
  ghost predicate RoundTrip(root: seq<Entry>, fs: seq<LocalFile>, r: Remote, r': Remote, prefix: Path,
                            before: Local, after: Local, dest: Path, t: Tally)
  {
    && Walked(root, [], true).Some? && (forall f :: f in fs <==> f in Walked(root, [], true).value)
    && DistinctPaths(fs) && ValidTree(root)
    && Listable(r) && EmptyBelow(r, prefix)
    && Listable(r') && HoldsExactly(r, r', prefix, fs)
    && DownloadedExactly(r', prefix, true, before, after, dest, t)
  }

  /** The stored bodies of the saved files. */
  ghost predicate Stored(files: map<Path, Bytes>, prefix: Path, fs: seq<LocalFile>)
  {
    forall f | f in fs :: f.relative != [] && prefix + f.relative in files && files[prefix + f.relative] == f.body
  }

  lemma {:induction false} SavedFileComesBack(after: map<Path, Bytes>, before: map<Path, Bytes>, files: map<Path, Bytes>,
                                              prefix: Path, dest: Path, fs: seq<LocalFile>, f: LocalFile)
    requires Stored(files, prefix, fs) && CopiedInto(before, after, files, prefix, dest, KeysOf(prefix, fs))
    requires f in fs && SafeFile(f)
    ensures dest + f.relative in after && after[dest + f.relative] == f.body
  {
    var k := prefix + f.relative;
    assert k in KeysOf(prefix, fs) && prefix < k;
    assert Moved(prefix, dest, k) == dest + f.relative;
  }

  lemma {:induction false} OthersStay(after: map<Path, Bytes>, before: map<Path, Bytes>, files: map<Path, Bytes>,
                                      prefix: Path, dest: Path, fs: seq<LocalFile>, q: Path)
    requires CopiedInto(before, after, files, prefix, dest, KeysOf(prefix, fs)) && q in after
    ensures (q in before && after[q] == before[q]) || exists f | f in fs :: q == dest + f.relative
  {
    if IsMoved(q, prefix, dest, KeysOf(prefix, fs)) {
      var k :| k in KeysOf(prefix, fs) && prefix < k && q == Moved(prefix, dest, k);
      var f :| f in fs && SafeFile(f) && k == prefix + f.relative;
      assert f.relative == k[|prefix|..];
    }
  }

  lemma {:induction false} WalkedAreNonEmpty(root: seq<Entry>, fs: seq<LocalFile>)
    requires Walked(root, [], true).Some? && (forall f :: f in fs <==> f in Walked(root, [], true).value)
    ensures forall f | f in fs :: f.relative != []
    ensures forall rel, body :: Selected(root, rel, body) <==> LocalFile(rel, body) in fs
  {
    WalkedIsBelow(root, [], true);
    forall rel, body ensures Selected(root, rel, body) <==> LocalFile(rel, body) in fs {
      WalkSelects(root, [], true, rel, body);
      assert [] + rel == rel;
    }
  }

  lemma {:induction false} TreeHasNoneBelowAnother(root: seq<Entry>, fs: seq<LocalFile>)
    requires ValidTree(root)
    requires Walked(root, [], true).Some? && (forall f :: f in fs <==> f in Walked(root, [], true).value)
    ensures NoneBelowAnother(fs)
  {
    WalkedAreNonEmpty(root, fs);
    forall f, g | f in fs && g in fs && f.relative <= g.relative ensures f.relative == g.relative {
      assert f == LocalFile(f.relative, f.body) && g == LocalFile(g.relative, g.body);
      SelectionIsConsistent(root, f.relative, f.body, g.relative, g.body);
    }
  }

  /**
   The mirror theorem. Saving a tree below an empty prefix and downloading that prefix brings every file of the tree to
   its place and leaves every other local file alone, without a failure, if and only if every selected path is made of
   safe components and the prefix is there to be listed: because it was before, or because something was saved. Then the
   successes are the number of files.
   */
  lemma {:induction false} MirrorIsExact(root: seq<Entry>, fs: seq<LocalFile>, r: Remote, r': Remote, prefix: Path,
                                         before: Local, after: Local, dest: Path, t: Tally)
    requires RoundTrip(root, fs, r, r', prefix, before, after, dest, t)
    ensures Mirrored(root, before, after, dest) && t.failures == 0 <==>
            (forall rel, body | Selected(root, rel, body) :: SafePath(rel)) && (prefix in r.dirs || fs != [])
    ensures t.failures == 0 ==> Mirrored(root, before, after, dest) && t.successes == |fs|
  {
    WalkedAreNonEmpty(root, fs);
    PrefixIsListed(r, r', prefix, fs);
    SavedFilesAreWanted(r, r', prefix, fs);
    if prefix in r'.dirs {
      if f :| f in fs && !SafeFile(f) {
        UnsafeFileIsRefused(r', prefix, f);
        assert f == LocalFile(f.relative, f.body) && Selected(root, f.relative, f.body);
        assert t.failures > 0;
      } else {
        assert forall f | f in fs :: SafeFile(f);
        SafeTreeComesBack(root, fs, r, r', prefix, before, after, dest, t);
      }
    }
  }

  /** One direction in full: a safe tree comes back, file by file. */
  lemma {:induction false} SafeTreeComesBack(root: seq<Entry>, fs: seq<LocalFile>, r: Remote, r': Remote, prefix: Path,
                                             before: Local, after: Local, dest: Path, t: Tally)
    requires RoundTrip(root, fs, r, r', prefix, before, after, dest, t)
    requires prefix in r'.dirs && forall f | f in fs :: SafeFile(f)
    ensures Mirrored(root, before, after, dest) && t == Tally(|fs|, 0)
    ensures forall rel, body | Selected(root, rel, body) :: SafePath(rel)
  {
    WalkedAreNonEmpty(root, fs);
    SavedFilesAreWanted(r, r', prefix, fs);
    SafeTreeRefusesNothing(r, r', prefix, fs);
    KeyCount(prefix, fs);
    forall rel, body | Selected(root, rel, body)
      ensures SafePath(rel) && dest + rel in after.files && after.files[dest + rel] == body
    {
      assert SafeFile(LocalFile(rel, body));
      SavedFileComesBack(after.files, before.files, r'.files, prefix, dest, fs, LocalFile(rel, body));
    }
    forall q | q in after.files
      ensures IsSelectedAt(root, dest, q) || (q in before.files && after.files[q] == before.files[q])
    {
      OthersStay(after.files, before.files, r'.files, prefix, dest, fs, q);
      if f :| f in fs && q == dest + f.relative {
        assert f == LocalFile(f.relative, f.body) && Selected(root, f.relative, f.body);
      }
    }
  }

  /** Nothing local is in the way of the tree at `dest`. */
  ghost predicate TreeFits(root: seq<Entry>, l: Local, dest: Path)
  {
    && CanMakeDirs(l, dest)
    && (forall rel, body | Selected(root, rel, body) :: SafePath(rel) ==> dest + rel !in l.dirs)
    && (forall rel, body, i | Selected(root, rel, body) && 0 < i < |rel| ::
          SafePath(rel[..i]) ==> dest + rel[..i] !in l.files)
  }

  lemma {:induction false} SavedTreeIsReady(root: seq<Entry>, fs: seq<LocalFile>, r: Remote, r': Remote, prefix: Path,
                                            l: Local, dest: Path)
    requires Walked(root, [], true).Some? && (forall f :: f in fs <==> f in Walked(root, [], true).value)
    requires ValidTree(root) && TreeFits(root, l, dest)
    requires Listable(r') && EmptyBelow(r, prefix) && HoldsExactly(r, r', prefix, fs)
    ensures Ready(r', prefix, true, l, dest)
  {
    WalkedAreNonEmpty(root, fs);
    TreeHasNoneBelowAnother(root, fs);
    SavedTreeHasNoClash(r, r', prefix, fs);
    forall d | d in r'.dirs && Visited(prefix, true, d) ensures Moved(prefix, dest, d) !in l.files {
      assert d !in r.dirs;
      var f :| f in fs && d < prefix + f.relative && d != [];
      var i := |d| - |prefix|;
      assert d[|prefix|..] == f.relative[..i];
      assert f == LocalFile(f.relative, f.body) && Selected(root, f.relative, f.body);
    }
    SavedFilesAreWanted(r, r', prefix, fs);
    forall k | k in WantedKeys(r', prefix, true) ensures Moved(prefix, dest, k) !in l.dirs {
      var f :| f in fs && SafeFile(f) && k == prefix + f.relative;
      assert k[|prefix|..] == f.relative;
      assert f == LocalFile(f.relative, f.body) && Selected(root, f.relative, f.body);
    }
  }

  /** What the two commands meet: a real tree, an empty prefix, and nothing in the way of what comes down. */
  ghost predicate FairStart(root: Option<seq<Entry>>, r: Remote, prefix: Path, l: Local, dest: Path)
  {
    && Listable(r) && EmptyBelow(r, prefix)
    && (root.Some? ==> ValidTree(root.value) && TreeFits(root.value, l, dest))
  }

  /** The two commands one after the other. */
  method SaveThenDownload(remote: FakeRemoteFs, root: Option<seq<Entry>>, place: Option<string>,
                          suffix: (string, nat) -> string, local: LocalFs, dest: Path)
    returns (saved: SaveEnd, fetched: Tally)
    modifies remote, local
    ensures saved.CannotWalk? <==> WalkedRoot(root, true).None?
    ensures old(FairStart(root, remote.Model(), PrefixSegments(place), local.Model(), dest)) && saved.Done? ==>
              var files := Walked(root.value, [], true).value;
              && saved.tally == Tally(|files|, 0)
              && (fetched.failures == 0 ==> fetched.successes == |files|)
              && (Mirrored(root.value, old(local.Model()), local.Model(), dest) && fetched.failures == 0 <==>
                  (forall rel, body | Selected(root.value, rel, body) :: SafePath(rel)) &&
                  (PrefixSegments(place) in old(remote.Model()).dirs || files != []))
  {
    ghost var r, before := remote.Model(), local.Model();
    ghost var prefix := PrefixSegments(place);
    ghost var fair := FairStart(root, r, prefix, before, dest);
    saved := RunSaveAll(remote, root, true, place, suffix);
    fetched := Tally(0, 0);
    if saved.CannotWalk? {
      return;
    }
    ghost var fs := Selection(root, true);
    if fair {
      SaveIsFair(root.value, r, prefix, suffix, before, dest);
    }
    fetched := RunDownloadAll(remote, local, dest, true, place);
    if fair {
      MirrorIsExact(root.value, fs, r, SaveEach(r, prefix, fs, suffix).remote, prefix, before, local.Model(), dest,
                    fetched);
    }
  }

  /** From a fair start the save leaves the remote and the tree ready for the way back. */
  lemma {:induction false} SaveIsFair(tree: seq<Entry>, r: Remote, prefix: Path, suffix: (string, nat) -> string,
                                      l: Local, dest: Path)
    requires FairStart(Some(tree), r, prefix, l, dest) && Walked(tree, [], true).Some?
    ensures var files, fs := Walked(tree, [], true).value, Selection(Some(tree), true);
            var s := SaveEach(r, prefix, fs, suffix);
            && |fs| == |files| && (forall f :: f in fs <==> f in files) && DistinctPaths(fs)
            && Listable(s.remote) && HoldsExactly(r, s.remote, prefix, fs) && s.tally == Tally(|fs|, 0)
            && Ready(s.remote, prefix, true, l, dest)
  {
    var files := Walked(tree, [], true).value;
    var fs := Sort(files, FileLe);
    SortPermutes(files, FileLe);
    WalkedPathsAreDistinct(tree, [], true);
    SortKeepsDistinctPaths(files);
    WalkedAreNonEmpty(tree, fs);
    SaveIntoEmpty(r, prefix, fs, suffix);
    SavingKeepsListable(r, prefix, fs, suffix);
    SavedTreeIsReady(tree, fs, r, SaveEach(r, prefix, fs, suffix).remote, prefix, l, dest);
  }

  lemma {:induction false} SortKeepsDistinctPaths(files: seq<LocalFile>)
    requires DistinctPaths(files)
    ensures DistinctPaths(Sort(files, FileLe))
  {
    var s := Sort(files, FileLe);
    SortPermutes(files, FileLe);
    SortKeepsDistinct(files, FileLe);
    forall i, j | 0 <= i < j < |s| ensures s[i].relative != s[j].relative {
      assert s[i] in files && s[j] in files && s[i] != s[j];
    }
  }
}
