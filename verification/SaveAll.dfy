/** Recursive save-all without compression (src/commands/upload.rs). */
module SaveAll {
  import opened Basics
  import opened Text
  import opened Sorting
  import opened RemoteTrees
  import opened LocalWalk

  /** The tally of a command (src/commands/batch.rs). */
  datatype Tally = Tally(successes: nat, failures: nat)

  /** A remote prefix as segments: only empty pieces are dropped. */
  function PrefixSegments(p: Option<string>): Path
  {
    match p
    case None => []
    case Some(s) => Filter((piece: string) => piece != "", Split(s, '/'))
  }

  datatype Saved = Saved(remote: Remote, tally: Tally, renames: nat)

  /** Uploading the files one by one under `prefix`, with the Rename policy. */
  function SaveEach(r: Remote, prefix: Path, fs: seq<LocalFile>, suffix: (string, nat) -> string): Saved
  {
    if fs == [] then Saved(r, Tally(0, 0), 0)
    else
      SaveOne(SaveEach(r, prefix, fs[..|fs| - 1], suffix), prefix, fs[|fs| - 1], suffix)
  }

  function SaveOne(s: Saved, prefix: Path, f: LocalFile, suffix: (string, nat) -> string): Saved
  {
    var (remote, outcome) := AfterUpload(s.remote, prefix + f.relative, f.body, Rename, suffix);
    if outcome.Err? then Saved(remote, s.tally.(failures := s.tally.failures + 1), s.renames)
    else Saved(remote, s.tally.(successes := s.tally.successes + 1),
               s.renames + if outcome.value.renamed then 1 else 0)
  }

  /** `upload_walk_entry` and the tally kept around it; `s` is how far the command got. */
  method UploadWalkEntry(remote: FakeRemoteFs, dest: Option<string>, f: LocalFile, suffix: (string, nat) -> string,
                         before: Tally, ghost s: Saved) returns (tally: Tally)
    requires s.remote == remote.Model() && s.tally == before
    modifies remote
    ensures var next := SaveOne(s, PrefixSegments(dest), f, suffix);
            remote.Model() == next.remote && tally == next.tally
  {
    var segments := PrefixSegments(dest);
    segments := segments + f.relative;
    var outcome := remote.Upload(Some(f.body), segments, Rename, suffix);
    tally := if outcome.Ok? then before.(successes := before.successes + 1)
             else before.(failures := before.failures + 1);
  }

  datatype SaveEnd = CannotWalk | Done(tally: Tally)

  /** The files a save-all uploads, in its order. */
  function Selection(root: Option<seq<Entry>>, recursive: bool): seq<LocalFile>
  {
    var walked := WalkedRoot(root, recursive);
    if walked.None? then [] else Sort(walked.value, FileLe)
  }

  method RunSaveAll(remote: FakeRemoteFs, root: Option<seq<Entry>>, recursive: bool, dest: Option<string>,
                    suffix: (string, nat) -> string) returns (end: SaveEnd)
    modifies remote
    ensures end.CannotWalk? <==> WalkedRoot(root, recursive).None?
    ensures end.CannotWalk? ==> remote.Model() == old(remote.Model())
    ensures end.Done? ==>
              var s := SaveEach(old(remote.Model()), PrefixSegments(dest), Selection(root, recursive), suffix);
              remote.Model() == s.remote && end.tally == s.tally
  {
    var entries := WalkLocal(root, recursive);
    if entries.None? {
      return CannotWalk;
    }
    var fs := entries.value;
    var tally := Tally(0, 0);
    var i := 0;
    while i < |fs|
      invariant 0 <= i <= |fs|
      invariant var s := SaveEach(old(remote.Model()), PrefixSegments(dest), fs[..i], suffix);
                remote.Model() == s.remote && tally == s.tally
    {
      assert fs[..i + 1][..i] == fs[..i];
      tally := UploadWalkEntry(remote, dest, fs[i], suffix, tally,
                               SaveEach(old(remote.Model()), PrefixSegments(dest), fs[..i], suffix));
      i := i + 1;
    }
    assert fs[..|fs|] == fs;
    return Done(tally);
  }

  /** Nothing is stored strictly below `p` yet. */
  ghost predicate EmptyBelow(r: Remote, p: Path)
  {
    && (forall k | k in r.files :: !(p < k))
    && (forall d | d in r.dirs :: !(p < d))
  }

  ghost predicate IsUploadOf(k: Path, prefix: Path, fs: seq<LocalFile>)
  {
    exists f | f in fs :: k == prefix + f.relative
  }

  ghost predicate IsParentOf(d: Path, prefix: Path, fs: seq<LocalFile>)
  {
    exists f | f in fs :: d < prefix + f.relative && d != []
  }

  /** The remote after saving `fs` into an empty place. */
  ghost predicate HoldsExactly(r: Remote, r': Remote, prefix: Path, fs: seq<LocalFile>)
  {
    && (forall k :: k in r'.files <==> k in r.files || IsUploadOf(k, prefix, fs))
    && (forall k | k in r.files :: r'.files[k] == r.files[k])
    && (forall f | f in fs :: prefix + f.relative in r'.files && r'.files[prefix + f.relative] == f.body)
    && (forall d :: d in r'.dirs <==> d in r.dirs || IsParentOf(d, prefix, fs))
  }

  lemma {:induction false} InitialsAreParents(key: Path, d: Path)
    requires key != []
    ensures d in Initials(key, 1, |key|) <==> d < key && d != []
  {
    if d < key && d != [] {
      assert d == key[..|d|];
    }
  }

  lemma {:induction false} FreeNameIsKept(r: Remote, key: Path, body: Bytes, suffix: (string, nat) -> string)
    requires key != [] && key !in r.files
    ensures AfterUpload(r, key, body, Rename, suffix) ==
            (Remote(r.files[key := body], r.dirs + Initials(key, 1, |key|)),
             Ok(UploadOutcome(key[|key| - 1], |body|, false)))
  {
    assert key[..|key| - 1] + [key[|key| - 1]] == key;
    assert !Taken(r.files, key[..|key| - 1], key[|key| - 1], suffix, 0);
  }

  lemma {:induction false} OneMoreFile(r: Remote, mid: Remote, prefix: Path, fs: seq<LocalFile>, f: LocalFile)
    requires f.relative != [] && HoldsExactly(r, mid, prefix, fs)
    requires prefix + f.relative !in mid.files
    ensures var key := prefix + f.relative;
            HoldsExactly(r, Remote(mid.files[key := f.body], mid.dirs + Initials(key, 1, |key|)), prefix, fs + [f])
  {
    var key := prefix + f.relative;
    var all := fs + [f];
    var next := Remote(mid.files[key := f.body], mid.dirs + Initials(key, 1, |key|));
    assert forall g :: g in all <==> g in fs || g == f;
    forall k ensures k in next.files <==> k in r.files || IsUploadOf(k, prefix, all) {
      assert IsUploadOf(k, prefix, all) <==> IsUploadOf(k, prefix, fs) || k == key;
    }
    forall d ensures d in next.dirs <==> d in r.dirs || IsParentOf(d, prefix, all) {
      InitialsAreParents(key, d);
      assert IsParentOf(d, prefix, all) <==> IsParentOf(d, prefix, fs) || (d < key && d != []);
    }
  }

  lemma {:induction false} NotUploadedBefore(prefix: Path, fs: seq<LocalFile>)
    requires fs != [] && DistinctPaths(fs)
    ensures DistinctPaths(fs[..|fs| - 1])
    ensures !IsUploadOf(prefix + fs[|fs| - 1].relative, prefix, fs[..|fs| - 1])
  {
    var n := |fs| - 1;
    forall g | g in fs[..n] ensures prefix + fs[n].relative != prefix + g.relative {
      var i :| 0 <= i < n && fs[i] == g;
      assert (prefix + g.relative)[|prefix|..] == g.relative;
      assert (prefix + fs[n].relative)[|prefix|..] == fs[n].relative;
    }
  }

  /** Saving distinct files into an empty place stores each under its own name: no rename, no failure. */
  lemma {:induction false} SaveIntoEmpty(r: Remote, prefix: Path, fs: seq<LocalFile>, suffix: (string, nat) -> string)
    requires EmptyBelow(r, prefix) && DistinctPaths(fs)
    requires forall f | f in fs :: f.relative != []
    ensures var s := SaveEach(r, prefix, fs, suffix);
            HoldsExactly(r, s.remote, prefix, fs) && s.tally == Tally(|fs|, 0) && s.renames == 0
    decreases |fs|
  {
    if fs != [] {
      var n := |fs| - 1;
      var before, f := fs[..n], fs[n];
      SaveIntoEmpty(r, prefix, before, suffix);
      var mid := SaveEach(r, prefix, before, suffix).remote;
      var key := prefix + f.relative;
      NotUploadedBefore(prefix, fs);
      assert prefix < key;
      FreeNameIsKept(mid, key, f.body, suffix);
      OneMoreFile(r, mid, prefix, before, f);
      assert before + [f] == fs;
    }
  }

  lemma {:induction false} SavingKeepsListable(r: Remote, prefix: Path, fs: seq<LocalFile>, suffix: (string, nat) -> string)
    requires Listable(r)
    ensures Listable(SaveEach(r, prefix, fs, suffix).remote)
    decreases |fs|
  {
    if fs != [] {
      var n := |fs| - 1;
      SavingKeepsListable(r, prefix, fs[..n], suffix);
      UploadKeepsListable(SaveEach(r, prefix, fs[..n], suffix).remote, prefix + fs[n].relative, fs[n].body, Rename,
                          suffix);
    }
  }
}
