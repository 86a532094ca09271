/** Remote file arguments of a download: splitting and validating what was typed (src/commands/walk.rs). */
module UserPaths {
  import opened Basics
  import opened Text
  import opened RemoteTrees
  import opened LocalWalk

  datatype SkipReason = Dotfile | NotRegularFile

  predicate IsSkipped(part: string) { part == "" || part == "." }

  predicate IsRefused(part: string) { part != "." && Hidden(part) }

  predicate IsUsed(part: string) { !IsSkipped(part) }

  predicate AnyRefused(parts: seq<string>) { exists p | p in parts :: IsRefused(p) }

  /** The components of an argument, if it is one that can name a file. */
  function PathOf(arg: string): Option<Path>
  {
    var pieces := Split(arg, '/');
    if AnyRefused(pieces) || Filter(IsUsed, pieces) == [] then None else Some(Filter(IsUsed, pieces))
  }

  /** Why an argument names no file: the first refused component decides; `..` is not a file, the rest are hidden. */
  function RefusalOf(pieces: seq<string>): SkipReason
  {
    if pieces == [] then NotRegularFile
    else if IsRefused(pieces[0]) then if pieces[0] == ".." then NotRegularFile else Dotfile
    else RefusalOf(pieces[1..])
  }

  lemma {:induction false} RefusalAt(pieces: seq<string>, i: nat)
    requires i < |pieces| && IsRefused(pieces[i]) && !AnyRefused(pieces[..i])
    ensures RefusalOf(pieces) == if pieces[i] == ".." then NotRegularFile else Dotfile
  {
    if i > 0 {
      assert pieces[0] == pieces[..i][0] && pieces[0] in pieces[..i];
      forall p | p in pieces[1..][..i - 1] ensures !IsRefused(p) {
        assert pieces[1..][..i - 1] == pieces[..i][1..];
        assert p in pieces[..i];
      }
      RefusalAt(pieces[1..], i - 1);
    }
  }

  lemma {:induction false} NoRefusal(pieces: seq<string>)
    requires !AnyRefused(pieces)
    ensures RefusalOf(pieces) == NotRegularFile
  {
    if pieces != [] {
      assert pieces[0] in pieces && forall p | p in pieces[1..] :: p in pieces;
      NoRefusal(pieces[1..]);
    }
  }

  /** `split_user_path`. */
  method SplitUserPath(arg: string) returns (r: Result<Path, SkipReason>)
    ensures r == if PathOf(arg).Some? then Ok(PathOf(arg).value) else Err(RefusalOf(Split(arg, '/')))
  {
    var pieces := Split(arg, '/');
    if arg == "" {
      assert Filter(IsUsed, pieces) == [] && pieces == [""];
      NoRefusal(pieces);
      return Err(NotRegularFile);
    }
    var parts: Path := [];
    for i := 0 to |pieces|
      invariant !AnyRefused(pieces[..i])
      invariant parts == Filter(IsUsed, pieces[..i])
    {
      var part := pieces[i];
      NextPiece(pieces, i);
      if part == "" || part == "." {
        continue;
      }
      if part == ".." {
        RefusalAt(pieces, i);
        return Err(NotRegularFile);
      }
      if StartsWithChar(part, '.') {
        RefusalAt(pieces, i);
        return Err(Dotfile);
      }
      parts := parts + [part];
    }
    assert pieces[..|pieces|] == pieces;
    NoRefusal(pieces);
    return if parts == [] then Err(NotRegularFile) else Ok(parts);
  }

  lemma NextPiece(pieces: seq<string>, i: nat)
    requires i < |pieces|
    ensures Filter(IsUsed, pieces[..i + 1]) ==
            Filter(IsUsed, pieces[..i]) + if IsUsed(pieces[i]) then [pieces[i]] else []
    ensures AnyRefused(pieces[..i + 1]) <==> AnyRefused(pieces[..i]) || IsRefused(pieces[i])
    ensures IsRefused(pieces[i]) ==> AnyRefused(pieces)
  {
    assert pieces[..i + 1] == pieces[..i] + [pieces[i]];
    assert pieces[i] in pieces;
    FilterAppend(IsUsed, pieces[..i], [pieces[i]]);
  }

  /** A piece between the slashes that is neither empty nor a single dot. */
  function IsComponent(): string -> bool { (piece: string) => piece != "" && piece != "." }

  predicate BeginsWithDot(p: string) { p != "" && p[0] == '.' }

  predicate FirstDotAt(path: Path, i: nat)
  {
    i < |path| && BeginsWithDot(path[i]) && forall j | 0 <= j < i :: !BeginsWithDot(path[j])
  }

  /**
   An argument names the path of its components when it has any and none begins with a dot; else the first that does
   decides: the two dots are no file, any other is hidden.
   */
  lemma {:induction false} ArgumentIsRead(arg: string)
    ensures var pieces := Split(arg, '/');
            var path := Filter(IsComponent(), pieces);
            && (PathOf(arg).Some? <==> path != [] && forall p | p in path :: !BeginsWithDot(p))
            && (PathOf(arg).Some? ==> PathOf(arg) == Some(path))
            && (path == [] ==> RefusalOf(pieces) == NotRegularFile)
            && (forall i: nat :: FirstDotAt(path, i) ==>
                  RefusalOf(pieces) == if path[i] == ".." then NotRegularFile else Dotfile)
  {
    var pieces := Split(arg, '/');
    FilterSame(pieces);
    FilterMembers(IsComponent(), pieces);
    FirstDotDecides(pieces);
    var path := Filter(IsComponent(), pieces);
    if AnyRefused(pieces) {
      var p :| p in pieces && IsRefused(p);
      assert p in path && BeginsWithDot(p);
    } else {
      NoRefusal(pieces);
      assert forall p | p in path :: p in pieces && !IsRefused(p);
    }
  }

  lemma {:induction false} FilterSame(pieces: seq<string>)
    ensures Filter(IsComponent(), pieces) == Filter(IsUsed, pieces)
  {
    if pieces != [] {
      FilterSame(pieces[1..]);
    }
  }

  lemma {:induction false} FirstDotDecides(pieces: seq<string>)
    ensures forall i: nat :: FirstDotAt(Filter(IsComponent(), pieces), i) ==>
              RefusalOf(pieces) == if Filter(IsComponent(), pieces)[i] == ".." then NotRegularFile else Dotfile
  {
    if pieces != [] {
      FirstDotDecides(pieces[1..]);
      var path, rest := Filter(IsComponent(), pieces), Filter(IsComponent(), pieces[1..]);
      if IsComponent()(pieces[0]) {
        assert path == [pieces[0]] + rest;
        forall i: nat | FirstDotAt(path, i)
          ensures RefusalOf(pieces) == if path[i] == ".." then NotRegularFile else Dotfile
        {
          if i > 0 {
            LaterDot(pieces[0], rest, i);
          }
        }
      } else {
        assert path == rest && RefusalOf(pieces) == RefusalOf(pieces[1..]);
      }
    }
  }

  lemma LaterDot(p: string, rest: Path, i: nat)
    requires i > 0 && FirstDotAt([p] + rest, i)
    ensures FirstDotAt(rest, i - 1) && !BeginsWithDot(p)
  {
    assert ([p] + rest)[0] == p && forall k | 0 <= k < |rest| :: rest[k] == ([p] + rest)[k + 1];
  }

  /** Components no argument is refused for: present, visible, without a separator. */
  predicate Nameable(path: Path) { path != [] && forall p | p in path :: p != "" && p[0] != '.' && '/' !in p }

  /** The paths an argument can name are the nameable ones, and each is named by its own spelling. */
  lemma {:induction false} NameablePathsAreNamed(path: Path)
    ensures (exists arg :: PathOf(arg) == Some(path)) <==> Nameable(path)
    ensures Nameable(path) ==> PathOf(Join(path, '/')) == Some(path)
  {
    if Nameable(path) {
      assert AllFree(path, '/');
      SplitJoin(path, '/');
      assert forall p | p in path :: IsUsed(p) || Hidden(p);
      FilterAll(IsUsed, path);
      assert PathOf(Join(path, '/')) == Some(path);
    }
    forall arg | PathOf(arg) == Some(path) ensures Nameable(path) {
      var pieces := Split(arg, '/');
      SplitIsFree(arg, '/');
      FilterMembers(IsUsed, pieces);
      forall p | p in path ensures p != "" && !Hidden(p) && Free(p, '/') {
        assert p in pieces && IsUsed(p) && !IsRefused(p);
      }
    }
  }

  /** File systems allow no empty name and no separator in a name. */
  ghost predicate RealNames(es: seq<Entry>)
    decreases es
  {
    forall e | e in es :: RealName(e)
  }

  ghost predicate RealName(e: Entry)
    decreases e
  {
    && (e.name.Some? ==> e.name.value != "" && Free(e.name.value, '/'))
    && (e.node.Dir? ==> RealNames(e.node.children))
  }

  lemma {:induction false} SelectedIsNameable(es: seq<Entry>, rel: Path, body: Bytes)
    requires RealNames(es) && Selected(es, rel, body)
    ensures Nameable(rel)
    decreases |rel|
  {
    var e :| e in es && e.name == Some(rel[0])
             && (if |rel| == 1 then e.node == File(body) else e.node.Dir? && Selected(e.node.children, rel[1..], body));
    assert RealName(e);
    assert rel == [rel[0]] + rel[1..];
    if |rel| > 1 {
      SelectedIsNameable(e.node.children, rel[1..], body);
    }
  }

  /** Whatever the directory walk selects can also be named on the command line, by joining its components. */
  lemma {:induction false} WalkedFilesCanBeNamed(root: seq<Entry>, recursive: bool, f: LocalFile)
    requires RealNames(root) && Walked(root, [], recursive).Some? && f in Walked(root, [], recursive).value
    ensures PathOf(Join(f.relative, '/')) == Some(f.relative)
  {
    assert f == LocalFile([] + f.relative, f.body);
    WalkSelects(root, [], recursive, f.relative, f.body);
    SelectedIsNameable(root, f.relative, f.body);
    NameablePathsAreNamed(f.relative);
  }
}
