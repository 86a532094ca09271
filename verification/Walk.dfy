/** Selecting local files for upload (src/commands/walk.rs). */
module LocalWalk {
  import opened Basics
  import opened Text
  import opened Sorting
  import opened RemoteTrees

  /** `Special` stands for devices, sockets and entries whose type cannot be told. */
  datatype Node = File(body: Bytes) | Dir(children: seq<Entry>) | UnreadableDir | Symlink | Special

  /** A directory entry; the name is `None` when it is not UTF-8. */
  datatype Entry = Entry(name: Option<string>, node: Node)

  datatype LocalFile = LocalFile(relative: Path, body: Bytes)

  predicate Hidden(name: string) { StartsWithChar(name, '.') }

  predicate Considered(e: Entry) { e.name.Some? && !Hidden(e.name.value) }

  ghost function TreeSize(es: seq<Entry>): nat
    decreases es
  {
    if es == [] then 0 else TreeSize(es[..|es| - 1]) + 1 + EntrySize(es[|es| - 1])
  }

  ghost function EntrySize(e: Entry): nat
    decreases e
  {
    if e.node.Dir? then TreeSize(e.node.children) else 0
  }

  lemma {:induction false} ChildIsSmaller(es: seq<Entry>, i: nat)
    requires i < |es|
    ensures EntrySize(es[i]) < TreeSize(es)
    decreases |es|
  {
    if i < |es| - 1 {
      assert es[..|es| - 1][i] == es[i];
      ChildIsSmaller(es[..|es| - 1], i);
    }
  }

  /** What the walk yields for the entries of one directory; `None` when some directory cannot be read. */
  function Walked(es: seq<Entry>, prefix: Path, recursive: bool): Option<seq<LocalFile>>
    decreases TreeSize(es)
  {
    if es == [] then Some([])
    else
      var before := Walked(es[..|es| - 1], prefix, recursive);
      var e := es[|es| - 1];
      if before.None? then None
      else if !Considered(e) then before
      else
        match e.node
        case File(body) => Some(before.value + [LocalFile(prefix + [e.name.value], body)])
        case Dir(children) =>
          if !recursive then before
          else
            assert TreeSize(children) == EntrySize(e) < TreeSize(es);
            var inner := Walked(children, prefix + [e.name.value], recursive);
            if inner.None? then None else Some(before.value + inner.value)
        case UnreadableDir => if recursive then None else before
        case Symlink => before
        case Special => before
  }

  class Walker {
    var relPrefix: Path
    var out: seq<LocalFile>

    constructor ()
      ensures relPrefix == [] && out == []
    {
      relPrefix, out := [], [];
    }

    method WalkInner(es: seq<Entry>, recursive: bool) returns (ok: bool)
      modifies this
      decreases TreeSize(es)
      ensures ok <==> Walked(es, old(relPrefix), recursive).Some?
      ensures ok ==> relPrefix == old(relPrefix)
                     && out == old(out) + Walked(es, old(relPrefix), recursive).value
    {
      var i := 0;
      while i < |es|
        invariant 0 <= i <= |es| && relPrefix == old(relPrefix)
        invariant Walked(es[..i], relPrefix, recursive).Some?
        invariant out == old(out) + Walked(es[..i], relPrefix, recursive).value
      {
        var e := es[i];
        assert es[..i + 1][..i] == es[..i] && es[..i + 1][i] == e;
        i := i + 1;
        if !Considered(e) {
          continue;
        }
        match e.node {
          case File(body) =>
            out := out + [LocalFile(relPrefix + [e.name.value], body)];
          case Dir(children) =>
            if recursive {
              ChildIsSmaller(es, i - 1);
              relPrefix := relPrefix + [e.name.value];
              var inner := WalkInner(children, recursive);
              if !inner {
                UnreadableSpreads(es, i, old(relPrefix), recursive);
                return false;
              }
              relPrefix := relPrefix[..|relPrefix| - 1];
            }
          case UnreadableDir =>
            if recursive {
              UnreadableSpreads(es, i, old(relPrefix), recursive);
              return false;
            }
          case Symlink =>
          case Special =>
        }
      }
      assert es[..|es|] == es;
      return true;
    }
  }

  lemma {:induction false} UnreadableSpreads(es: seq<Entry>, i: nat, prefix: Path, recursive: bool)
    requires i <= |es| && Walked(es[..i], prefix, recursive).None?
    ensures Walked(es, prefix, recursive).None?
    decreases |es|
  {
    if i < |es| {
      assert es[..|es| - 1][..i] == es[..i];
      UnreadableSpreads(es[..|es| - 1], i, prefix, recursive);
    } else {
      assert es[..i] == es;
    }
  }

  predicate FileLe(a: LocalFile, b: LocalFile) { PathLe(a.relative, b.relative) }

  /** What the walk yields for a root directory; `None` for the root when it cannot be read itself. */
  function WalkedRoot(root: Option<seq<Entry>>, recursive: bool): Option<seq<LocalFile>>
  {
    if root.None? then None else Walked(root.value, [], recursive)
  }

  /** The selected files, in path order. */
  method WalkLocal(root: Option<seq<Entry>>, recursive: bool) returns (r: Option<seq<LocalFile>>)
    ensures r.None? <==> WalkedRoot(root, recursive).None?
    ensures r.Some? ==> r.value == Sort(WalkedRoot(root, recursive).value, FileLe)
  {
    if root.None? {
      return None;
    }
    var walker := new Walker();
    var ok := walker.WalkInner(root.value, recursive);
    assert ok ==> walker.out == Walked(root.value, [], recursive).value;
    return if ok then Some(Sort(walker.out, FileLe)) else None;
  }

  // ----- what is selected -----

  /** `rel` names a regular file holding `body`, and no component on the way is hidden or a link. */
  ghost predicate Selected(es: seq<Entry>, rel: Path, body: Bytes)
    decreases |rel|
  {
    rel != [] && (rel[0] == "" || rel[0][0] != '.') &&
    exists e | e in es ::
      e.name == Some(rel[0]) && (if |rel| == 1 then e.node == File(body)
                                 else e.node.Dir? && Selected(e.node.children, rel[1..], body))
  }

  lemma {:induction false} WalkedIsBelow(es: seq<Entry>, prefix: Path, recursive: bool)
    requires Walked(es, prefix, recursive).Some?
    ensures forall f | f in Walked(es, prefix, recursive).value :: prefix < f.relative
    decreases TreeSize(es)
  {
    if es != [] {
      WalkedIsBelow(es[..|es| - 1], prefix, recursive);
      var e := es[|es| - 1];
      if Considered(e) && e.node.Dir? && recursive {
        assert TreeSize(e.node.children) == EntrySize(e) < TreeSize(es);
        WalkedIsBelow(e.node.children, prefix + [e.name.value], recursive);
      }
    }
  }

  /** The walk yields exactly the selected files; without recursion, those of the directory itself. */
  lemma {:induction false} WalkSelects(es: seq<Entry>, prefix: Path, recursive: bool, rel: Path, body: Bytes)
    requires Walked(es, prefix, recursive).Some?
    ensures LocalFile(prefix + rel, body) in Walked(es, prefix, recursive).value <==>
            Selected(es, rel, body) && (recursive || |rel| == 1)
    decreases TreeSize(es)
  {
    if es != [] {
      var n := |es| - 1;
      var e := es[n];
      WalkSelects(es[..n], prefix, recursive, rel, body);
      assert forall x | x in es :: x in es[..n] || x == e;
      assert Selected(es, rel, body) <==> Selected(es[..n], rel, body) || Selected([e], rel, body);
      if Considered(e) && e.node.File? {
        assert prefix + rel == prefix + [e.name.value] ==> rel == [e.name.value] by {
          assert prefix + rel == prefix + [e.name.value] ==> (prefix + rel)[|prefix|..] == [e.name.value];
        }
      } else if Considered(e) && e.node.Dir? && recursive {
        var name := e.name.value;
        WalkedIsBelow(e.node.children, prefix + [name], recursive);
        assert prefix + [name] < prefix + rel ==> |rel| > 1 && (prefix + rel)[|prefix|] == name == rel[0];
        if |rel| > 1 && rel[0] == name {
          assert TreeSize(e.node.children) == EntrySize(e) < TreeSize(es);
          WalkSelects(e.node.children, prefix + [name], recursive, rel[1..], body);
          assert prefix + rel == prefix + [name] + rel[1..];
        }
      }
    }
  }

  /** Somewhere below, on a way without hidden names, is a directory that cannot be read. */
  ghost predicate HasUnreadable(es: seq<Entry>)
    decreases es
  {
    exists e | e in es :: IsUnreadable(e)
  }

  ghost predicate IsUnreadable(e: Entry)
    decreases e
  {
    && e.name.Some? && (e.name.value == "" || e.name.value[0] != '.')
    && (e.node.UnreadableDir? || (e.node.Dir? && HasUnreadable(e.node.children)))
  }

  /** The walk fails exactly when it recurses and there is such a directory. */
  lemma {:induction false} WalkFailsOnUnreadable(es: seq<Entry>, prefix: Path, recursive: bool)
    ensures Walked(es, prefix, recursive).None? <==> recursive && HasUnreadable(es)
    decreases TreeSize(es)
  {
    if es != [] {
      var n := |es| - 1;
      var e := es[n];
      WalkFailsOnUnreadable(es[..n], prefix, recursive);
      assert es == es[..n] + [e];
      assert HasUnreadable(es) <==> HasUnreadable(es[..n]) || IsUnreadable(e);
      if Considered(e) && e.node.Dir? && recursive {
        assert TreeSize(e.node.children) == EntrySize(e) < TreeSize(es);
        WalkFailsOnUnreadable(e.node.children, prefix + [e.name.value], recursive);
      }
    }
  }

  /** In a real directory no two entries share a name. */
  ghost predicate ValidTree(es: seq<Entry>)
    decreases es
  {
    && (forall i, j | 0 <= i < j < |es| :: es[i].name.Some? ==> es[i].name != es[j].name)
    && (forall e | e in es :: ValidEntry(e))
  }

  ghost predicate ValidEntry(e: Entry)
    decreases e
  {
    e.node.Dir? ==> ValidTree(e.node.children)
  }

  lemma {:induction false} SameName(es: seq<Entry>, a: Entry, b: Entry)
    requires ValidTree(es) && a in es && b in es && a.name.Some? && a.name == b.name
    ensures a == b
  {
    var i :| 0 <= i < |es| && es[i] == a;
    var j :| 0 <= j < |es| && es[j] == b;
  }

  /** A path selects one content, and no selected file lies below another. */
  lemma {:induction false} SelectionIsConsistent(es: seq<Entry>, p: Path, x: Bytes, q: Path, y: Bytes)
    requires ValidTree(es) && Selected(es, p, x) && Selected(es, q, y) && p <= q
    ensures p == q && x == y
    decreases |p|
  {
    var a :| a in es && a.name == Some(p[0]) && (if |p| == 1 then a.node == File(x)
                                                 else a.node.Dir? && Selected(a.node.children, p[1..], x));
    var b :| b in es && b.name == Some(q[0]) && (if |q| == 1 then b.node == File(y)
                                                 else b.node.Dir? && Selected(b.node.children, q[1..], y));
    assert p[0] == q[0];
    SameName(es, a, b);
    if |p| > 1 {
      SelectionIsConsistent(a.node.children, p[1..], x, q[1..], y);
      assert p == [p[0]] + p[1..] && q == [q[0]] + q[1..];
    }
  }

  ghost predicate DistinctPaths(fs: seq<LocalFile>)
  {
    forall i, j | 0 <= i < j < |fs| :: fs[i].relative != fs[j].relative
  }

  lemma {:induction false} DistinctAppend(xs: seq<LocalFile>, ys: seq<LocalFile>)
    requires DistinctPaths(xs) && DistinctPaths(ys)
    requires forall x, y | x in xs && y in ys :: x.relative != y.relative
    ensures DistinctPaths(xs + ys)
  {
    forall i, j | 0 <= i < j < |xs + ys| ensures (xs + ys)[i].relative != (xs + ys)[j].relative {
      if i < |xs| <= j {
        assert xs[i] in xs && ys[j - |xs|] in ys;
      }
    }
  }

  lemma {:induction false} WalkedNames(es: seq<Entry>, prefix: Path, recursive: bool, f: LocalFile)
    requires Walked(es, prefix, recursive).Some? && f in Walked(es, prefix, recursive).value
    ensures prefix < f.relative && exists e | e in es :: e.name == Some(f.relative[|prefix|])
  {
    WalkedIsBelow(es, prefix, recursive);
    var rel := f.relative[|prefix|..];
    assert f == LocalFile(prefix + rel, f.body);
    WalkSelects(es, prefix, recursive, rel, f.body);
    assert Selected(es, rel, f.body);
  }

  lemma {:induction false} WalkedPathsAreDistinct(es: seq<Entry>, prefix: Path, recursive: bool)
    requires ValidTree(es) && Walked(es, prefix, recursive).Some?
    ensures DistinctPaths(Walked(es, prefix, recursive).value)
    decreases TreeSize(es)
  {
    if es != [] {
      var n := |es| - 1;
      var before, e := es[..n], es[n];
      WalkedPathsAreDistinct(before, prefix, recursive);
      var xs := Walked(before, prefix, recursive).value;
      if Considered(e) && (e.node.File? || (e.node.Dir? && recursive)) {
        var ys := if e.node.File? then [LocalFile(prefix + [e.name.value], e.node.body)]
                  else Walked(e.node.children, prefix + [e.name.value], recursive).value;
        if e.node.Dir? {
          assert TreeSize(e.node.children) == EntrySize(e) < TreeSize(es) && ValidEntry(e);
          WalkedPathsAreDistinct(e.node.children, prefix + [e.name.value], recursive);
          WalkedIsBelow(e.node.children, prefix + [e.name.value], recursive);
        }
        forall x, y | x in xs && y in ys ensures x.relative != y.relative {
          WalkedNames(before, prefix, recursive, x);
          var a :| a in before && a.name == Some(x.relative[|prefix|]);
          assert a.name != e.name;
          assert prefix + [e.name.value] <= y.relative;
          assert y.relative[|prefix|] == e.name.value;
        }
        DistinctAppend(xs, ys);
      }
    }
  }
}
