/** Where a path text leads: the reading of `/`, `\`, `.` and `..` that any local file system may give it. */
module PathTexts {
  import opened Text

  predicate IsSeparator(c: char) { c == '/' || c == '\\' }

  /** The text between separators of either kind. */
  function Pieces(text: string): (ps: seq<string>)
    ensures |ps| >= 1
  {
    if text == "" then [""]
    else
      var rest := Pieces(text[1..]);
      if IsSeparator(text[0]) then [""] + rest else [[text[0]] + rest[0]] + rest[1..]
  }

  /** Following the pieces from `base`: empty ones and `.` stay, `..` goes up, everything else goes down. */
  function Follow(base: seq<string>, ps: seq<string>): seq<string>
    decreases |ps|
  {
    if ps == [] then base
    else if ps[0] == "" || ps[0] == "." then Follow(base, ps[1..])
    else if ps[0] == ".." then Follow(if base == [] then [] else base[..|base| - 1], ps[1..])
    else Follow(base + [ps[0]], ps[1..])
  }

  function Resolve(base: seq<string>, text: string): seq<string> { Follow(base, Pieces(text)) }

  /** Control characters, by code point. */
  predicate HasControl(text: string) { exists c | c in text :: c as int < 0x20 || 0x7F <= c as int <= 0x9F }

  predicate NoSeparator(text: string) { forall c | c in text :: !IsSeparator(c) }

  lemma {:induction false} PlainPiece(name: string, tail: string)
    requires NoSeparator(name)
    ensures Pieces(name) == [name] && Pieces(name + "/" + tail) == [name] + Pieces(tail)
  {
    if name == "" {
      assert (name + "/" + tail)[1..] == tail;
    } else {
      assert name[0] in name && forall c | c in name[1..] :: c in name;
      PlainPiece(name[1..], tail);
      assert (name + "/" + tail)[1..] == name[1..] + "/" + tail;
      assert name == [name[0]] + name[1..];
    }
  }

  lemma {:induction false} PiecesArePlain(text: string, p: string)
    requires p in Pieces(text)
    ensures NoSeparator(p)
  {
    if text != "" {
      var rest := Pieces(text[1..]);
      if p in rest {
        PiecesArePlain(text[1..], p);
      } else if p != "" {
        assert rest[0] in rest;
        PiecesArePlain(text[1..], rest[0]);
        assert p == [text[0]] + rest[0];
      }
    }
  }

  lemma {:induction false} FollowedFromPieces(base: seq<string>, ps: seq<string>, x: string)
    requires x in Follow(base, ps)
    ensures x in base || x in ps
    decreases |ps|
  {
    if ps != [] {
      if ps[0] == "" || ps[0] == "." {
        FollowedFromPieces(base, ps[1..], x);
      } else if ps[0] == ".." {
        FollowedFromPieces(if base == [] then [] else base[..|base| - 1], ps[1..], x);
      } else {
        FollowedFromPieces(base + [ps[0]], ps[1..], x);
      }
    }
  }

  /** A name that is one step down from anywhere: not empty, not `.`, not `..`, without a separator. */
  predicate IsOneStep(name: string) { name != "" && name != "." && name != ".." && NoSeparator(name) }

  lemma {:induction false} OneStepDown(base: seq<string>, name: string, tail: string)
    requires IsOneStep(name)
    ensures Resolve(base, name) == base + [name]
    ensures Resolve(base, name + "/" + tail) == Resolve(base + [name], tail)
  {
    PlainPiece(name, tail);
    assert ([name] + Pieces(tail))[1..] == Pieces(tail);
    var one := [name];
    assert one[1..] == [] && Follow(base, one) == Follow(base + [name], one[1..]) == base + [name];
  }

  /** Such a name is one whose text resolves to itself alone. */
  lemma {:induction false} OneStepIffResolvesToItself(name: string)
    ensures IsOneStep(name) <==> Resolve([], name) == [name]
  {
    if IsOneStep(name) {
      OneStepDown([], name, "");
    }
    if Resolve([], name) == [name] {
      assert name in Follow([], Pieces(name));
      FollowedFromPieces([], Pieces(name), name);
      PiecesArePlain(name, name);
      PlainPiece(name, "");
    }
  }

  /** The text of `rel` leads from any directory to exactly its own components, so strictly below. */
  ghost predicate LeadsBelow(rel: seq<string>)
  {
    rel != [] && !HasControl(Join(rel, '/')) && forall base :: Resolve(base, Join(rel, '/')) == base + rel
  }

  lemma {:induction false} NameLeadsBelow(name: string)
    requires IsOneStep(name) && !HasControl(name)
    ensures LeadsBelow([name])
  {
    forall base ensures Resolve(base, Join([name], '/')) == base + [name] {
      OneStepDown(base, name, "");
    }
  }

  lemma {:induction false} LeadsBelowFrom(name: string, rel: seq<string>)
    requires IsOneStep(name) && !HasControl(name) && LeadsBelow(rel)
    ensures LeadsBelow([name] + rel)
  {
    var all := [name] + rel;
    assert all[1..] == rel && Join(all, '/') == name + ['/'] + Join(rel, '/') == name + "/" + Join(rel, '/');
    forall base ensures Resolve(base, Join(all, '/')) == base + all {
      OneStepDown(base, name, Join(rel, '/'));
      assert base + [name] + rel == base + all;
    }
  }
}
