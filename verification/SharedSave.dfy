/**
 Several processes saving the container at once. They share one sibling file (src/agent/state.rs, tui/src/cli.rs and
 core/src/profile/rotation.rs all use the container's name with `.tmp` behind it), and each save takes steps that others
 may interleave with: open and truncate the sibling, write the envelope through the open file, rename by name.
 */
module SharedSaves {
  import opened Basics
  import opened Profiles

  /** An encrypted set as text; of the text itself only the length matters here. */
  datatype Envelope = Envelope(kek: Kek, pset: ProfileSet, length: nat)

  /**
   What was written to a file since it was last truncated, each writer starting at its beginning: the last text, unless
   that was cut short, and how far any of them reached.
   */
  datatype Text = Text(last: Option<Envelope>, longest: nat)

  const EMPTY := Text(None, 0)

  function Max(a: nat, b: nat): nat { if a >= b then a else b }

  function Over(t: Text, e: Envelope): Text { Text(Some(e), Max(t.longest, e.length)) }

  /** A write that ended after `n` bytes. */
  function CutOver(t: Text, n: nat): Text { if n == 0 then t else Text(None, Max(t.longest, n)) }

  /** The file is exactly one envelope: the last text covers everything before it. */
  predicate IsEnvelope(t: Text) { t.last.Some? && t.last.value.length == t.longest }

  /**
   The files by number; which one the container's name and the sibling's name stand for; which one each saver has open.
   An open file stays the same file when its name moves.
   */
  datatype Files = Files(text: map<nat, Text>, container: nat, tmp: Option<nat>, open: map<nat, nat>, next: nat)

  /** A saver that fails or dies takes no further step; a rotation whose rename fails removes the sibling. */
  datatype Step =
    | OpenTmp(saver: nat)
    | WriteTmp(saver: nat, envelope: Envelope)
    | CutWrite(saver: nat, count: nat)
    | RenameTmp(saver: nat)
    | RemoveTmp(saver: nat)

  ghost predicate Valid(f: Files)
  {
    && f.container in f.text
    && (f.tmp.Some? ==> f.tmp.value in f.text && f.tmp.value != f.container)
    && (forall i | i in f.open :: f.open[i] in f.text)
    && (forall n | n in f.text :: n < f.next)
  }

  /** The file that opening the sibling truncates: the one there is, or a new one. */
  function TmpFile(f: Files): nat { if f.tmp.Some? then f.tmp.value else f.next }

  function Put(f: Files, saver: nat, write: Text -> Text): Files
    requires Valid(f)
  {
    if saver !in f.open then f
    else f.(text := f.text[f.open[saver] := write(f.text[f.open[saver]])], open := f.open - {saver})
  }

  function After(f: Files, step: Step): Files
    requires Valid(f)
  {
    match step
    case OpenTmp(i) =>
      var n := TmpFile(f);
      Files(f.text[n := EMPTY], f.container, Some(n), f.open[i := n], if f.tmp.Some? then f.next else f.next + 1)
    case WriteTmp(i, e) => Put(f, i, t => Over(t, e))
    case CutWrite(i, n) => Put(f, i, t => CutOver(t, n))
    case RenameTmp(_) => if f.tmp.None? then f else f.(container := f.tmp.value, tmp := None)
    case RemoveTmp(_) => f.(tmp := None)
  }

  lemma StepKeepsValid(f: Files, step: Step)
    requires Valid(f)
    ensures Valid(After(f, step))
  {
  }

  function Run(f: Files, steps: seq<Step>): (r: Files)
    requires Valid(f)
    ensures Valid(r)
  {
    if steps == [] then f
    else
      var before := Run(f, steps[..|steps| - 1]);
      StepKeepsValid(before, steps[|steps| - 1]);
      After(before, steps[|steps| - 1])
  }

  /** A reader, or a crash, finds a whole envelope. */
  predicate Whole(f: Files)
    requires f.container in f.text
  {
    IsEnvelope(f.text[f.container])
  }

  ghost predicate WholeThroughout(f: Files, steps: seq<Step>)
    requires Valid(f)
  {
    forall k | 0 <= k <= |steps| :: Whole(Run(f, steps[..k]))
  }

  // ----- what was written, by the order of the steps -----

  /** One writing: a whole text, or the first bytes of one. */
  datatype Stroke = Full(envelope: Envelope) | Part(count: nat)

  function Reach(p: Stroke): nat { if p.Full? then p.envelope.length else p.count }

  /** Strokes that leave a text as it is at the start. */
  function Seed(t: Text): seq<Stroke>
  {
    (if t.longest > 0 then [Part(t.longest)] else []) + (if t.last.Some? then [Full(t.last.value)] else [])
  }

  /** The strokes one step adds to file `n`, or `None` when it truncates the file. */
  function Added(g: Files, step: Step, n: nat): Option<seq<Stroke>>
  {
    match step
    case OpenTmp(_) => if TmpFile(g) == n then None else Some([])
    case WriteTmp(i, e) => Some(if i in g.open && g.open[i] == n then [Full(e)] else [])
    case CutWrite(i, c) => Some(if i in g.open && g.open[i] == n && c > 0 then [Part(c)] else [])
    case _ => Some([])
  }

  /** The strokes on file `n` since it was last truncated, read off the order of the steps. */
  function Strokes(f: Files, steps: seq<Step>, n: nat): seq<Stroke>
    requires Valid(f)
  {
    if steps == [] then if n in f.text then Seed(f.text[n]) else []
    else
      var before := steps[..|steps| - 1];
      var added := Added(Run(f, before), steps[|steps| - 1], n);
      if added.None? then [] else Strokes(f, before, n) + added.value
  }

  /** The last stroke is a whole text, and none before reached further. */
  predicate LastCovers(ps: seq<Stroke>)
  {
    ps != [] && ps[|ps| - 1].Full? && forall p | p in ps :: Reach(p) <= Reach(ps[|ps| - 1])
  }

  function LongestOf(ps: seq<Stroke>): nat
  {
    if ps == [] then 0 else Max(LongestOf(ps[..|ps| - 1]), Reach(ps[|ps| - 1]))
  }

  function LastOf(ps: seq<Stroke>): Option<Envelope>
  {
    if ps != [] && ps[|ps| - 1].Full? then Some(ps[|ps| - 1].envelope) else None
  }

  lemma {:induction false} LongestReaches(ps: seq<Stroke>, m: nat)
    ensures LongestOf(ps) <= m <==> forall p | p in ps :: Reach(p) <= m
  {
    if ps != [] {
      var n := |ps| - 1;
      LongestReaches(ps[..n], m);
      assert ps == ps[..n] + [ps[n]];
    }
  }

  lemma OneMoreStroke(ps: seq<Stroke>, p: Stroke)
    ensures LongestOf(ps + [p]) == Max(LongestOf(ps), Reach(p))
    ensures LastOf(ps + [p]) == if p.Full? then Some(p.envelope) else None
  {
    assert (ps + [p])[..|ps|] == ps;
  }

  /** A well-formed text: nothing reached less far than the last. */
  predicate Sound(t: Text) { t.last.Some? ==> t.last.value.length <= t.longest }

  ghost predicate AllSound(f: Files) { forall n | n in f.text :: Sound(f.text[n]) }

  lemma SeedIsText(t: Text)
    requires Sound(t)
    ensures TextOf(Seed(t)) == t
  {
    var head := if t.longest > 0 then [Part(t.longest)] else [];
    if t.longest > 0 {
      OneMoreStroke([], Part(t.longest));
      assert [] + [Part(t.longest)] == head;
    }
    assert LongestOf(head) == t.longest && LastOf(head) == None;
    if t.last.Some? {
      OneMoreStroke(head, Full(t.last.value));
      assert Seed(t) == head + [Full(t.last.value)];
    } else {
      assert Seed(t) == head;
    }
  }

  function TextOf(ps: seq<Stroke>): Text { Text(LastOf(ps), LongestOf(ps)) }

  lemma StepWritesStrokes(g: Files, step: Step, n: nat, ps: seq<Stroke>)
    requires Valid(g) && (if n in g.text then g.text[n] == TextOf(ps) else ps == [])
    ensures var next := After(g, step);
            var qs := if Added(g, step, n).None? then [] else ps + Added(g, step, n).value;
            if n in next.text then next.text[n] == TextOf(qs) else qs == []
  {
    assert ps + [] == ps;
    match step
    case WriteTmp(i, e) => OneMoreStroke(ps, Full(e));
    case CutWrite(i, c) => OneMoreStroke(ps, Part(c));
    case _ =>
  }

  /** The state of a file is what the strokes on it make of it. */
  lemma {:induction false} TextIsStrokes(f: Files, steps: seq<Step>, n: nat)
    requires Valid(f) && AllSound(f)
    ensures var g := Run(f, steps);
            var ps := Strokes(f, steps, n);
            if n in g.text then g.text[n] == TextOf(ps) else ps == []
  {
    if steps == [] {
      if n in f.text {
        SeedIsText(f.text[n]);
      }
    } else {
      var before := steps[..|steps| - 1];
      TextIsStrokes(f, before, n);
      StepWritesStrokes(Run(f, before), steps[|steps| - 1], n, Strokes(f, before, n));
    }
  }

  lemma EnvelopeIffLastCovers(ps: seq<Stroke>)
    ensures IsEnvelope(TextOf(ps)) <==> LastCovers(ps)
  {
    if ps != [] {
      LongestReaches(ps, Reach(ps[|ps| - 1]));
    }
  }

  // ----- the condition -----

  /**
   Step `k` is safe: a rename finds a sibling whose last text since its truncation is whole and reaches as far as every
   text before it; and what goes to a file already renamed into place is again such a text, or nothing at all.
   */
  ghost predicate Safe(f: Files, steps: seq<Step>, k: nat)
    requires Valid(f) && k < |steps|
  {
    var g := Run(f, steps[..k]);
    match steps[k]
    case OpenTmp(_) => true
    case WriteTmp(i, e) =>
      i in g.open && g.open[i] == g.container ==>
        forall p | p in Strokes(f, steps[..k], g.container) :: Reach(p) <= e.length
    case CutWrite(i, c) => i in g.open && g.open[i] == g.container ==> c == 0
    case RenameTmp(_) => g.tmp.Some? ==> LastCovers(Strokes(f, steps[..k], g.tmp.value))
    case RemoveTmp(_) => true
  }

  lemma StepStaysWhole(g: Files, step: Step)
    requires Valid(g) && Whole(g)
    ensures After(g, step).container in After(g, step).text
    ensures Whole(After(g, step)) <==>
            match step
            case OpenTmp(_) => true
            case WriteTmp(i, e) => i in g.open && g.open[i] == g.container ==> g.text[g.container].longest <= e.length
            case CutWrite(i, c) => i in g.open && g.open[i] == g.container ==> c == 0
            case RenameTmp(_) => g.tmp.Some? ==> IsEnvelope(g.text[g.tmp.value])
            case RemoveTmp(_) => true
  {
  }

  lemma RunNext(f: Files, steps: seq<Step>, k: nat)
    requires Valid(f) && k < |steps|
    ensures Run(f, steps[..k + 1]) == After(Run(f, steps[..k]), steps[k])
  {
    assert steps[..k + 1][..k] == steps[..k];
  }

  lemma SafeStep(f: Files, steps: seq<Step>, k: nat)
    requires Valid(f) && AllSound(f) && k < |steps| && Whole(Run(f, steps[..k]))
    ensures Whole(Run(f, steps[..k + 1])) <==> Safe(f, steps, k)
  {
    var g := Run(f, steps[..k]);
    RunNext(f, steps, k);
    StepStaysWhole(g, steps[k]);
    match steps[k]
    case WriteTmp(i, e) =>
      TextIsStrokes(f, steps[..k], g.container);
      LongestReaches(Strokes(f, steps[..k], g.container), e.length);
    case RenameTmp(_) =>
      if g.tmp.Some? {
        TextIsStrokes(f, steps[..k], g.tmp.value);
        EnvelopeIffLastCovers(Strokes(f, steps[..k], g.tmp.value));
      }
    case _ =>
  }

  /** In every interleaving of saves, failures included, the container is whole at every point iff every step is safe. */
  lemma {:induction false} WholeIffSafe(f: Files, steps: seq<Step>)
    requires Valid(f) && AllSound(f) && Whole(f)
    ensures WholeThroughout(f, steps) <==> forall k | 0 <= k < |steps| :: Safe(f, steps, k)
  {
    assert steps[..0] == [];
    if WholeThroughout(f, steps) {
      forall k | 0 <= k < |steps| ensures Safe(f, steps, k) {
        assert Whole(Run(f, steps[..k])) && Whole(Run(f, steps[..k + 1]));
        SafeStep(f, steps, k);
      }
    }
    if forall k | 0 <= k < |steps| :: Safe(f, steps, k) {
      forall k | 0 <= k <= |steps| ensures Whole(Run(f, steps[..k])) {
        WholeUpTo(f, steps, k);
      }
    }
  }

  lemma {:induction false} WholeUpTo(f: Files, steps: seq<Step>, k: nat)
    requires Valid(f) && AllSound(f) && Whole(f) && k <= |steps|
    requires forall j | 0 <= j < |steps| :: Safe(f, steps, j)
    ensures Whole(Run(f, steps[..k]))
  {
    if k > 0 {
      WholeUpTo(f, steps, k - 1);
      assert Safe(f, steps, k - 1);
      SafeStep(f, steps, k - 1);
    } else {
      assert steps[..0] == [];
    }
  }

  // ----- saves in turn -----

  /** How far a save gets. */
  datatype Ending = Finished | OnlyOpened | CutShort(count: nat) | NotRenamed | Removed

  datatype Save = Save(saver: nat, envelope: Envelope, ending: Ending)

  function StepsOf(s: Save): seq<Step>
  {
    match s.ending
    case Finished => [OpenTmp(s.saver), WriteTmp(s.saver, s.envelope), RenameTmp(s.saver)]
    case OnlyOpened => [OpenTmp(s.saver)]
    case CutShort(n) => [OpenTmp(s.saver), CutWrite(s.saver, n)]
    case NotRenamed => [OpenTmp(s.saver), WriteTmp(s.saver, s.envelope)]
    case Removed => [OpenTmp(s.saver), WriteTmp(s.saver, s.envelope), RemoveTmp(s.saver)]
  }

  function InTurn(saves: seq<Save>): seq<Step>
  {
    if saves == [] then [] else InTurn(saves[..|saves| - 1]) + StepsOf(saves[|saves| - 1])
  }

  /** The text of the last save that finished, or the one there was. */
  function LastFinished(saves: seq<Save>, first: Option<Envelope>): Option<Envelope>
  {
    if saves == [] then first
    else if saves[|saves| - 1].ending.Finished? then Some(saves[|saves| - 1].envelope)
    else LastFinished(saves[..|saves| - 1], first)
  }

  lemma {:induction false} RunAppend(f: Files, a: seq<Step>, b: seq<Step>)
    requires Valid(f)
    ensures Run(f, a + b) == Run(Run(f, a), b)
    decreases |b|
  {
    if b == [] {
      assert a + b == a;
    } else {
      var n := |b| - 1;
      RunAppend(f, a, b[..n]);
      assert (a + b)[..|a + b| - 1] == a + b[..n];
    }
  }

  lemma {:induction false} WholeAppend(f: Files, a: seq<Step>, b: seq<Step>)
    requires Valid(f) && WholeThroughout(f, a) && WholeThroughout(Run(f, a), b)
    ensures WholeThroughout(f, a + b)
  {
    forall k | 0 <= k <= |a + b| ensures Whole(Run(f, (a + b)[..k])) {
      if k <= |a| {
        assert (a + b)[..k] == a[..k];
      } else {
        assert (a + b)[..k] == a + b[..k - |a|];
        RunAppend(f, a, b[..k - |a|]);
      }
    }
  }

  lemma {:induction false} WholeNext(f: Files, steps: seq<Step>, step: Step)
    requires Valid(f) && WholeThroughout(f, steps) && Valid(After(Run(f, steps), step)) && Whole(After(Run(f, steps), step))
    ensures WholeThroughout(f, steps + [step])
    ensures Run(f, steps + [step]) == After(Run(f, steps), step)
  {
    var all := steps + [step];
    assert all[..|steps|] == steps;
    forall k | 0 <= k <= |all| ensures Whole(Run(f, all[..k])) {
      if k <= |steps| {
        assert all[..k] == steps[..k];
      } else {
        assert all[..k] == all;
      }
    }
  }

  lemma NothingDone(f: Files)
    requires Valid(f) && Whole(f)
    ensures WholeThroughout(f, [])
  {
    var none: seq<Step> := [];
    assert none[..0] == none;
  }

  /** One save by itself, however it ends: whole at every point, and the container is its text iff it finished. */
  lemma {:induction false} OneSave(f: Files, s: Save)
    requires Valid(f) && Whole(f)
    ensures WholeThroughout(f, StepsOf(s))
    ensures var g := Run(f, StepsOf(s));
            g.text[g.container].last == if s.ending.Finished? then Some(s.envelope) else f.text[f.container].last
  {
    NothingDone(f);
    var open, write := OpenTmp(s.saver), WriteTmp(s.saver, s.envelope);
    var f1 := After(f, open);
    StepKeepsValid(f, open);
    WholeNext(f, [], open);
    assert [] + [open] == [open];
    match s.ending
    case OnlyOpened =>
    case CutShort(n) =>
      StepKeepsValid(f1, CutWrite(s.saver, n));
      WholeNext(f, [open], CutWrite(s.saver, n));
      assert [open] + [CutWrite(s.saver, n)] == StepsOf(s);
    case NotRenamed => OpenAndWrite(f, s);
    case Finished =>
      OpenAndWrite(f, s);
      WholeNext(f, [open, write], RenameTmp(s.saver));
      assert [open, write] + [RenameTmp(s.saver)] == StepsOf(s);
    case Removed =>
      OpenAndWrite(f, s);
      WholeNext(f, [open, write], RemoveTmp(s.saver));
      assert [open, write] + [RemoveTmp(s.saver)] == StepsOf(s);
  }

  /** The sibling holds the text, the container is as it was, and both ways to go on are open. */
  lemma {:induction false} OpenAndWrite(f: Files, s: Save)
    requires Valid(f) && Whole(f)
    ensures var steps := [OpenTmp(s.saver), WriteTmp(s.saver, s.envelope)];
            var g := Run(f, steps);
            && WholeThroughout(f, steps) && g.container == f.container && g.text[g.container] == f.text[f.container]
            && g.tmp.Some? && g.text[g.tmp.value] == Text(Some(s.envelope), s.envelope.length)
            && Valid(After(g, RenameTmp(s.saver))) && Valid(After(g, RemoveTmp(s.saver)))
  {
    var open, write := OpenTmp(s.saver), WriteTmp(s.saver, s.envelope);
    NothingDone(f);
    StepKeepsValid(f, open);
    WholeNext(f, [], open);
    assert [] + [open] == [open];
    var f1 := After(f, open);
    StepKeepsValid(f1, write);
    WholeNext(f, [open], write);
    assert [open] + [write] == [open, write];
    StepKeepsValid(After(f1, write), RenameTmp(s.saver));
    StepKeepsValid(After(f1, write), RemoveTmp(s.saver));
  }

  /** Saves that take turns are safe, however each ends: whole at every point, in the end the last text that finished. */
  lemma {:induction false} SavesInTurnAreSafe(f: Files, saves: seq<Save>)
    requires Valid(f) && Whole(f)
    ensures WholeThroughout(f, InTurn(saves))
    ensures var g := Run(f, InTurn(saves));
            g.text[g.container].last == LastFinished(saves, f.text[f.container].last)
    decreases |saves|
  {
    var steps := InTurn(saves);
    if saves == [] {
      assert steps[..0] == [];
    } else {
      var n := |saves| - 1;
      var before, last := InTurn(saves[..n]), StepsOf(saves[n]);
      SavesInTurnAreSafe(f, saves[..n]);
      assert before[..|before|] == before;
      assert Whole(Run(f, before[..|before|]));
      OneSave(Run(f, before), saves[n]);
      RunAppend(f, before, last);
      WholeAppend(f, before, last);
    }
  }

  // ----- how it goes wrong -----

  /** A container alone, nobody saving. */
  function Alone(e: Envelope): Files { Files(map[0 := Text(Some(e), e.length)], 0, None, map[], 1) }

  lemma RunThree(f: Files, a: Step, b: Step, c: Step)
    requires Valid(f)
    ensures Valid(After(f, a)) && Valid(After(After(f, a), b))
    ensures Run(f, [a, b, c]) == After(After(After(f, a), b), c)
  {
    assert [a, b, c][..2] == [a, b] && [a, b][..1] == [a] && [a][..0] == [];
    StepKeepsValid(f, a);
    StepKeepsValid(After(f, a), b);
    assert Run(f, [a]) == After(f, a);
    assert Run(f, [a, b]) == After(After(f, a), b);
  }

  /** The second saver truncates the sibling between the first one's write and rename: the container is empty. */
  lemma {:induction false} TornContainer(first: Envelope, a: Envelope)
    ensures Valid(Alone(first)) && AllSound(Alone(first)) && Whole(Alone(first))
    ensures var g := Run(Alone(first), [OpenTmp(1), WriteTmp(1, a), OpenTmp(2)] + [RenameTmp(1)]);
            g.text[g.container] == EMPTY && !Whole(g)
  {
    var f := Alone(first);
    var three := [OpenTmp(1), WriteTmp(1, a), OpenTmp(2)];
    RunThree(f, OpenTmp(1), WriteTmp(1, a), OpenTmp(2));
    assert (three + [RenameTmp(1)])[..3] == three;
  }

  /** Both write before the first rename: the container is whole iff the second text covers the first, and is then it. */
  lemma {:induction false} SecondTextOverFirst(first: Envelope, a: Envelope, b: Envelope)
    ensures Valid(Alone(first))
    ensures var g := Run(Alone(first), [OpenTmp(1), OpenTmp(2), WriteTmp(1, a)] + [WriteTmp(2, b), RenameTmp(1), RenameTmp(2)]);
            g.text[g.container].last == Some(b) && (Whole(g) <==> a.length <= b.length)
  {
    TwoSavers(first, a, WriteTmp(2, b), RenameTmp(1), RenameTmp(2));
  }

  /**
   The second saver writes through its open file after the first one's rename, straight into the live container: whole
   again iff its text covers the first.
   */
  lemma {:induction false} OverwrittenContainer(first: Envelope, a: Envelope, b: Envelope)
    ensures Valid(Alone(first))
    ensures var g := Run(Alone(first), [OpenTmp(1), OpenTmp(2), WriteTmp(1, a)] + [RenameTmp(1), WriteTmp(2, b), RenameTmp(2)]);
            g.text[g.container].last == Some(b) && (Whole(g) <==> a.length <= b.length)
  {
    TwoSavers(first, a, RenameTmp(1), WriteTmp(2, b), RenameTmp(2));
  }

  lemma {:induction false} TwoSavers(first: Envelope, a: Envelope, x: Step, y: Step, z: Step)
    ensures Valid(Alone(first))
    ensures var g := Files(map[0 := Text(Some(first), first.length), 1 := Text(Some(a), a.length)], 0, Some(1), map[2 := 1], 2);
            && Valid(g) && Valid(After(g, x)) && Valid(After(After(g, x), y))
            && Run(Alone(first), [OpenTmp(1), OpenTmp(2), WriteTmp(1, a)] + [x, y, z]) == After(After(After(g, x), y), z)
  {
    var f := Alone(first);
    var g := Files(map[0 := Text(Some(first), first.length), 1 := Text(Some(a), a.length)], 0, Some(1), map[2 := 1], 2);
    RunThree(f, OpenTmp(1), OpenTmp(2), WriteTmp(1, a));
    var h := Run(f, [OpenTmp(1), OpenTmp(2), WriteTmp(1, a)]);
    assert h.text == g.text && h.open == g.open;
    assert h == g;
    RunThree(g, x, y, z);
    RunAppend(f, [OpenTmp(1), OpenTmp(2), WriteTmp(1, a)], [x, y, z]);
  }
}
