/** The completion provider: candidates for the word under the cursor (src/sacs/complete.rs). */
module Completion {
  import opened Basics
  import opened Text
  import opened Sorting
  import opened Decimal
  import opened ListCaches
  import opened Ndjson
  import Grammar

  datatype SacsState = S0Fresh | S1Down | S2Locked | S3Ready | S4ReadyDual

  /** What `read_dir` gives for one entry; a name that is not UTF-8 and metadata that cannot be read are `None`. */
  datatype DirEntry = DirEntry(name: Option<string>, metadata: Option<Metadata>)

  datatype Metadata = Metadata(isSymlink: bool, isDir: bool, size: nat, mtime: int)

  datatype LocalEntry = LocalEntry(name: string, isDir: bool, size: nat, mtime: int)

  type RemoteSource = (Option<string>, KindFilter) -> Option<seq<ListEntry>>

  /** What a run can see: directories by the path typed (`""` is the working directory), the agent, size texts. */
  datatype Env = Env(readDir: string -> Option<seq<DirEntry>>, remote: Option<RemoteSource>, sizeText: nat -> string)

  const CANDIDATE_LIMIT: nat := 50

  const FOOTER_RANK: nat := 0xFFFF_FFFF

  // ----- tokens -----

  predicate AllComposite(s: string)
  {
    s == "" || ((s[0] == 'a' || s[0] == 'r' || s[0] == 'x' || s[0] == 'e') && AllComposite(s[1..]))
  }

  /** The completer's own `is_composite_token`. */
  predicate IsCompositeToken(t: string) { t != "" && (t[0] == 's' || t[0] == 'd') && AllComposite(t[1..]) }

  lemma {:induction false} AllCompositeMeans(s: string)
    ensures AllComposite(s) <==> forall c | c in s :: Grammar.IsModifier(c) || c == 'e'
  {
    if s != "" {
      AllCompositeMeans(s[1..]);
      assert s == [s[0]] + s[1..];
      assert s[0] in s && forall c | c in s[1..] :: c in s;
    }
  }

  /** The completer and the parser agree on what a composite token is. */
  lemma {:induction false} CompositeTokensAgree(t: string)
    ensures IsCompositeToken(t) <==> Grammar.IsReserved(t) && (StartsWithChar(t, 's') || StartsWithChar(t, 'd'))
  {
    if t != "" {
      AllCompositeMeans(t[1..]);
    }
    if Grammar.IsAtom(t) {
      Grammar.AtomsAreNotComposite(t);
    }
  }

  /** `verb.get(1..)`: what follows a one-byte first character. */
  function AfterVerbByte(verb: string): string
  {
    if verb == "" || verb[0] as int >= 0x80 then "" else verb[1..]
  }

  function ModifiersIn(verb: string): Grammar.Modifiers
  {
    var tail := AfterVerbByte(verb);
    Grammar.Modifiers('a' in tail, 'r' in tail, 'x' in tail)
  }

  /** The completer's own `parse_modifiers`, which passes over every other letter. */
  method ParseModifiers(verb: string) returns (m: Grammar.Modifiers)
    ensures m == ModifiersIn(verb)
  {
    m := Grammar.Modifiers(false, false, false);
    var tail := AfterVerbByte(verb);
    for i := 0 to |tail|
      invariant m == Grammar.Modifiers('a' in tail[..i], 'r' in tail[..i], 'x' in tail[..i])
    {
      assert tail[..i + 1] == tail[..i] + [tail[i]];
      match tail[i] {
        case 'a' => m := m.(a := true);
        case 'r' => m := m.(r := true);
        case 'x' => m := m.(x := true);
        case _ =>
      }
    }
    assert tail[..|tail|] == tail;
  }

  /** On every token the parser accepts, the completer reads the same modifiers. */
  lemma {:induction false} ModifiersAgree(command: string, verb: char, tail: string)
    requires (verb == 's' || verb == 'd') && Grammar.ModifiersOf(command, tail).Ok?
    ensures Grammar.ModifiersOf(command, tail) == Ok(ModifiersIn([verb] + tail))
  {
    Grammar.ModifiersAreASet(command, tail);
    assert AfterVerbByte([verb] + tail) == tail;
  }

  // ----- the word under the cursor -----

  /** `split_path_prefix`: the directory part with its slash, and the base name typed so far. */
  function SplitPathPrefix(prefix: string): (r: (string, string))
    ensures r.0 + r.1 == prefix && Free(r.1, '/')
  {
    match LastIndex(prefix, '/')
    case Some(i) => (prefix[..i + 1], prefix[i + 1..])
    case None => ("", prefix)
  }

  /** `parent_for_remote_prefix`. */
  function ParentForRemotePrefix(cur: string): Option<string>
  {
    if '/' !in cur then None
    else
      var trimmed := TrimEnd(cur, '/');
      match LastIndex(trimmed, '/')
      case Some(i) => Some(trimmed[..i])
      case None => None
  }

  /** `cur_last_segment`. */
  function LastSegment(cur: string): string { SplitPathPrefix(cur).1 }

  /** `remote_join`. */
  function RemoteJoin(cur: string, child: string): string
  {
    match LastIndex(cur, '/')
    case Some(i) => cur[..i] + "/" + child
    case None => child
  }

  /** The path of a listed name under the prefix that was listed. */
  function PathUnder(parent: Option<string>, child: string): string
  {
    if parent.Some? then parent.value + "/" + child else child
  }

  /**
   A remote candidate stands for the entry that was listed exactly when the word does not end in `/`: behind `docs/`
   the root is listed, and its names are offered as if they were in `docs`.
   */
  lemma {:induction false} RemoteValueIsListedPath(cur: string, child: string)
    ensures RemoteJoin(cur, child) == PathUnder(ParentForRemotePrefix(cur), child) <==> !EndsWithChar(cur, '/')
  {
    if EndsWithChar(cur, '/') {
      var n := |cur| - 1;
      assert LastIndex(cur, '/') == Some(n);
      assert RemoteJoin(cur, child) == cur + child;
      TrimEndShortens(cur);
      assert |PathUnder(ParentForRemotePrefix(cur), child)| < |cur| + |child|;
    } else {
      assert TrimEnd(cur, '/') == cur;
    }
  }

  lemma TrimEndShortens(s: string)
    requires EndsWithChar(s, '/')
    ensures |TrimEnd(s, '/')| < |s|
  {
    assert TrimEnd(s, '/') == TrimEnd(s[..|s| - 1], '/');
  }

  // ----- orders and rows -----

  /** The descriptions, one per remark. */
  datatype Remark =
    | OpenTheTui
    | CheatSheet
    | UnlockActive
    | LockTheAgent
    | WipeState
    | Diagnostics
    | ExplicitUpload
    | DownloadFiles
    | BulkTopLevel
    | ZstdCompress
    | AndDecompress
    | RecursiveBundle
    | RecursiveDecompress
    | UnlockActiveAuto
    | UnlockTheLocal
    | UnlockTheRemote
    | UnlockPlain
    | ForceLocal
    | ForceRemote
    | UploadIt
    | UploadCompressed
    | AddAsSource
    | DownloadDecompressed
    | DownloadRaw
    | AddRemoteSource

  function Wording(remark: Remark): string
  {
    match remark
    case OpenTheTui => "open the configuration TUI"
    case CheatSheet => "show the cheat sheet"
    case UnlockActive => "unlock the active container"
    case LockTheAgent => "lock the agent"
    case WipeState => "wipe local zz-drop state"
    case Diagnostics => "doctor / diagnostics"
    case ExplicitUpload => "explicit upload · press space for files"
    case DownloadFiles => "download · press space for files"
    case BulkTopLevel => "+ bulk top-level (dir)"
    case ZstdCompress => "+ zstd compress"
    case AndDecompress => "+ decompress"
    case RecursiveBundle => "+ recursive bundle + zstd"
    case RecursiveDecompress => "+ recursive + decompress"
    case UnlockActiveAuto => "unlock active container (auto)"
    case UnlockTheLocal => "unlock the local container"
    case UnlockTheRemote => "unlock the remote container"
    case UnlockPlain => "unlock active container"
    case ForceLocal => "force the local container"
    case ForceRemote => "force the remote container"
    case UploadIt => "upload"
    case UploadCompressed => "upload + zstd compress"
    case AddAsSource => "add as source"
    case DownloadDecompressed => "download + decompress · remote"
    case DownloadRaw => "download (raw bytes) · remote"
    case AddRemoteSource => "add as source · remote"
  }

  /** Newest first, then by name. */
  predicate NewestFirst(a: LocalEntry, b: LocalEntry)
  {
    a.mtime > b.mtime || (a.mtime == b.mtime && StringLe(a.name, b.name))
  }

  predicate ByName(a: ListEntry, b: ListEntry) { StringLe(a.name, b.name) }

  lemma LocalOrder()
    ensures TotalPreorder(NewestFirst)
  {
    StringOrder();
  }

  lemma RemoteOrder()
    ensures TotalPreorder(ByName)
  {
    StringOrder();
  }

  function FooterRow(extra: nat, total: nat, caption: string): Candidate
  {
    Candidate("", "",
              "+" + Print(extra) + " more matches — keep typing to narrow  " + Print(total) + " " + caption +
              " total · newest first",
              Footer, FOOTER_RANK)
  }

  function LocalFileCandidate(caption: Remark, base: nat, annotateNewest: bool, sizeText: nat -> string, i: nat,
                              e: LocalEntry): Candidate
  {
    var value := if e.isDir then e.name + "/" else e.name;
    var description := if e.isDir then "directory · navigate"
                       else Wording(caption) + " · " + sizeText(e.size) + if annotateNewest && i == 0 then " · newest" else "";
    Candidate(value, "zz " + value, description, if e.isDir then DirLocal else FileLocal, base + i)
  }

  function RemoteFileCandidate(verb: string, cur: string, caption: Remark, base: nat, sizeText: nat -> string, i: nat,
                               e: ListEntry): Candidate
  {
    Candidate(RemoteJoin(cur, e.name), VerbDisplay(verb) + " " + e.name,
              if e.size.Some? then Wording(caption) + " · " + sizeText(e.size.value) else Wording(caption), FileRemote, base + i)
  }

  function RemoteDirCandidate(verb: string, cur: string, base: nat, i: nat, e: ListEntry): Candidate
  {
    var joined := RemoteJoin(cur, e.name);
    Candidate(if EndsWithChar(joined, '/') then joined else joined + "/", VerbDisplay(verb) + " " + e.name + "/", "",
              DirRemote, base + i)
  }

  function VerbDisplay(verb: string): string { if verb == "" then "zz" else "zz " + verb }

  function LocalFileRow(caption: Remark, base: nat, annotateNewest: bool, sizeText: nat -> string)
    : (nat, LocalEntry) -> Candidate
  {
    (i: nat, e: LocalEntry) => LocalFileCandidate(caption, base, annotateNewest, sizeText, i, e)
  }

  function LocalDirRow(display: string, base: nat): (nat, LocalEntry) -> Candidate
  {
    (i: nat, e: LocalEntry) => Candidate(e.name + "/", display + e.name + "/", "", DirLocal, base + i)
  }

  function RemoteFileRow(verb: string, cur: string, caption: Remark, base: nat, sizeText: nat -> string)
    : (nat, ListEntry) -> Candidate
  {
    (i: nat, e: ListEntry) => RemoteFileCandidate(verb, cur, caption, base, sizeText, i, e)
  }

  function RemoteDirRow(verb: string, cur: string, base: nat): (nat, ListEntry) -> Candidate
  {
    (i: nat, e: ListEntry) => RemoteDirCandidate(verb, cur, base, i, e)
  }

  function Shown<E>(xs: seq<E>): nat { if |xs| <= CANDIDATE_LIMIT then |xs| else CANDIDATE_LIMIT }

  function FirstRows<E>(xs: seq<E>, n: nat, row: (nat, E) -> Candidate): (rows: seq<Candidate>)
    requires n <= |xs|
    ensures |rows| == n && forall i | 0 <= i < n :: rows[i] == row(i, xs[i])
  {
    if n == 0 then [] else FirstRows(xs, n - 1, row) + [row(n - 1, xs[n - 1])]
  }

  function Overflow(total: nat, caption: string): seq<Candidate>
  {
    if total > CANDIDATE_LIMIT then [FooterRow(total - CANDIDATE_LIMIT, total, caption)] else []
  }

  function Capped<E>(xs: seq<E>, row: (nat, E) -> Candidate, caption: string): seq<Candidate>
  {
    FirstRows(xs, Shown(xs), row) + Overflow(|xs|, caption)
  }

  /** The loop of every ranked group: a row for each of the first entries, and a footer for the rest. */
  method CapRows<E>(xs: seq<E>, row: (nat, E) -> Candidate, caption: string) returns (out: seq<Candidate>)
    ensures out == Capped(xs, row, caption)
  {
    out := [];
    var i := 0;
    while i < |xs| && i < CANDIDATE_LIMIT
      invariant 0 <= i <= Shown(xs)
      invariant out == FirstRows(xs, i, row)
    {
      out := out + [row(i, xs[i])];
      i := i + 1;
    }
    if |xs| > CANDIDATE_LIMIT {
      out := out + [FooterRow(|xs| - CANDIDATE_LIMIT, |xs|, caption)];
    }
  }

  /**
   What a ranked group owes its reader: the best of all the matches under `order`, at most fifty, one row each in that
   order, and behind them a footer with the exact numbers just when some were left out.
   */
  ghost predicate ShowsTheBest<E(!new)>(out: seq<Candidate>, matches: seq<E>, order: (E, E) -> bool,
                                  row: (nat, E) -> Candidate, caption: string)
  {
    exists best: seq<E>, rest: seq<E> :: AreBest(best, rest, matches, order) && AreShown(out, best, rest, row, caption)
  }

  ghost predicate AreBest<E>(best: seq<E>, rest: seq<E>, matches: seq<E>, order: (E, E) -> bool)
  {
    && multiset(best) + multiset(rest) == multiset(matches)
    && Sorted(best, order) && (forall i, j | 0 <= i < |best| && 0 <= j < |rest| :: order(best[i], rest[j]))
    && |best| <= CANDIDATE_LIMIT && (rest != [] ==> |best| == CANDIDATE_LIMIT)
  }

  ghost predicate AreShown<E>(out: seq<Candidate>, best: seq<E>, rest: seq<E>, row: (nat, E) -> Candidate,
                              caption: string)
  {
    && |out| == |best| + (if rest == [] then 0 else 1)
    && (forall i: nat | i < |best| :: out[i] == row(i, best[i]))
    && (rest != [] ==> out[|best|] == FooterRow(|rest|, |best| + |rest|, caption))
  }

  lemma {:induction false} CappedSortShowsTheBest<E(!new)>(matches: seq<E>, order: (E, E) -> bool,
                                                           row: (nat, E) -> Candidate, caption: string)
    requires TotalPreorder(order)
    ensures ShowsTheBest(Capped(Sort(matches, order), row, caption), matches, order, row, caption)
  {
    SortPermutes(matches, order);
    SortSorts(matches, order);
    CappedShowsTheBest(Sort(matches, order), matches, order, row, caption);
  }

  lemma {:induction false} CappedShowsTheBest<E(!new)>(s: seq<E>, matches: seq<E>, order: (E, E) -> bool,
                                                       row: (nat, E) -> Candidate, caption: string)
    requires Sorted(s, order) && multiset(s) == multiset(matches)
    ensures ShowsTheBest(Capped(s, row, caption), matches, order, row, caption)
  {
    var n := Shown(s);
    var best, rest := s[..n], s[n..];
    assert AreBest(best, rest, matches, order) by {
      assert s == best + rest;
    }
    RowsAreShown(s, row, caption);
  }

  lemma {:induction false} RowsAreShown<E>(s: seq<E>, row: (nat, E) -> Candidate, caption: string)
    ensures AreShown(Capped(s, row, caption), s[..Shown(s)], s[Shown(s)..], row, caption)
  {
    var rows := FirstRows(s, Shown(s), row);
    var out, footer := Capped(s, row, caption), Overflow(|s|, caption);
    assert out == rows + footer && |rows| == Shown(s);
    assert forall i: nat | i < |rows| :: out[i] == rows[i];
    assert footer != [] ==> out[|rows|] == footer[0];
  }

  // ----- local entries -----

  /** What becomes of one directory entry: hidden, mismatching, unreadable and symbolic-link entries are passed over. */
  function Keep(dirPart: string, base: string, dirsOnly: bool, e: DirEntry): Option<LocalEntry>
  {
    if e.name.None? || StartsWithChar(e.name.value, '.') then None
    else if base != "" && !StartsWith(e.name.value, base) then None
    else if e.metadata.None? || e.metadata.value.isSymlink then None
    else
      var m := e.metadata.value;
      if m.isDir != dirsOnly then None else Some(LocalEntry(dirPart + e.name.value, m.isDir, m.size, m.mtime))
  }

  function Kept(dirPart: string, base: string, dirsOnly: bool, entries: seq<DirEntry>): seq<LocalEntry>
  {
    if entries == [] then []
    else
      var n := |entries| - 1;
      var last := Keep(dirPart, base, dirsOnly, entries[n]);
      Kept(dirPart, base, dirsOnly, entries[..n]) + if last.Some? then [last.value] else []
  }

  /** All the local matches for the word `cur`. */
  function LocalMatches(env: Env, cur: string, dirsOnly: bool): seq<LocalEntry>
  {
    var (dirPart, base) := SplitPathPrefix(cur);
    match env.readDir(dirPart)
    case None => []
    case Some(entries) => Kept(dirPart, base, dirsOnly, entries)
  }

  /** `collect_local`. */
  method CollectLocal(env: Env, cur: string, dirsOnly: bool) returns (out: seq<LocalEntry>)
    ensures out == LocalMatches(env, cur, dirsOnly)
  {
    var (dirPart, base) := SplitPathPrefix(cur);
    var read := env.readDir(dirPart);
    if read.None? {
      return [];
    }
    var entries := read.value;
    out := [];
    for i := 0 to |entries|
      invariant out == Kept(dirPart, base, dirsOnly, entries[..i])
    {
      assert entries[..i + 1][..i] == entries[..i];
      var e := entries[i];
      if e.name.None? || StartsWithChar(e.name.value, '.') {
        continue;
      }
      if base != "" && !StartsWith(e.name.value, base) {
        continue;
      }
      if e.metadata.None? || e.metadata.value.isSymlink {
        continue;
      }
      var m := e.metadata.value;
      if m.isDir != dirsOnly {
        continue;
      }
      out := out + [LocalEntry(dirPart + e.name.value, m.isDir, m.size, m.mtime)];
    }
    assert entries[..|entries|] == entries;
  }

  lemma {:induction false} KeptMembers(dirPart: string, base: string, dirsOnly: bool, entries: seq<DirEntry>,
                                       x: LocalEntry)
    ensures x in Kept(dirPart, base, dirsOnly, entries) <==>
            exists e | e in entries :: Keep(dirPart, base, dirsOnly, e) == Some(x)
    decreases |entries|
  {
    if entries != [] {
      var n := |entries| - 1;
      KeptMembers(dirPart, base, dirsOnly, entries[..n], x);
      assert entries == entries[..n] + [entries[n]];
    }
  }

  /** A local match is an entry of the directory typed, of the kind asked for, not hidden, no link, and it extends `cur`. */
  lemma {:induction false} LocalMatchesAre(env: Env, cur: string, dirsOnly: bool, x: LocalEntry)
    ensures x in LocalMatches(env, cur, dirsOnly) <==>
            var (dirPart, base) := SplitPathPrefix(cur);
            && env.readDir(dirPart).Some?
            && exists e, name | e in env.readDir(dirPart).value && e.name == Some(name) ::
                 && !StartsWithChar(name, '.') && base <= name
                 && e.metadata == Some(Metadata(false, dirsOnly, x.size, x.mtime))
                 && x.isDir == dirsOnly && x.name == dirPart + name
    ensures x in LocalMatches(env, cur, dirsOnly) ==> cur <= x.name && x.isDir == dirsOnly
  {
    var (dirPart, base) := SplitPathPrefix(cur);
    if env.readDir(dirPart).Some? {
      var entries := env.readDir(dirPart).value;
      KeptMembers(dirPart, base, dirsOnly, entries, x);
      forall e, name | e in entries && e.name == Some(name) && Keep(dirPart, base, dirsOnly, e) == Some(x)
        ensures cur <= x.name
      {
        assert x.name[..|dirPart|] == dirPart && x.name[|dirPart|..] == name;
      }
    }
  }

  /** `rank_local_files`. */
  method RankLocalFiles(entries: seq<LocalEntry>, caption: Remark, base: nat, annotateNewest: bool,
                        sizeText: nat -> string) returns (out: seq<Candidate>)
    ensures out == Capped(Sort(entries, NewestFirst), LocalFileRow(caption, base, annotateNewest, sizeText), "files")
  {
    out := CapRows(Sort(entries, NewestFirst), LocalFileRow(caption, base, annotateNewest, sizeText), "files");
  }

  /** The directories of the word's directory part, `collect_local_dirs_ranked` and its inline copies. */
  method RankLocalDirs(env: Env, cur: string, display: string, base: nat) returns (out: seq<Candidate>)
    ensures out == Show(env, cur, LocalDirs(display, base))
  {
    var entries := CollectLocal(env, cur, true);
    out := CapRows(Sort(entries, NewestFirst), LocalDirRow(display, base), "directories");
  }

  // ----- remote entries -----

  /** `try_list_remote`: every failure counts as nothing listed. */
  function TryListRemote(source: Option<RemoteSource>, prefix: Option<string>, kind: KindFilter): seq<ListEntry>
  {
    match source
    case None => []
    case Some(list) =>
      match list(prefix, kind)
      case None => []
      case Some(entries) => entries
  }

  function Fits(kind: RemoteKind, cur: string): ListEntry -> bool
  {
    (e: ListEntry) => e.kind == kind && (LastSegment(cur) == "" || StartsWith(e.name, LastSegment(cur)))
  }

  function RemoteMatches(env: Env, cur: string, query: KindFilter, kind: RemoteKind): seq<ListEntry>
  {
    Filter(Fits(kind, cur), TryListRemote(env.remote, ParentForRemotePrefix(cur), query))
  }

  /** `rank_remote_files`. */
  method RankRemoteFiles(entries: seq<ListEntry>, verb: string, cur: string, caption: Remark, base: nat,
                         sizeText: nat -> string) returns (out: seq<Candidate>)
    ensures out == Capped(Sort(Filter(Fits(File, cur), entries), ByName),
                          RemoteFileRow(verb, cur, caption, base, sizeText), "remote files")
  {
    out := CapRows(Sort(Filter(Fits(File, cur), entries), ByName), RemoteFileRow(verb, cur, caption, base, sizeText),
                   "remote files");
  }

  /** `rank_remote_dirs`. */
  method RankRemoteDirs(entries: seq<ListEntry>, verb: string, cur: string, base: nat) returns (out: seq<Candidate>)
    ensures out == Capped(Sort(Filter(Fits(Directory, cur), entries), ByName), RemoteDirRow(verb, cur, base),
                          "remote dirs")
  {
    out := CapRows(Sort(Filter(Fits(Directory, cur), entries), ByName), RemoteDirRow(verb, cur, base), "remote dirs");
  }

  // ----- fixed words -----

  datatype Word = Word(value: string, kind: Kind, rank: nat, remark: Remark)

  function WordFits(cur: string): Word -> bool { (w: Word) => cur == "" || StartsWith(w.value, cur) }

  function WordRow(): Word -> Candidate { (w: Word) => Candidate(w.value, "zz " + w.value, Wording(w.remark), w.kind, w.rank) }

  /** `filter_atomic`. */
  function FilterAtomic(words: seq<Word>, cur: string): seq<Candidate> { Map(WordRow(), Filter(WordFits(cur), words)) }

  function FreshWords(): seq<Word>
  {
    [Word("c", Atomic, 1, OpenTheTui), Word("--help", Help, 2, CheatSheet)]
  }

  function DownWords(): seq<Word>
  {
    [Word("z", Atomic, 1, UnlockActive), Word("c", Atomic, 2, OpenTheTui),
     Word("q", Atomic, 3, LockTheAgent), Word("w", Atomic, 4, WipeState),
     Word("f", Atomic, 5, Diagnostics)]
  }

  function LockedWords(): seq<Word>
  {
    [Word("z", Atomic, 1, UnlockActive), Word("q", Atomic, 2, LockTheAgent),
     Word("c", Atomic, 3, OpenTheTui), Word("w", Atomic, 4, WipeState),
     Word("f", Atomic, 5, Diagnostics)]
  }

  function VerbWords(): seq<Word>
  {
    [Word("s", Verb, 100, ExplicitUpload),
     Word("d", Verb, 101, DownloadFiles), Word("sa", Verb, 102, BulkTopLevel),
     Word("sx", Verb, 103, ZstdCompress), Word("dx", Verb, 104, AndDecompress),
     Word("sarx", Verb, 105, RecursiveBundle), Word("darx", Verb, 106, RecursiveDecompress)]
  }

  function ReadyAtoms(): seq<Word>
  {
    [Word("q", Atomic, 200, LockTheAgent), Word("c", Atomic, 201, OpenTheTui),
     Word("f", Atomic, 202, Diagnostics)]
  }

  function UnlockWords(state: SacsState): seq<Word>
  {
    if state.S4ReadyDual? then
      [Word("z", Atomic, 210, UnlockActiveAuto),
       Word("z local", Atomic, 211, UnlockTheLocal),
       Word("z remote", Atomic, 212, UnlockTheRemote)]
    else [Word("z", Atomic, 210, UnlockPlain)]
  }

  function ContainerWords(state: SacsState): seq<Word>
  {
    [Word("local", Atomic, 1, ForceLocal)] +
    if state.S4ReadyDual? then [Word("remote", Atomic, 2, ForceRemote)] else []
  }

  // ----- what is offered where -----

  datatype Group =
    | LocalFiles(caption: Remark, base: nat, annotateNewest: bool)
    | LocalDirs(display: string, base: nat)
    | RemoteFiles(verb: string, caption: Remark, base: nat, query: KindFilter)
    | RemoteDirs(verb: string, base: nat, query: KindFilter)
    | Words(words: seq<Word>)

  function Show(env: Env, cur: string, g: Group): seq<Candidate>
  {
    match g
    case LocalFiles(caption, base, annotateNewest) =>
      Capped(Sort(LocalMatches(env, cur, false), NewestFirst), LocalFileRow(caption, base, annotateNewest, env.sizeText),
             "files")
    case LocalDirs(display, base) =>
      Capped(Sort(LocalMatches(env, cur, true), NewestFirst), LocalDirRow(display, base), "directories")
    case RemoteFiles(verb, caption, base, query) =>
      Capped(Sort(RemoteMatches(env, cur, query, File), ByName), RemoteFileRow(verb, cur, caption, base, env.sizeText),
             "remote files")
    case RemoteDirs(verb, base, query) =>
      Capped(Sort(RemoteMatches(env, cur, query, Directory), ByName), RemoteDirRow(verb, cur, base), "remote dirs")
    case Words(words) => FilterAtomic(words, cur)
  }

  function ConcatAll(show: Group -> seq<Candidate>, plan: seq<Group>): seq<Candidate>
  {
    if plan == [] then [] else ConcatAll(show, plan[..|plan| - 1]) + show(plan[|plan| - 1])
  }

  function Showing(env: Env, cur: string): Group -> seq<Candidate> { (g: Group) => Show(env, cur, g) }

  function ShowAll(env: Env, cur: string, plan: seq<Group>): seq<Candidate> { ConcatAll(Showing(env, cur), plan) }

  function FirstLocals(cur: string): seq<Group>
  {
    if cur != "" && IsCompositeToken(cur) then [] else [LocalFiles(UploadIt, 1, true), LocalDirs("zz ", 50)]
  }

  function FirstArgPlan(state: SacsState, cur: string): seq<Group>
  {
    FirstLocals(cur) + [Words(VerbWords()), Words(ReadyAtoms()), Words(UnlockWords(state))]
  }

  /** After `sa` and `da`: first a local directory, then a remote prefix. */
  function BulkGroup(verb: string, after: seq<string>): Group
  {
    if after == [] then LocalDirs("zz sa ", 1) else RemoteDirs(verb, 1, DirectoryOnly)
  }

  function AfterSPlan(verb: string, after: seq<string>): seq<Group>
  {
    var m := ModifiersIn(verb);
    if m.a then [BulkGroup(verb, after)]
    else if after == [] then
      [LocalFiles(if m.x then UploadCompressed else UploadIt, 1, true), LocalDirs("zz ", 100)]
    else [LocalFiles(AddAsSource, 1, false), LocalDirs("zz ", 25), RemoteDirs(verb, 50, DirectoryOnly)]
  }

  function AfterDPlan(verb: string, after: seq<string>): seq<Group>
  {
    var m := ModifiersIn(verb);
    if m.a then [BulkGroup(verb, after)]
    else if after == [] then
      [RemoteFiles(verb, if m.x then DownloadDecompressed else DownloadRaw, 1, Both),
       RemoteDirs(verb, 50, Both)]
    else [RemoteFiles(verb, AddRemoteSource, 1, Both), LocalDirs("zz sa ", 51)]
  }

  predicate IsReady(state: SacsState) { state.S3Ready? || state.S4ReadyDual? }

  /** The groups offered in each state and position. */
  function Plan(state: SacsState, prev: seq<string>, cur: string): seq<Group>
  {
    if !IsReady(state) then [Words(SetupWords(state))]
    else if prev == [] then FirstArgPlan(state, cur)
    else AfterVerbPlan(state, prev, cur)
  }

  function SetupWords(state: SacsState): seq<Word>
  {
    match state
    case S0Fresh => FreshWords()
    case S1Down => DownWords()
    case _ => LockedWords()
  }

  function AfterVerbPlan(state: SacsState, prev: seq<string>, cur: string): seq<Group>
    requires prev != []
  {
    if IsCompositeToken(prev[0]) then
      if prev[0][0] == 's' then AfterSPlan(prev[0], prev[1..]) else AfterDPlan(prev[0], prev[1..])
    else if Grammar.IsAtom(prev[0]) then
      if prev[0] == "z" && |prev| == 1 then [Words(ContainerWords(state))] else []
    else [LocalFiles(AddAsSource, 1, false), RemoteDirs("", 50, DirectoryOnly)]
  }

  function CurrentWord(tokens: seq<string>): string { if tokens == [] then "" else tokens[|tokens| - 1] }

  function PreviousTokens(tokens: seq<string>): seq<string> { if tokens == [] then [] else tokens[..|tokens| - 1] }

  lemma ConcatNext(show: Group -> seq<Candidate>, plan: seq<Group>, g: Group)
    ensures ConcatAll(show, plan + [g]) == ConcatAll(show, plan) + show(g)
  {
    assert (plan + [g])[..|plan|] == plan;
  }

  lemma ConcatThree(show: Group -> seq<Candidate>, plan: seq<Group>, g: Group, h: Group, k: Group)
    ensures ConcatAll(show, plan + [g, h, k]) == ConcatAll(show, plan) + show(g) + show(h) + show(k)
  {
    ConcatNext(show, plan, g);
    ConcatNext(show, plan + [g], h);
    ConcatNext(show, plan + [g] + [h], k);
    assert plan + [g, h, k] == plan + [g] + [h] + [k];
  }

  lemma JustThree(show: Group -> seq<Candidate>, g: Group, h: Group, k: Group)
    ensures ConcatAll(show, [g, h, k]) == show(g) + show(h) + show(k)
  {
    ConcatThree(show, [], g, h, k);
    assert [] + [g, h, k] == [g, h, k];
    assert ConcatAll(show, []) + show(g) == show(g);
  }

  lemma ShowAllNext(env: Env, cur: string, plan: seq<Group>, g: Group)
    ensures ShowAll(env, cur, plan + [g]) == ShowAll(env, cur, plan) + Show(env, cur, g)
  {
    ConcatNext(Showing(env, cur), plan, g);
  }

  lemma ShowOne(env: Env, cur: string, g: Group)
    ensures ShowAll(env, cur, [g]) == Show(env, cur, g)
  {
    ShowAllNext(env, cur, [], g);
    assert [] + [g] == [g];
  }

  lemma JustTwo(show: Group -> seq<Candidate>, g: Group, h: Group)
    ensures ConcatAll(show, [g, h]) == show(g) + show(h)
  {
    ConcatNext(show, [], g);
    ConcatNext(show, [g], h);
    assert [] + [g] == [g] && [g] + [h] == [g, h];
  }

  /** The groups one at a time; what stands behind `Show` is of no interest where they are put together. */
  method LocalFileGroup(env: Env, cur: string, caption: Remark, base: nat, annotateNewest: bool)
    returns (out: seq<Candidate>)
    ensures out == Showing(env, cur)(LocalFiles(caption, base, annotateNewest))
  {
    var files := CollectLocal(env, cur, false);
    out := RankLocalFiles(files, caption, base, annotateNewest, env.sizeText);
  }

  method LocalDirGroup(env: Env, cur: string, display: string, base: nat) returns (out: seq<Candidate>)
    ensures out == Showing(env, cur)(LocalDirs(display, base))
  {
    out := RankLocalDirs(env, cur, display, base);
  }

  method RemoteDirGroup(env: Env, cur: string, verb: string, base: nat, query: KindFilter) returns (out: seq<Candidate>)
    ensures out == Showing(env, cur)(RemoteDirs(verb, base, query))
  {
    out := RankRemoteDirs(TryListRemote(env.remote, ParentForRemotePrefix(cur), query), verb, cur, base);
  }

  method RemoteFileGroup(env: Env, cur: string, verb: string, caption: Remark, base: nat) returns (out: seq<Candidate>)
    ensures out == Showing(env, cur)(RemoteFiles(verb, caption, base, Both))
  {
    out := RankRemoteFiles(TryListRemote(env.remote, ParentForRemotePrefix(cur), Both), verb, cur, caption, base,
                           env.sizeText);
  }

  /** The local part of the first position: nothing while a verb is being composed. */
  method LocalsFirst(env: Env, cur: string) returns (out: seq<Candidate>)
    ensures out == ShowAll(env, cur, FirstLocals(cur))
  {
    if cur != "" && IsCompositeToken(cur) {
      return [];
    }
    out := LocalFileGroup(env, cur, UploadIt, 1, true);
    var dirs := LocalDirGroup(env, cur, "zz ", 50);
    out := out + dirs;
    JustTwo(Showing(env, cur), LocalFiles(UploadIt, 1, true), LocalDirs("zz ", 50));
  }

  method AddWords(env: Env, cur: string, locals: seq<Candidate>, ghost plan: seq<Group>, verbs: seq<Word>,
                  atoms: seq<Word>, unlocks: seq<Word>) returns (out: seq<Candidate>)
    requires locals == ShowAll(env, cur, plan)
    ensures out == ShowAll(env, cur, plan + [Words(verbs), Words(atoms), Words(unlocks)])
  {
    out := locals + FilterAtomic(verbs, cur);
    out := out + FilterAtomic(atoms, cur);
    out := out + FilterAtomic(unlocks, cur);
    ConcatThree(Showing(env, cur), plan, Words(verbs), Words(atoms), Words(unlocks));
  }

  method ShowWords(env: Env, cur: string, words: seq<Word>) returns (out: seq<Candidate>)
    ensures out == ShowAll(env, cur, [Words(words)])
  {
    ShowOne(env, cur, Words(words));
    return FilterAtomic(words, cur);
  }

  method ReadyFirstArg(env: Env, state: SacsState, cur: string) returns (out: seq<Candidate>)
    ensures out == ShowAll(env, cur, FirstArgPlan(state, cur))
  {
    out := LocalsFirst(env, cur);
    out := AddWords(env, cur, out, FirstLocals(cur), VerbWords(), ReadyAtoms(), UnlockWords(state));
  }

  method BulkArgument(env: Env, verb: string, after: seq<string>, cur: string) returns (out: seq<Candidate>)
    ensures out == ShowAll(env, cur, [BulkGroup(verb, after)])
  {
    ShowOne(env, cur, BulkGroup(verb, after));
    if after == [] {
      out := RankLocalDirs(env, cur, "zz sa ", 1);
    } else {
      out := RankRemoteDirs(TryListRemote(env.remote, ParentForRemotePrefix(cur), DirectoryOnly), verb, cur, 1);
    }
  }

  method UploadSources(env: Env, cur: string, caption: Remark) returns (out: seq<Candidate>)
    ensures out == ShowAll(env, cur, [LocalFiles(caption, 1, true), LocalDirs("zz ", 100)])
  {
    JustTwo(Showing(env, cur), LocalFiles(caption, 1, true), LocalDirs("zz ", 100));
    out := LocalFileGroup(env, cur, caption, 1, true);
    var dirs := LocalDirGroup(env, cur, "zz ", 100);
    out := out + dirs;
  }

  method MoreUploadSources(env: Env, verb: string, cur: string) returns (out: seq<Candidate>)
    ensures out == ShowAll(env, cur, [LocalFiles(AddAsSource, 1, false), LocalDirs("zz ", 25),
                                      RemoteDirs(verb, 50, DirectoryOnly)])
  {
    JustThree(Showing(env, cur), LocalFiles(AddAsSource, 1, false), LocalDirs("zz ", 25),
              RemoteDirs(verb, 50, DirectoryOnly));
    out := LocalFileGroup(env, cur, AddAsSource, 1, false);
    var dirs := LocalDirGroup(env, cur, "zz ", 25);
    var remote := RemoteDirGroup(env, cur, verb, 50, DirectoryOnly);
    out := out + dirs + remote;
  }

  method ReadyAfterS(env: Env, verb: string, after: seq<string>, cur: string) returns (out: seq<Candidate>)
    ensures out == ShowAll(env, cur, AfterSPlan(verb, after))
  {
    var modifiers := ParseModifiers(verb);
    if modifiers.a {
      out := BulkArgument(env, verb, after, cur);
    } else if after == [] {
      out := UploadSources(env, cur, if modifiers.x then UploadCompressed else UploadIt);
    } else {
      out := MoreUploadSources(env, verb, cur);
    }
  }

  function SaturatingAdd(rank: nat, n: nat): nat { if rank + n > 0xFFFF_FFFF then 0xFFFF_FFFF else rank + n }

  /** The local directories of a download destination, moved below the fifty remote files. */
  method MovedDown(env: Env, cur: string) returns (out: seq<Candidate>)
    ensures out == Show(env, cur, LocalDirs("zz sa ", 51))
  {
    var dirs := RankLocalDirs(env, cur, "zz sa ", 1);
    out := [];
    for i := 0 to |dirs|
      invariant |out| == i
      invariant forall k | 0 <= k < i :: out[k] == dirs[k].(rank := SaturatingAdd(dirs[k].rank, 50))
    {
      out := out + [dirs[i].(rank := SaturatingAdd(dirs[i].rank, 50))];
    }
    ShiftedRows(Sort(LocalMatches(env, cur, true), NewestFirst), dirs, out);
  }

  lemma ShiftedRows(xs: seq<LocalEntry>, dirs: seq<Candidate>, out: seq<Candidate>)
    requires dirs == Capped(xs, LocalDirRow("zz sa ", 1), "directories") && |out| == |dirs|
    requires forall k | 0 <= k < |dirs| :: out[k] == dirs[k].(rank := SaturatingAdd(dirs[k].rank, 50))
    ensures out == Capped(xs, LocalDirRow("zz sa ", 51), "directories")
  {
    var n := Shown(xs);
    var low, high := FirstRows(xs, n, LocalDirRow("zz sa ", 1)), FirstRows(xs, n, LocalDirRow("zz sa ", 51));
    forall k: nat | k < n ensures out[k] == high[k] {
      assert dirs[k] == low[k] == LocalDirRow("zz sa ", 1)(k, xs[k]);
    }
    assert |xs| > CANDIDATE_LIMIT ==> out[n] == dirs[n] == Overflow(|xs|, "directories")[0];
    assert out == out[..n] + out[n..];
  }

  method DownloadSources(env: Env, verb: string, cur: string, caption: Remark) returns (out: seq<Candidate>)
    ensures out == ShowAll(env, cur, [RemoteFiles(verb, caption, 1, Both), RemoteDirs(verb, 50, Both)])
  {
    JustTwo(Showing(env, cur), RemoteFiles(verb, caption, 1, Both), RemoteDirs(verb, 50, Both));
    out := RemoteFileGroup(env, cur, verb, caption, 1);
    var dirs := RemoteDirGroup(env, cur, verb, 50, Both);
    out := out + dirs;
  }

  method MoreDownloadSources(env: Env, verb: string, cur: string) returns (out: seq<Candidate>)
    ensures out == ShowAll(env, cur, [RemoteFiles(verb, AddRemoteSource, 1, Both), LocalDirs("zz sa ", 51)])
  {
    JustTwo(Showing(env, cur), RemoteFiles(verb, AddRemoteSource, 1, Both), LocalDirs("zz sa ", 51));
    out := RemoteFileGroup(env, cur, verb, AddRemoteSource, 1);
    var dirs := MovedDown(env, cur);
    out := out + dirs;
  }

  method ReadyAfterD(env: Env, verb: string, after: seq<string>, cur: string) returns (out: seq<Candidate>)
    ensures out == ShowAll(env, cur, AfterDPlan(verb, after))
  {
    var modifiers := ParseModifiers(verb);
    if modifiers.a {
      out := BulkArgument(env, verb, after, cur);
    } else if after == [] {
      out := DownloadSources(env, verb, cur, if modifiers.x then DownloadDecompressed else DownloadRaw);
    } else {
      out := MoreDownloadSources(env, verb, cur);
    }
  }

  method ReadyAfterDefaultUpload(env: Env, cur: string) returns (out: seq<Candidate>)
    ensures out == ShowAll(env, cur, [LocalFiles(AddAsSource, 1, false), RemoteDirs("", 50, DirectoryOnly)])
  {
    JustTwo(Showing(env, cur), LocalFiles(AddAsSource, 1, false), RemoteDirs("", 50, DirectoryOnly));
    out := LocalFileGroup(env, cur, AddAsSource, 1, false);
    var dirs := RemoteDirGroup(env, cur, "", 50, DirectoryOnly);
    out := out + dirs;
  }

  method AfterVerb(env: Env, state: SacsState, prev: seq<string>, cur: string) returns (out: seq<Candidate>)
    requires prev != []
    ensures out == ShowAll(env, cur, AfterVerbPlan(state, prev, cur))
  {
    var head := prev[0];
    if StartsWithChar(head, 's') && IsCompositeToken(head) {
      out := ReadyAfterS(env, head, prev[1..], cur);
    } else if StartsWithChar(head, 'd') && IsCompositeToken(head) {
      out := ReadyAfterD(env, head, prev[1..], cur);
    } else if head == "q" || head == "w" || head == "kalvasflam" || head == "c" || head == "f" {
      out := [];
    } else if head == "z" {
      out := [];
      if prev[1..] == [] {
        out := ShowWords(env, cur, ContainerWords(state));
      }
    } else {
      out := ReadyAfterDefaultUpload(env, cur);
    }
  }

  /** What a run offers for the tokens typed, the last of them being the word under the cursor. */
  function Offered(env: Env, state: SacsState, tokens: seq<string>): seq<Candidate>
  {
    ShowAll(env, CurrentWord(tokens), Plan(state, PreviousTokens(tokens), CurrentWord(tokens)))
  }

  /** `run`. */
  method Complete(env: Env, state: SacsState, tokens: seq<string>) returns (out: seq<Candidate>)
    ensures out == Offered(env, state, tokens)
  {
    var cur, prev := CurrentWord(tokens), PreviousTokens(tokens);
    if !IsReady(state) {
      out := ShowWords(env, cur, SetupWords(state));
    } else if prev == [] {
      out := ReadyFirstArg(env, state, cur);
    } else {
      out := AfterVerb(env, state, prev, cur);
    }
  }

  // ----- what holds of every run -----

  lemma {:induction false} ConcatMember(show: Group -> seq<Candidate>, plan: seq<Group>, c: Candidate)
    ensures c in ConcatAll(show, plan) <==> exists g | g in plan :: c in show(g)
    decreases |plan|
  {
    if plan != [] {
      var n := |plan| - 1;
      ConcatMember(show, plan[..n], c);
      assert plan == plan[..n] + [plan[n]];
    }
  }

  /** A candidate of a ranked group is a row for one of the matches, or the footer. */
  lemma {:induction false} CappedMember<E>(matches: seq<E>, order: (E, E) -> bool, row: (nat, E) -> Candidate,
                                           caption: string, c: Candidate)
    requires c in Capped(Sort(matches, order), row, caption)
    ensures (c.kind.Footer? && c.rank == FOOTER_RANK)
            || exists i: nat, e | i < CANDIDATE_LIMIT && e in matches :: c == row(i, e)
  {
    var s := Sort(matches, order);
    SortPermutes(matches, order);
    var rows := FirstRows(s, Shown(s), row);
    if c in rows {
      var i: nat :| i < |rows| && rows[i] == c;
      assert s[i] in s && c == row(i, s[i]);
    } else {
      assert c in Overflow(|s|, caption);
    }
  }

  function GroupKind(g: Group): Option<Kind>
  {
    match g
    case LocalFiles(_, _, _) => Some(FileLocal)
    case LocalDirs(_, _) => Some(DirLocal)
    case RemoteFiles(_, _, _, _) => Some(FileRemote)
    case RemoteDirs(_, _, _) => Some(DirRemote)
    case Words(_) => None
  }

  predicate IsWordKind(k: Kind) { k.Verb? || k.Atomic? || k.Help? }

  predicate IsLocalKind(k: Kind) { k.FileLocal? || k.DirLocal? }

  function Base(g: Group): nat { if g.Words? then 0 else g.base }

  /** What the rows of one group have in common. */
  ghost predicate RowFits(cur: string, g: Group, c: Candidate)
  {
    && cur <= c.value
    && (match GroupKind(g)
        case Some(k) => c.kind == k && Base(g) <= c.rank < Base(g) + CANDIDATE_LIMIT
        case None => exists w | w in g.words :: w.kind == c.kind && w.rank == c.rank && w.value == c.value)
  }

  lemma JoinExtends(cur: string, child: string)
    requires StartsWith(child, LastSegment(cur))
    ensures cur <= RemoteJoin(cur, child)
  {
    var r := SplitPathPrefix(cur);
    assert RemoteJoin(cur, child) == r.0 + child;
    assert (r.0 + child)[..|cur|] == r.0 + child[..|r.1|] == cur;
  }

  lemma RemoteMatchFits(env: Env, cur: string, query: KindFilter, kind: RemoteKind, e: ListEntry)
    requires e in RemoteMatches(env, cur, query, kind)
    ensures e.kind == kind && StartsWith(e.name, LastSegment(cur)) && cur <= RemoteJoin(cur, e.name)
  {
    FilterMembers(Fits(kind, cur), TryListRemote(env.remote, ParentForRemotePrefix(cur), query));
    JoinExtends(cur, e.name);
  }

  lemma {:induction false} MapMember<A, B>(f: A -> B, xs: seq<A>, y: B)
    ensures y in Map(f, xs) <==> exists x | x in xs :: f(x) == y
  {
    if xs != [] {
      MapMember(f, xs[1..], y);
      assert xs == [xs[0]] + xs[1..];
    }
  }

  lemma WordFitsCur(words: seq<Word>, cur: string, c: Candidate)
    ensures c in FilterAtomic(words, cur) <==> exists w | w in words :: cur <= w.value && c == WordRow()(w)
  {
    MapMember(WordRow(), Filter(WordFits(cur), words), c);
    FilterMembers(WordFits(cur), words);
  }

  lemma LocalFileRowFits(cur: string, g: Group, sizeText: nat -> string, i: nat, e: LocalEntry)
    requires g.LocalFiles? && i < CANDIDATE_LIMIT && cur <= e.name && !e.isDir
    ensures RowFits(cur, g, LocalFileRow(g.caption, g.base, g.annotateNewest, sizeText)(i, e))
  {
  }

  lemma LocalDirRowFits(cur: string, g: Group, i: nat, e: LocalEntry)
    requires g.LocalDirs? && i < CANDIDATE_LIMIT && cur <= e.name
    ensures RowFits(cur, g, LocalDirRow(g.display, g.base)(i, e))
  {
  }

  lemma RemoteFileRowFits(cur: string, g: Group, sizeText: nat -> string, i: nat, e: ListEntry)
    requires g.RemoteFiles? && i < CANDIDATE_LIMIT && cur <= RemoteJoin(cur, e.name)
    ensures RowFits(cur, g, RemoteFileRow(g.verb, cur, g.caption, g.base, sizeText)(i, e))
  {
  }

  lemma RemoteDirRowFits(cur: string, g: Group, i: nat, e: ListEntry)
    requires g.RemoteDirs? && i < CANDIDATE_LIMIT && cur <= RemoteJoin(cur, e.name)
    ensures RowFits(cur, g, RemoteDirRow(g.verb, cur, g.base)(i, e))
  {
  }

  lemma {:induction false} GroupRowsFit(env: Env, cur: string, g: Group, c: Candidate)
    requires c in Show(env, cur, g)
    ensures RowFits(cur, g, c) || (c.kind.Footer? && c.rank == FOOTER_RANK)
  {
    match g
    case LocalFiles(_, _, _) => LocalFilesFit(env, cur, g, c);
    case LocalDirs(_, _) => LocalDirsFit(env, cur, g, c);
    case RemoteFiles(_, _, _, _) => RemoteFilesFit(env, cur, g, c);
    case RemoteDirs(_, _, _) => RemoteDirsFit(env, cur, g, c);
    case Words(words) => WordFitsCur(words, cur, c);
  }

  lemma {:induction false} LocalFilesFit(env: Env, cur: string, g: Group, c: Candidate)
    requires g.LocalFiles? && c in Show(env, cur, g)
    ensures RowFits(cur, g, c) || (c.kind.Footer? && c.rank == FOOTER_RANK)
  {
    var row := LocalFileRow(g.caption, g.base, g.annotateNewest, env.sizeText);
    forall i: nat, e: LocalEntry | i < CANDIDATE_LIMIT && cur <= e.name && !e.isDir ensures RowFits(cur, g, row(i, e)) {
      LocalFileRowFits(cur, g, env.sizeText, i, e);
    }
    LocalRowsFit(env, cur, false, g, row, "files", c);
  }

  lemma {:induction false} LocalDirsFit(env: Env, cur: string, g: Group, c: Candidate)
    requires g.LocalDirs? && c in Show(env, cur, g)
    ensures RowFits(cur, g, c) || (c.kind.Footer? && c.rank == FOOTER_RANK)
  {
    var row := LocalDirRow(g.display, g.base);
    forall i: nat, e: LocalEntry | i < CANDIDATE_LIMIT && cur <= e.name ensures RowFits(cur, g, row(i, e)) {
      LocalDirRowFits(cur, g, i, e);
    }
    LocalRowsFit(env, cur, true, g, row, "directories", c);
  }

  lemma {:induction false} RemoteFilesFit(env: Env, cur: string, g: Group, c: Candidate)
    requires g.RemoteFiles? && c in Show(env, cur, g)
    ensures RowFits(cur, g, c) || (c.kind.Footer? && c.rank == FOOTER_RANK)
  {
    var row := RemoteFileRow(g.verb, cur, g.caption, g.base, env.sizeText);
    forall i: nat, e: ListEntry | i < CANDIDATE_LIMIT && cur <= RemoteJoin(cur, e.name)
      ensures RowFits(cur, g, row(i, e))
    {
      RemoteFileRowFits(cur, g, env.sizeText, i, e);
    }
    RemoteRowsFit(env, cur, g.query, File, g, row, "remote files", c);
  }

  lemma {:induction false} RemoteDirsFit(env: Env, cur: string, g: Group, c: Candidate)
    requires g.RemoteDirs? && c in Show(env, cur, g)
    ensures RowFits(cur, g, c) || (c.kind.Footer? && c.rank == FOOTER_RANK)
  {
    var row := RemoteDirRow(g.verb, cur, g.base);
    forall i: nat, e: ListEntry | i < CANDIDATE_LIMIT && cur <= RemoteJoin(cur, e.name)
      ensures RowFits(cur, g, row(i, e))
    {
      RemoteDirRowFits(cur, g, i, e);
    }
    RemoteRowsFit(env, cur, g.query, Directory, g, row, "remote dirs", c);
  }

  lemma {:induction false} LocalRowsFit(env: Env, cur: string, dirsOnly: bool, g: Group,
                                        row: (nat, LocalEntry) -> Candidate, caption: string, c: Candidate)
    requires c in Capped(Sort(LocalMatches(env, cur, dirsOnly), NewestFirst), row, caption)
    requires forall i: nat, e: LocalEntry | i < CANDIDATE_LIMIT && cur <= e.name && e.isDir == dirsOnly :: RowFits(cur, g, row(i, e))
    ensures RowFits(cur, g, c) || (c.kind.Footer? && c.rank == FOOTER_RANK)
  {
    var matches := LocalMatches(env, cur, dirsOnly);
    CappedMember(matches, NewestFirst, row, caption, c);
    forall e | e in matches ensures cur <= e.name && e.isDir == dirsOnly {
      LocalMatchesAre(env, cur, dirsOnly, e);
    }
  }

  lemma {:induction false} RemoteRowsFit(env: Env, cur: string, query: KindFilter, kind: RemoteKind, g: Group,
                                         row: (nat, ListEntry) -> Candidate, caption: string, c: Candidate)
    requires c in Capped(Sort(RemoteMatches(env, cur, query, kind), ByName), row, caption)
    requires forall i: nat, e: ListEntry | i < CANDIDATE_LIMIT && cur <= RemoteJoin(cur, e.name) :: RowFits(cur, g, row(i, e))
    ensures RowFits(cur, g, c) || (c.kind.Footer? && c.rank == FOOTER_RANK)
  {
    var matches := RemoteMatches(env, cur, query, kind);
    CappedMember(matches, ByName, row, caption, c);
    forall e | e in matches ensures cur <= RemoteJoin(cur, e.name) {
      RemoteMatchFits(env, cur, query, kind, e);
    }
  }

  /** What a group shows is the best of its matches, by the definition above; fixed words are the ones `cur` begins. */
  ghost predicate GroupShowsTheBest(env: Env, cur: string, g: Group)
  {
    match g
    case LocalFiles(caption, base, annotateNewest) =>
      ShowsTheBest(Show(env, cur, g), LocalMatches(env, cur, false), NewestFirst,
                   LocalFileRow(caption, base, annotateNewest, env.sizeText), "files")
    case LocalDirs(display, base) =>
      ShowsTheBest(Show(env, cur, g), LocalMatches(env, cur, true), NewestFirst, LocalDirRow(display, base),
                   "directories")
    case RemoteFiles(verb, caption, base, query) =>
      ShowsTheBest(Show(env, cur, g), RemoteMatches(env, cur, query, File), ByName,
                   RemoteFileRow(verb, cur, caption, base, env.sizeText), "remote files")
    case RemoteDirs(verb, base, query) =>
      ShowsTheBest(Show(env, cur, g), RemoteMatches(env, cur, query, Directory), ByName,
                   RemoteDirRow(verb, cur, base), "remote dirs")
    case Words(words) =>
      forall c :: c in Show(env, cur, g) <==> exists w | w in words :: cur <= w.value && c == WordRow()(w)
  }

  lemma {:induction false} EveryGroupShowsTheBest(env: Env, cur: string, g: Group)
    ensures GroupShowsTheBest(env, cur, g)
  {
    LocalOrder();
    RemoteOrder();
    match g
    case LocalFiles(caption, base, annotateNewest) =>
      CappedSortShowsTheBest(LocalMatches(env, cur, false), NewestFirst,
                             LocalFileRow(caption, base, annotateNewest, env.sizeText), "files");
    case LocalDirs(display, base) =>
      CappedSortShowsTheBest(LocalMatches(env, cur, true), NewestFirst, LocalDirRow(display, base), "directories");
    case RemoteFiles(verb, caption, base, query) =>
      CappedSortShowsTheBest(RemoteMatches(env, cur, query, File), ByName,
                             RemoteFileRow(verb, cur, caption, base, env.sizeText), "remote files");
    case RemoteDirs(verb, base, query) =>
      CappedSortShowsTheBest(RemoteMatches(env, cur, query, Directory), ByName, RemoteDirRow(verb, cur, base),
                             "remote dirs");
    case Words(words) =>
      forall c ensures c in Show(env, cur, g) <==> exists w | w in words :: cur <= w.value && c == WordRow()(w) {
        WordFitsCur(words, cur, c);
      }
  }

  /** Fixed words are verbs, atoms or help, with ranks that leave room for the rows before them. */
  predicate PlainWords(words: seq<Word>) { forall w | w in words :: IsWordKind(w.kind) && w.rank <= 212 }

  predicate PlainGroup(g: Group) { if g.Words? then PlainWords(g.words) else g.base <= 100 }

  lemma SetupWordsArePlain(state: SacsState)
    ensures PlainWords(SetupWords(state))
  {
  }

  lemma VerbWordsArePlain()
    ensures PlainWords(VerbWords()) && LateWords(VerbWords())
  {
  }

  lemma AtomsArePlain(state: SacsState)
    ensures PlainWords(ReadyAtoms()) && LateWords(ReadyAtoms())
    ensures PlainWords(UnlockWords(state)) && LateWords(UnlockWords(state))
  {
  }

  lemma ContainerWordsArePlain(state: SacsState)
    ensures PlainWords(ContainerWords(state))
  {
  }

  predicate LateWords(words: seq<Word>) { forall w | w in words :: w.rank >= 100 }

  predicate FirstGroup(g: Group) { PlainGroup(g) && if g.Words? then LateWords(g.words) else g.base <= 50 }

  lemma ThreeTablesAreFirst(locals: seq<Group>, v: seq<Word>, a: seq<Word>, u: seq<Word>)
    requires forall g | g in locals :: FirstGroup(g)
    requires PlainWords(v) && PlainWords(a) && PlainWords(u) && LateWords(v) && LateWords(a) && LateWords(u)
    ensures forall g | g in locals + [Words(v), Words(a), Words(u)] :: FirstGroup(g)
  {
  }

  lemma FirstArgIsPlain(state: SacsState, cur: string)
    ensures forall g | g in FirstArgPlan(state, cur) :: FirstGroup(g)
  {
    VerbWordsArePlain();
    AtomsArePlain(state);
    ThreeTablesAreFirst(FirstLocals(cur), VerbWords(), ReadyAtoms(), UnlockWords(state));
  }

  lemma PlanIsPlain(state: SacsState, prev: seq<string>, cur: string)
    ensures forall g | g in Plan(state, prev, cur) :: PlainGroup(g)
  {
    if !IsReady(state) {
      SetupWordsArePlain(state);
    } else if prev == [] {
      FirstArgIsPlain(state, cur);
    } else {
      ContainerWordsArePlain(state);
    }
  }

  /** Every value offered extends the word under the cursor, and only footers have the footer rank. */
  lemma {:induction false} EveryValueExtendsTheWord(env: Env, state: SacsState, prev: seq<string>, cur: string,
                                                    c: Candidate)
    requires c in ShowAll(env, cur, Plan(state, prev, cur))
    ensures if c.kind.Footer? then c.rank == FOOTER_RANK else cur <= c.value && c.rank <= 212
  {
    PlanIsPlain(state, prev, cur);
    PlainPlanExtendsTheWord(env, cur, Plan(state, prev, cur), c);
  }

  lemma {:induction false} PlainPlanExtendsTheWord(env: Env, cur: string, plan: seq<Group>, c: Candidate)
    requires c in ShowAll(env, cur, plan) && forall g | g in plan :: PlainGroup(g)
    ensures if c.kind.Footer? then c.rank == FOOTER_RANK else cur <= c.value && c.rank <= 212
  {
    ConcatMember(Showing(env, cur), plan, c);
    var g :| g in plan && c in Showing(env, cur)(g);
    GroupRowsFit(env, cur, g, c);
  }

  // ----- numbers of candidates -----

  function OfKind(k: Kind): Candidate -> bool { (c: Candidate) => c.kind == k }

  lemma {:induction false} FilterNone<T>(f: T -> bool, xs: seq<T>)
    requires forall x | x in xs :: !f(x)
    ensures Filter(f, xs) == []
  {
    if xs != [] {
      FilterNone(f, xs[1..]);
    }
  }

  /** Leaving out the footer, a group has at most fifty candidates. */
  lemma {:induction false} CappedCount<E>(xs: seq<E>, row: (nat, E) -> Candidate, caption: string, k: Kind)
    requires !k.Footer?
    ensures |Filter(OfKind(k), Capped(xs, row, caption))| <= CANDIDATE_LIMIT
  {
    var rows := FirstRows(xs, Shown(xs), row);
    FilterAppend(OfKind(k), rows, Overflow(|xs|, caption));
    FilterNone(OfKind(k), Overflow(|xs|, caption));
    FilterShortens(OfKind(k), rows);
  }

  lemma {:induction false} GroupCount(env: Env, cur: string, g: Group, k: Kind)
    requires !k.Footer? && !IsWordKind(k) && PlainGroup(g)
    ensures |Filter(OfKind(k), Show(env, cur, g))| <= GroupCap(g, k)
  {
    if GroupKind(g) == Some(k) {
      match g
      case LocalFiles(caption, base, annotateNewest) =>
        CappedCount(Sort(LocalMatches(env, cur, false), NewestFirst),
                    LocalFileRow(caption, base, annotateNewest, env.sizeText), "files", k);
      case LocalDirs(display, base) =>
        CappedCount(Sort(LocalMatches(env, cur, true), NewestFirst), LocalDirRow(display, base), "directories", k);
      case RemoteFiles(verb, caption, base, query) =>
        CappedCount(Sort(RemoteMatches(env, cur, query, File), ByName),
                    RemoteFileRow(verb, cur, caption, base, env.sizeText), "remote files", k);
      case RemoteDirs(verb, base, query) =>
        CappedCount(Sort(RemoteMatches(env, cur, query, Directory), ByName), RemoteDirRow(verb, cur, base),
                    "remote dirs", k);
    } else {
      forall c | c in Show(env, cur, g) ensures c.kind != k {
        GroupRowsFit(env, cur, g, c);
      }
      FilterNone(OfKind(k), Show(env, cur, g));
    }
  }

  ghost predicate NoKindTwice(plan: seq<Group>)
  {
    forall i, j | 0 <= i < j < |plan| && !plan[i].Words? :: GroupKind(plan[i]) != GroupKind(plan[j])
  }

  ghost predicate Offers(plan: seq<Group>, k: Kind) { exists g :: g in plan && GroupKind(g) == Some(k) }

  function GroupCap(g: Group, k: Kind): nat { if GroupKind(g) == Some(k) then CANDIDATE_LIMIT else 0 }

  function CapsOf(k: Kind): Group -> nat { (g: Group) => GroupCap(g, k) }

  function Total(cap: Group -> nat, plan: seq<Group>): nat
  {
    if plan == [] then 0 else Total(cap, plan[..|plan| - 1]) + cap(plan[|plan| - 1])
  }

  lemma {:induction false} ConcatCount(show: Group -> seq<Candidate>, f: Candidate -> bool, cap: Group -> nat,
                                       plan: seq<Group>)
    requires forall g | g in plan :: |Filter(f, show(g))| <= cap(g)
    ensures |Filter(f, ConcatAll(show, plan))| <= Total(cap, plan)
    decreases |plan|
  {
    if plan != [] {
      var n := |plan| - 1;
      assert plan[n] in plan && forall g | g in plan[..n] :: g in plan;
      ConcatCount(show, f, cap, plan[..n]);
      FilterAppend(f, ConcatAll(show, plan[..n]), show(plan[n]));
    }
  }

  lemma {:induction false} OneGroupOfAKind(plan: seq<Group>, k: Kind)
    requires NoKindTwice(plan)
    ensures Total(CapsOf(k), plan) <= if Offers(plan, k) then CANDIDATE_LIMIT else 0
    decreases |plan|
  {
    if plan != [] {
      var n := |plan| - 1;
      OneGroupOfAKind(plan[..n], k);
      assert plan[n] in plan;
      if Offers(plan[..n], k) {
        var g :| g in plan[..n] && GroupKind(g) == Some(k);
        assert g in plan;
      }
    }
  }

  lemma OneGroup(g: Group)
    ensures NoKindTwice([g])
  {
  }

  lemma TwoGroups(g: Group, h: Group)
    requires GroupKind(g) != GroupKind(h)
    ensures NoKindTwice([g, h])
  {
  }

  lemma ThreeGroups(g: Group, h: Group, k: Group)
    requires GroupKind(g) != GroupKind(h) && GroupKind(g) != GroupKind(k) && GroupKind(h) != GroupKind(k)
    ensures NoKindTwice([g, h, k])
  {
  }

  /** Word groups behind others repeat no kind. */
  lemma WordsRepeatNothing(groups: seq<Group>, words: seq<Group>)
    requires NoKindTwice(groups) && (forall g | g in groups :: !g.Words?) && forall w | w in words :: w.Words?
    ensures NoKindTwice(groups + words)
  {
    var all := groups + words;
    forall i, j | 0 <= i < j < |all| && !all[i].Words? ensures GroupKind(all[i]) != GroupKind(all[j]) {
      assert j >= |groups| ==> all[j] in words;
    }
  }

  lemma FirstArgNamesNoKindTwice(state: SacsState, cur: string)
    ensures NoKindTwice(FirstArgPlan(state, cur))
  {
    TwoGroups(LocalFiles(UploadIt, 1, true), LocalDirs("zz ", 50));
    WordsRepeatNothing(FirstLocals(cur), [Words(VerbWords()), Words(ReadyAtoms()), Words(UnlockWords(state))]);
  }

  lemma AfterSNamesNoKindTwice(verb: string, after: seq<string>)
    ensures NoKindTwice(AfterSPlan(verb, after))
  {
    OneGroup(BulkGroup(verb, after));
    TwoGroups(LocalFiles(if ModifiersIn(verb).x then UploadCompressed else UploadIt, 1, true), LocalDirs("zz ", 100));
    ThreeGroups(LocalFiles(AddAsSource, 1, false), LocalDirs("zz ", 25), RemoteDirs(verb, 50, DirectoryOnly));
  }

  lemma AfterDNamesNoKindTwice(verb: string, after: seq<string>)
    ensures NoKindTwice(AfterDPlan(verb, after))
  {
    OneGroup(BulkGroup(verb, after));
    TwoGroups(RemoteFiles(verb, if ModifiersIn(verb).x then DownloadDecompressed else DownloadRaw, 1, Both),
              RemoteDirs(verb, 50, Both));
    TwoGroups(RemoteFiles(verb, AddRemoteSource, 1, Both), LocalDirs("zz sa ", 51));
  }

  lemma AfterVerbNamesNoKindTwice(state: SacsState, prev: seq<string>, cur: string)
    requires prev != []
    ensures NoKindTwice(AfterVerbPlan(state, prev, cur))
  {
    AfterSNamesNoKindTwice(prev[0], prev[1..]);
    AfterDNamesNoKindTwice(prev[0], prev[1..]);
    OneGroup(Words(ContainerWords(state)));
    TwoGroups(LocalFiles(AddAsSource, 1, false), RemoteDirs("", 50, DirectoryOnly));
  }

  lemma PlanNamesNoKindTwice(state: SacsState, prev: seq<string>, cur: string)
    ensures NoKindTwice(Plan(state, prev, cur))
  {
    if !IsReady(state) {
      OneGroup(Words(SetupWords(state)));
    } else if prev == [] {
      FirstArgNamesNoKindTwice(state, cur);
    } else {
      AfterVerbNamesNoKindTwice(state, prev, cur);
    }
  }

  /** However large the directory and the remote listing, at most fifty of each kind are offered. */
  lemma {:induction false} AtMostFiftyOfAKind(env: Env, state: SacsState, prev: seq<string>, cur: string, k: Kind)
    requires !k.Footer? && !IsWordKind(k)
    ensures |Filter(OfKind(k), ShowAll(env, cur, Plan(state, prev, cur)))| <= CANDIDATE_LIMIT
  {
    var plan := Plan(state, prev, cur);
    PlanIsPlain(state, prev, cur);
    PlanNamesNoKindTwice(state, prev, cur);
    forall g | g in plan ensures |Filter(OfKind(k), Showing(env, cur)(g))| <= GroupCap(g, k) {
      GroupCount(env, cur, g, k);
    }
    ConcatCount(Showing(env, cur), OfKind(k), CapsOf(k), plan);
    OneGroupOfAKind(plan, k);
  }

  // ----- the rendered order -----

  /** Candidates of lower rank are rendered first. */
  lemma RankDecidesOrder(out: seq<Candidate>, i: nat, j: nat)
    requires i < |out| && j < |out| && Sort(out, CandidateLe) != [] && |Sort(out, CandidateLe)| == |out|
    requires Sort(out, CandidateLe)[i].rank < Sort(out, CandidateLe)[j].rank
    ensures i < j
  {
    CandidateOrder();
    SortSorts(out, CandidateLe);
    var s := Sort(out, CandidateLe);
    assert i > j ==> CandidateLe(s[j], s[i]);
  }

  /** In the first position of a ready agent every local candidate is rendered before every verb and atom. */
  lemma {:induction false} LocalsBeforeVerbs(env: Env, state: SacsState, cur: string, i: nat, j: nat)
    requires IsReady(state)
    requires var s := Sort(ShowAll(env, cur, Plan(state, [], cur)), CandidateLe);
             i < |s| && j < |s| && IsLocalKind(s[i].kind) && IsWordKind(s[j].kind)
    ensures i < j
  {
    var out := ShowAll(env, cur, Plan(state, [], cur));
    var s := Sort(out, CandidateLe);
    SortPermutes(out, CandidateLe);
    assert s[i] in s && s[j] in s;
    FirstArgRank(env, state, cur, s[i]);
    FirstArgRank(env, state, cur, s[j]);
    RankDecidesOrder(out, i, j);
  }

  lemma FirstArgRank(env: Env, state: SacsState, cur: string, c: Candidate)
    requires c in ShowAll(env, cur, FirstArgPlan(state, cur))
    ensures IsLocalKind(c.kind) ==> c.rank < 100
    ensures IsWordKind(c.kind) ==> c.rank >= 100
  {
    FirstArgIsPlain(state, cur);
    RanksOfPlan(env, cur, FirstArgPlan(state, cur), c);
  }

  lemma {:induction false} RanksOfPlan(env: Env, cur: string, plan: seq<Group>, c: Candidate)
    requires c in ShowAll(env, cur, plan)
    requires forall g | g in plan :: FirstGroup(g)
    ensures IsLocalKind(c.kind) ==> c.rank < 100
    ensures IsWordKind(c.kind) ==> c.rank >= 100
  {
    ConcatMember(Showing(env, cur), plan, c);
    var g :| g in plan && c in Showing(env, cur)(g);
    GroupRowsFit(env, cur, g, c);
    RankOfRow(cur, g, c);
  }

  lemma RankOfRow(cur: string, g: Group, c: Candidate)
    requires RowFits(cur, g, c) || c.kind.Footer?
    requires FirstGroup(g)
    ensures IsLocalKind(c.kind) ==> c.rank < 100
    ensures IsWordKind(c.kind) ==> c.rank >= 100
  {
  }

  /** Footers are rendered behind everything else. */
  lemma {:induction false} FootersComeLast(env: Env, state: SacsState, prev: seq<string>, cur: string, i: nat, j: nat)
    requires var s := Sort(ShowAll(env, cur, Plan(state, prev, cur)), CandidateLe);
             i < |s| && j < |s| && !s[i].kind.Footer? && s[j].kind.Footer?
    ensures i < j
  {
    var out := ShowAll(env, cur, Plan(state, prev, cur));
    var s := Sort(out, CandidateLe);
    SortPermutes(out, CandidateLe);
    assert s[i] in s && s[j] in s;
    EveryValueExtendsTheWord(env, state, prev, cur, s[i]);
    EveryValueExtendsTheWord(env, state, prev, cur, s[j]);
    RankDecidesOrder(out, i, j);
  }

  // ----- the completer and the grammar -----

  /** Every composite verb offered is one the parser takes. */
  lemma {:induction false} OfferedVerbsParse(env: Env, state: SacsState, prev: seq<string>, cur: string, c: Candidate)
    requires c in ShowAll(env, cur, Plan(state, prev, cur)) && c.kind.Verb?
    ensures Grammar.IsComposite(c.value) && Grammar.ModifiersOf(c.value, c.value[1..]).Ok?
  {
    var plan := Plan(state, prev, cur);
    PlanIsPlain(state, prev, cur);
    forall g, w | g in plan && g.Words? && w in g.words && w.kind.Verb? ensures IsVerbValue(w.value) {
      VerbsAreInTheTable(state, prev, cur, g, w);
      VerbValues(w);
    }
    OfferedVerbIsAWord(env, cur, plan, c, v => IsVerbValue(v));
    VerbValueParses(c.value);
  }

  /** What holds of every verb in the word tables of a plan holds of every verb it offers. */
  lemma {:induction false} OfferedVerbIsAWord(env: Env, cur: string, plan: seq<Group>, c: Candidate, ok: string -> bool)
    requires c in ShowAll(env, cur, plan) && c.kind.Verb?
    requires forall g, w | g in plan && g.Words? && w in g.words && w.kind.Verb? :: ok(w.value)
    ensures ok(c.value)
  {
    ConcatMember(Showing(env, cur), plan, c);
    var g :| g in plan && c in Showing(env, cur)(g);
    GroupRowsFit(env, cur, g, c);
    VerbRowIsAWord(cur, g, c);
  }

  lemma VerbRowIsAWord(cur: string, g: Group, c: Candidate)
    requires RowFits(cur, g, c) && c.kind.Verb?
    ensures g.Words? && exists w | w in g.words :: w.kind.Verb? && w.value == c.value
  {
  }

  lemma VerbValueParses(v: string)
    requires IsVerbValue(v)
    ensures Grammar.IsComposite(v) && Grammar.ModifiersOf(v, v[1..]).Ok?
  {
    var verb, m := VerbShape(v);
    Grammar.HeadAndSuffix(verb, Grammar.Suffix(m.a, m.r, m.x), []);
    Grammar.SuffixIsAccepted(v, m.a, m.r, m.x);
  }

  lemma VerbsAreInTheTable(state: SacsState, prev: seq<string>, cur: string, g: Group, w: Word)
    requires g in Plan(state, prev, cur) && g.Words? && w in g.words && w.kind.Verb?
    ensures w in VerbWords()
  {
  }

  predicate IsVerbValue(v: string)
  {
    v == "s" || v == "d" || v == "sa" || v == "sx" || v == "dx" || v == "sarx" || v == "darx"
  }

  lemma VerbValues(w: Word)
    requires w in VerbWords()
    ensures IsVerbValue(w.value)
  {
  }

  lemma VerbShape(v: string) returns (verb: char, m: Grammar.Modifiers)
    requires IsVerbValue(v)
    ensures (verb == 's' || verb == 'd') && v == [verb] + Grammar.Suffix(m.a, m.r, m.x)
  {
    verb, m := v[0], Grammar.Modifiers(|v| > 1 && v[1] == 'a', |v| > 2, |v| > 2 || (|v| > 1 && v[1] == 'x'));
  }

  /** Until the agent is ready, nothing but fixed words is offered, so nothing local or remote is looked at. */
  lemma {:induction false} OnlyWordsUntilReady(env: Env, other: Env, state: SacsState, prev: seq<string>, cur: string)
    requires !IsReady(state)
    ensures ShowAll(env, cur, Plan(state, prev, cur)) == ShowAll(other, cur, Plan(state, prev, cur))
    ensures forall c | c in ShowAll(env, cur, Plan(state, prev, cur)) :: c.kind.Atomic? || c.kind.Help?
  {
    var words := SetupWords(state);
    ShowOne(env, cur, Words(words));
    ShowOne(other, cur, Words(words));
    forall c | c in FilterAtomic(words, cur) ensures c.kind.Atomic? || c.kind.Help? {
      WordFitsCur(words, cur, c);
      SetupWordsAreAtoms(state);
    }
  }

  lemma SetupWordsAreAtoms(state: SacsState)
    ensures forall w | w in SetupWords(state) :: w.kind.Atomic? || w.kind.Help?
  {
  }
}
