/**
 What the completer offers in each position of the command line (src/sacs/complete.rs), on candidates, directory entries
 and listed entries.
 */
module Positions {
  import opened Basics
  import opened Text
  import opened Sorting
  import opened ListCaches
  import opened Ndjson
  import opened Completion
  import Grammar

  // ----- what an offer is -----

  /** A ranked kind: what is displayed before the name, and the first rank. */
  datatype Ranked = Ranked(display: string, base: nat)

  /** What is offered of each ranked kind, `None` being nothing, and the fixed words. */
  datatype Offer = Offer(files: Option<Ranked>, dirs: Option<Ranked>, remoteFiles: Option<Ranked>,
                         remoteDirs: Option<Ranked>, words: set<string>)

  const NOTHING := Offer(None, None, None, None, {})

  function Count(total: nat): nat { if total <= 50 then total else 50 }

  /** Younger, or as old and not later by name. */
  predicate Younger(a: LocalEntry, b: LocalEntry)
  {
    a.mtime > b.mtime || (a.mtime == b.mtime && StringLe(a.name, b.name))
  }

  /** All the local matches in an order, youngest first, of which `cs` are the first fifty, one rank after the other. */
  ghost predicate AreYoungest(cs: seq<Candidate>, matches: seq<LocalEntry>, suffix: string, display: string, base: nat)
  {
    exists order: seq<LocalEntry> ::
      && multiset(order) == multiset(matches) && (forall i, j | 0 <= i < j < |order| :: Younger(order[i], order[j]))
      && |cs| == Count(|order|)
      && forall i | 0 <= i < |cs| ::
           cs[i].value == order[i].name + suffix && cs[i].display == display + cs[i].value && cs[i].rank == base + i
  }

  /** The value of a listed entry: its name in the directory of the word, a directory's with a slash at the end. */
  function ListedValue(cur: string, kind: RemoteKind, name: string): string
  {
    var joined := RemoteJoin(cur, name);
    if kind.Directory? && !EndsWithChar(joined, '/') then joined + "/" else joined
  }

  /** All the listed matches by name, of which `cs` are the first fifty. */
  ghost predicate AreFirstByName(cs: seq<Candidate>, matches: seq<ListEntry>, cur: string, kind: RemoteKind,
                                 offer: Ranked)
  {
    exists order: seq<ListEntry> ::
      && multiset(order) == multiset(matches)
      && (forall i, j | 0 <= i < j < |order| :: StringLe(order[i].name, order[j].name))
      && |cs| == Count(|order|)
      && forall i | 0 <= i < |cs| ::
           && cs[i].value == ListedValue(cur, kind, order[i].name) && cs[i].rank == offer.base + i
           && cs[i].display == offer.display + order[i].name + if kind.Directory? then "/" else ""
  }

  function Of(k: Kind, out: seq<Candidate>): seq<Candidate> { Filter(OfKind(k), out) }

  /** Exactly the offer is in `out`: each kind of it, no other kind, and exactly the words that extend `cur`. */
  ghost predicate OffersExactly(env: Env, cur: string, query: KindFilter, out: seq<Candidate>, o: Offer)
  {
    && (match o.files
        case Some(f) => AreYoungest(Of(FileLocal, out), LocalMatches(env, cur, false), "", f.display, f.base)
        case None => Of(FileLocal, out) == [])
    && (match o.dirs
        case Some(d) => AreYoungest(Of(DirLocal, out), LocalMatches(env, cur, true), "/", d.display, d.base)
        case None => Of(DirLocal, out) == [])
    && (match o.remoteFiles
        case Some(f) => AreFirstByName(Of(FileRemote, out), RemoteMatches(env, cur, query, File), cur, File, f)
        case None => Of(FileRemote, out) == [])
    && (match o.remoteDirs
        case Some(d) => AreFirstByName(Of(DirRemote, out), RemoteMatches(env, cur, query, Directory), cur, Directory, d)
        case None => Of(DirRemote, out) == [])
    && (forall v :: OffersWord(out, v) <==> v in o.words && cur <= v)
  }

  ghost predicate OffersWord(out: seq<Candidate>, v: string)
  {
    exists c | c in out :: (c.kind.Verb? || c.kind.Atomic? || c.kind.Help?) && c.value == v
  }

  /** The listed matches: what the agent lists at the parent of the word, of the kind, and extending its last segment. */
  lemma {:induction false} RemoteMatchesAre(env: Env, cur: string, query: KindFilter, kind: RemoteKind, x: ListEntry)
    ensures x in RemoteMatches(env, cur, query, kind) <==>
            && env.remote.Some? && env.remote.value(ParentForRemotePrefix(cur), query).Some?
            && x in env.remote.value(ParentForRemotePrefix(cur), query).value
            && x.kind == kind && SplitPathPrefix(cur).1 <= x.name
  {
    FilterMembers(Fits(kind, cur), TryListRemote(env.remote, ParentForRemotePrefix(cur), query));
  }

  // ----- from groups to offers -----

  lemma {:induction false} FilterEverything<T>(f: T -> bool, xs: seq<T>, ys: seq<T>)
    requires (forall x | x in xs :: f(x)) && (forall y | y in ys :: !f(y))
    ensures Filter(f, xs + ys) == xs
  {
    FilterAppend(f, xs, ys);
    FilterAll(f, xs);
    FilterNone(f, ys);
    assert xs + [] == xs;
  }

  /** The rows of a ranked group, without its footer. */
  lemma {:induction false} RowsOfCapped<E>(xs: seq<E>, row: (nat, E) -> Candidate, caption: string, k: Kind)
    requires !k.Footer? && forall i: nat, e | e in xs :: row(i, e).kind == k
    ensures Of(k, Capped(xs, row, caption)) == FirstRows(xs, Shown(xs), row)
  {
    var rows := FirstRows(xs, Shown(xs), row);
    forall c | c in rows ensures c.kind == k {
      var i: nat :| i < |rows| && rows[i] == c;
      assert xs[i] in xs;
    }
    FilterEverything(OfKind(k), rows, Overflow(|xs|, caption));
  }

  lemma YoungestRows(rows: seq<Candidate>, order: seq<LocalEntry>, matches: seq<LocalEntry>, suffix: string,
                     display: string, base: nat)
    requires multiset(order) == multiset(matches) && Sorted(order, NewestFirst) && |rows| == Shown(order)
    requires forall i | 0 <= i < |rows| ::
               rows[i].value == order[i].name + suffix && rows[i].display == display + rows[i].value
               && rows[i].rank == base + i
    ensures AreYoungest(rows, matches, suffix, display, base)
  {
    assert forall i, j | 0 <= i < j < |order| :: NewestFirst(order[i], order[j]) ==> Younger(order[i], order[j]);
  }

  /** What the row of a local entry says. */
  ghost predicate IsLocalRow(c: Candidate, e: LocalEntry, k: Kind, suffix: string, display: string, rank: nat)
  {
    c.kind == k && c.value == e.name + suffix && c.display == display + c.value && c.rank == rank
  }

  ghost predicate AreLocalRows(row: (nat, LocalEntry) -> Candidate, matches: seq<LocalEntry>, k: Kind, suffix: string,
                               display: string, base: nat)
  {
    forall i: nat, e | e in matches :: IsLocalRow(row(i, e), e, k, suffix, display, base + i)
  }

  lemma {:induction false} LocalRows(matches: seq<LocalEntry>, row: (nat, LocalEntry) -> Candidate, caption: string,
                                     k: Kind, suffix: string, display: string, base: nat)
    requires !k.Footer? && AreLocalRows(row, matches, k, suffix, display, base)
    ensures AreYoungest(Of(k, Capped(Sort(matches, NewestFirst), row, caption)), matches, suffix, display, base)
  {
    var order := Sort(matches, NewestFirst);
    LocalOrder();
    SortPermutes(matches, NewestFirst);
    SortSorts(matches, NewestFirst);
    RowsOfCapped(order, row, caption, k);
    var rows := FirstRows(order, Shown(order), row);
    forall i | 0 <= i < |rows| ensures IsLocalRow(rows[i], order[i], k, suffix, display, base + i) {
      assert order[i] in order;
    }
    YoungestRows(rows, order, matches, suffix, display, base);
  }

  lemma FirstByNameRows(rows: seq<Candidate>, order: seq<ListEntry>, matches: seq<ListEntry>, cur: string,
                        kind: RemoteKind, offer: Ranked)
    requires multiset(order) == multiset(matches) && Sorted(order, ByName) && |rows| == Shown(order)
    requires forall i | 0 <= i < |rows| ::
               IsRemoteRow(rows[i], order[i], rows[i].kind, cur, kind, offer.display, offer.base + i)
    ensures AreFirstByName(rows, matches, cur, kind, offer)
  {
    assert forall i, j | 0 <= i < j < |order| :: ByName(order[i], order[j]) ==> StringLe(order[i].name, order[j].name);
  }

  /** What the row of a listed entry says. */
  ghost predicate IsRemoteRow(c: Candidate, e: ListEntry, k: Kind, cur: string, kind: RemoteKind, display: string,
                              rank: nat)
  {
    && c.kind == k && c.value == ListedValue(cur, kind, e.name) && c.rank == rank
    && c.display == display + e.name + if kind.Directory? then "/" else ""
  }

  lemma {:induction false} RemoteRows(matches: seq<ListEntry>, cur: string, kind: RemoteKind,
                                      row: (nat, ListEntry) -> Candidate, caption: string, k: Kind, offer: Ranked)
    requires !k.Footer? && AreRemoteRows(row, k, cur, kind, offer)
    ensures AreFirstByName(Of(k, Capped(Sort(matches, ByName), row, caption)), matches, cur, kind, offer)
  {
    var order := Sort(matches, ByName);
    RemoteOrder();
    SortPermutes(matches, ByName);
    SortSorts(matches, ByName);
    RowsOfCapped(order, row, caption, k);
    var rows := FirstRows(order, Shown(order), row);
    forall i | 0 <= i < |rows| ensures IsRemoteRow(rows[i], order[i], k, cur, kind, offer.display, offer.base + i) {
      assert order[i] in order;
    }
    FirstByNameRows(rows, order, matches, cur, kind, offer);
  }

  /** What is displayed before a name: the program and the verb. */
  function Before(verb: string): string { if verb == "" then "zz " else "zz " + verb + " " }

  /** What one ranked group offers. */
  ghost predicate GroupOffers(env: Env, cur: string, g: Group)
  {
    match g
    case LocalFiles(_, base, _) =>
      AreYoungest(Of(FileLocal, Show(env, cur, g)), LocalMatches(env, cur, false), "", "zz ", base)
    case LocalDirs(display, base) =>
      AreYoungest(Of(DirLocal, Show(env, cur, g)), LocalMatches(env, cur, true), "/", display, base)
    case RemoteFiles(verb, _, base, query) =>
      AreFirstByName(Of(FileRemote, Show(env, cur, g)), RemoteMatches(env, cur, query, File), cur, File,
                     Ranked(Before(verb), base))
    case RemoteDirs(verb, base, query) =>
      AreFirstByName(Of(DirRemote, Show(env, cur, g)), RemoteMatches(env, cur, query, Directory), cur, Directory,
                     Ranked(Before(verb), base))
    case Words(_) => true
  }

  lemma {:induction false} EveryGroupOffers(env: Env, cur: string, g: Group)
    ensures GroupOffers(env, cur, g)
  {
    match g
    case LocalFiles(caption, base, annotate) => LocalFilesOffer(env, cur, caption, base, annotate);
    case LocalDirs(display, base) => LocalDirsOffer(env, cur, display, base);
    case RemoteFiles(verb, caption, base, query) => RemoteFilesOffer(env, cur, verb, caption, base, query);
    case RemoteDirs(verb, base, query) => RemoteDirsOffer(env, cur, verb, base, query);
    case Words(_) =>
  }

  lemma LocalFileRowIs(caption: Remark, base: nat, annotate: bool, sizeText: nat -> string, i: nat, e: LocalEntry)
    requires !e.isDir
    ensures IsLocalRow(LocalFileRow(caption, base, annotate, sizeText)(i, e), e, FileLocal, "", "zz ", base + i)
  {
    assert e.name + "" == e.name;
  }

  lemma {:induction false} LocalFileRows(matches: seq<LocalEntry>, caption: Remark, base: nat, annotate: bool,
                                         sizeText: nat -> string)
    requires forall e | e in matches :: !e.isDir
    ensures AreLocalRows(LocalFileRow(caption, base, annotate, sizeText), matches, FileLocal, "", "zz ", base)
  {
    EveryFileRow(caption, base, annotate, sizeText);
    RowsOfFiles(LocalFileRow(caption, base, annotate, sizeText), matches, base);
  }

  ghost predicate AreFileRows(row: (nat, LocalEntry) -> Candidate, base: nat)
  {
    forall i: nat, e: LocalEntry | !e.isDir :: IsLocalRow(row(i, e), e, FileLocal, "", "zz ", base + i)
  }

  lemma {:induction false} EveryFileRow(caption: Remark, base: nat, annotate: bool, sizeText: nat -> string)
    ensures AreFileRows(LocalFileRow(caption, base, annotate, sizeText), base)
  {
    var row := LocalFileRow(caption, base, annotate, sizeText);
    forall i: nat, e: LocalEntry | !e.isDir ensures IsLocalRow(row(i, e), e, FileLocal, "", "zz ", base + i) {
      LocalFileRowIs(caption, base, annotate, sizeText, i, e);
    }
  }

  lemma {:induction false} RowsOfFiles(row: (nat, LocalEntry) -> Candidate, matches: seq<LocalEntry>, base: nat)
    requires AreFileRows(row, base) && forall e | e in matches :: !e.isDir
    ensures AreLocalRows(row, matches, FileLocal, "", "zz ", base)
  {
  }

  lemma {:induction false} LocalFilesOffer(env: Env, cur: string, caption: Remark, base: nat, annotate: bool)
    ensures GroupOffers(env, cur, LocalFiles(caption, base, annotate))
  {
    var matches := LocalMatches(env, cur, false);
    forall e | e in matches ensures !e.isDir {
      LocalMatchesAre(env, cur, false, e);
    }
    LocalFileRows(matches, caption, base, annotate, env.sizeText);
    LocalRows(matches, LocalFileRow(caption, base, annotate, env.sizeText), "files", FileLocal, "", "zz ", base);
  }

  lemma {:induction false} LocalDirRows(matches: seq<LocalEntry>, display: string, base: nat)
    ensures AreLocalRows(LocalDirRow(display, base), matches, DirLocal, "/", display, base)
  {
    forall i: nat, e | e in matches
      ensures IsLocalRow(LocalDirRow(display, base)(i, e), e, DirLocal, "/", display, base + i)
    {
      assert display + e.name + "/" == display + (e.name + "/");
    }
  }

  lemma {:induction false} LocalDirsOffer(env: Env, cur: string, display: string, base: nat)
    ensures GroupOffers(env, cur, LocalDirs(display, base))
  {
    LocalDirRows(LocalMatches(env, cur, true), display, base);
    LocalRows(LocalMatches(env, cur, true), LocalDirRow(display, base), "directories", DirLocal, "/", display, base);
  }

  ghost predicate AreRemoteRows(row: (nat, ListEntry) -> Candidate, k: Kind, cur: string, kind: RemoteKind, offer: Ranked)
  {
    forall i: nat, e :: IsRemoteRow(row(i, e), e, k, cur, kind, offer.display, offer.base + i)
  }

  lemma {:induction false} RemoteFileRows(verb: string, cur: string, caption: Remark, base: nat, sizeText: nat -> string)
    ensures AreRemoteRows(RemoteFileRow(verb, cur, caption, base, sizeText), FileRemote, cur, File,
                          Ranked(Before(verb), base))
  {
    var row, offer := RemoteFileRow(verb, cur, caption, base, sizeText), Ranked(Before(verb), base);
    forall i: nat, e ensures IsRemoteRow(row(i, e), e, FileRemote, cur, File, offer.display, offer.base + i) {
      RemoteFileRowIs(verb, cur, caption, base, sizeText, i, e);
    }
  }

  lemma RemoteFileRowIs(verb: string, cur: string, caption: Remark, base: nat, sizeText: nat -> string, i: nat,
                        e: ListEntry)
    ensures IsRemoteRow(RemoteFileRow(verb, cur, caption, base, sizeText)(i, e), e, FileRemote, cur, File, Before(verb),
                        base + i)
  {
    DisplayIs(verb, e.name);
  }

  lemma DisplayIs(verb: string, name: string)
    ensures VerbDisplay(verb) + " " + name == Before(verb) + name + ""
    ensures VerbDisplay(verb) + " " + name + "/" == Before(verb) + name + "/"
  {
  }

  lemma {:induction false} RemoteFilesOffer(env: Env, cur: string, verb: string, caption: Remark, base: nat,
                                            query: KindFilter)
    ensures GroupOffers(env, cur, RemoteFiles(verb, caption, base, query))
  {
    RemoteFileRows(verb, cur, caption, base, env.sizeText);
    RemoteRows(RemoteMatches(env, cur, query, File), cur, File, RemoteFileRow(verb, cur, caption, base, env.sizeText),
               "remote files", FileRemote, Ranked(Before(verb), base));
  }

  lemma RemoteDirRowIs(verb: string, cur: string, base: nat, i: nat, e: ListEntry)
    ensures IsRemoteRow(RemoteDirRow(verb, cur, base)(i, e), e, DirRemote, cur, Directory, Before(verb), base + i)
  {
    DisplayIs(verb, e.name);
  }

  lemma {:induction false} RemoteDirRows(verb: string, cur: string, base: nat)
    ensures AreRemoteRows(RemoteDirRow(verb, cur, base), DirRemote, cur, Directory, Ranked(Before(verb), base))
  {
    var row, offer := RemoteDirRow(verb, cur, base), Ranked(Before(verb), base);
    forall i: nat, e ensures IsRemoteRow(row(i, e), e, DirRemote, cur, Directory, offer.display, offer.base + i) {
      RemoteDirRowIs(verb, cur, base, i, e);
    }
  }

  lemma {:induction false} RemoteDirsOffer(env: Env, cur: string, verb: string, base: nat, query: KindFilter)
    ensures GroupOffers(env, cur, RemoteDirs(verb, base, query))
  {
    RemoteDirRows(verb, cur, base);
    RemoteRows(RemoteMatches(env, cur, query, Directory), cur, Directory, RemoteDirRow(verb, cur, base), "remote dirs",
               DirRemote, Ranked(Before(verb), base));
  }

  /** When one element alone shows anything that passes a filter, the filter finds just what it shows. */
  lemma {:induction false} OnlyOneShows(show: Group -> seq<Candidate>, f: Candidate -> bool, plan: seq<Group>, k: nat)
    requires k < |plan| && forall i | 0 <= i < |plan| && i != k :: Filter(f, show(plan[i])) == []
    ensures Filter(f, ConcatAll(show, plan)) == Filter(f, show(plan[k]))
    decreases |plan|
  {
    var n := |plan| - 1;
    FilterAppend(f, ConcatAll(show, plan[..n]), show(plan[n]));
    if k < n {
      OnlyOneShows(show, f, plan[..n], k);
    } else {
      NoneShows(show, f, plan[..n]);
    }
  }

  lemma {:induction false} NoneShows(show: Group -> seq<Candidate>, f: Candidate -> bool, plan: seq<Group>)
    requires forall i | 0 <= i < |plan| :: Filter(f, show(plan[i])) == []
    ensures Filter(f, ConcatAll(show, plan)) == []
    decreases |plan|
  {
    if plan != [] {
      var n := |plan| - 1;
      FilterAppend(f, ConcatAll(show, plan[..n]), show(plan[n]));
      NoneShows(show, f, plan[..n]);
    }
  }

  lemma {:induction false} OtherKindShowsNone(env: Env, cur: string, g: Group, k: Kind)
    requires !k.Footer? && !IsWordKind(k) && PlainGroup(g) && GroupKind(g) != Some(k)
    ensures Filter(OfKind(k), Showing(env, cur)(g)) == []
  {
    GroupCount(env, cur, g, k);
  }

  /** A kind is offered by the one group of it. */
  lemma {:induction false} KindOfPlan(env: Env, cur: string, plan: seq<Group>, g: Group, k: Kind)
    requires !k.Footer? && !IsWordKind(k) && NoKindTwice(plan) && (forall h | h in plan :: PlainGroup(h))
    requires g in plan && GroupKind(g) == Some(k)
    ensures Of(k, ShowAll(env, cur, plan)) == Of(k, Show(env, cur, g))
  {
    var n: nat :| n < |plan| && plan[n] == g;
    forall i | 0 <= i < |plan| && i != n ensures Filter(OfKind(k), Showing(env, cur)(plan[i])) == [] {
      assert i < n ==> (!plan[i].Words? ==> GroupKind(plan[i]) != GroupKind(plan[n]));
      assert n < i ==> GroupKind(plan[n]) != GroupKind(plan[i]);
      OtherKindShowsNone(env, cur, plan[i], k);
    }
    OnlyOneShows(Showing(env, cur), OfKind(k), plan, n);
  }

  /** Or not at all. */
  lemma {:induction false} KindNotInPlan(env: Env, cur: string, plan: seq<Group>, k: Kind)
    requires !k.Footer? && !IsWordKind(k) && forall h | h in plan :: PlainGroup(h) && GroupKind(h) != Some(k)
    ensures Of(k, ShowAll(env, cur, plan)) == []
  {
    forall i | 0 <= i < |plan| ensures Filter(OfKind(k), Showing(env, cur)(plan[i])) == [] {
      OtherKindShowsNone(env, cur, plan[i], k);
    }
    NoneShows(Showing(env, cur), OfKind(k), plan);
  }

  /** The words of a plan. */
  ghost predicate HasWord(plan: seq<Group>, v: string)
  {
    exists g, w | g in plan && g.Words? && w in g.words :: w.value == v
  }

  lemma {:induction false} OfferedWordIsInPlan(env: Env, cur: string, plan: seq<Group>, c: Candidate)
    requires c in ShowAll(env, cur, plan) && IsWordKind(c.kind)
    ensures HasWord(plan, c.value) && cur <= c.value
  {
    ConcatMember(Showing(env, cur), plan, c);
    var g :| g in plan && c in Showing(env, cur)(g);
    GroupRowsFit(env, cur, g, c);
    WordRowIsAWord(cur, g, c);
  }

  lemma WordRowIsAWord(cur: string, g: Group, c: Candidate)
    requires RowFits(cur, g, c) && IsWordKind(c.kind)
    ensures g.Words? && exists w | w in g.words :: w.value == c.value
  {
  }

  lemma {:induction false} PlanWordIsOffered(env: Env, cur: string, plan: seq<Group>, g: Group, w: Word)
    requires g in plan && g.Words? && w in g.words && PlainGroup(g) && cur <= w.value
    ensures OffersWord(ShowAll(env, cur, plan), w.value)
  {
    var c := WordRow()(w);
    WordFitsCur(g.words, cur, c);
    assert c in Showing(env, cur)(g);
    ConcatMember(Showing(env, cur), plan, c);
  }

  lemma {:induction false} WordsOfPlan(env: Env, cur: string, plan: seq<Group>, v: string)
    requires forall g | g in plan :: PlainGroup(g)
    ensures OffersWord(ShowAll(env, cur, plan), v) <==> HasWord(plan, v) && cur <= v
  {
    if OffersWord(ShowAll(env, cur, plan), v) {
      var c :| c in ShowAll(env, cur, plan) && IsWordKind(c.kind) && c.value == v;
      OfferedWordIsInPlan(env, cur, plan, c);
    }
    if HasWord(plan, v) && cur <= v {
      var g, w :| g in plan && g.Words? && w in g.words && w.value == v;
      PlanWordIsOffered(env, cur, plan, g, w);
    }
  }

  /** The plan has the groups of the offer and no others. */
  ghost predicate Describes(plan: seq<Group>, query: KindFilter, o: Offer)
  {
    && (match o.files
        case Some(f) => f.display == "zz " && exists g | g in plan :: g.LocalFiles? && g.base == f.base
        case None => forall g | g in plan :: !g.LocalFiles?)
    && (match o.dirs
        case Some(d) => LocalDirs(d.display, d.base) in plan
        case None => forall g | g in plan :: !g.LocalDirs?)
    && (match o.remoteFiles
        case Some(f) =>
          exists g | g in plan :: g.RemoteFiles? && f == Ranked(Before(g.verb), g.base) && g.query == query
        case None => forall g | g in plan :: !g.RemoteFiles?)
    && (match o.remoteDirs
        case Some(d) =>
          exists g | g in plan :: g.RemoteDirs? && d == Ranked(Before(g.verb), g.base) && g.query == query
        case None => forall g | g in plan :: !g.RemoteDirs?)
    && (forall v :: v in o.words <==> HasWord(plan, v))
  }

  ghost predicate PlanFor(plan: seq<Group>, query: KindFilter, o: Offer)
  {
    NoKindTwice(plan) && (forall g | g in plan :: PlainGroup(g)) && Describes(plan, query, o)
  }

  lemma {:induction false} PlanOffersLocal(env: Env, cur: string, plan: seq<Group>, query: KindFilter, o: Offer)
    requires PlanFor(plan, query, o)
    ensures match o.files
            case Some(f) =>
              AreYoungest(Of(FileLocal, ShowAll(env, cur, plan)), LocalMatches(env, cur, false), "", f.display, f.base)
            case None => Of(FileLocal, ShowAll(env, cur, plan)) == []
    ensures match o.dirs
            case Some(d) =>
              AreYoungest(Of(DirLocal, ShowAll(env, cur, plan)), LocalMatches(env, cur, true), "/", d.display, d.base)
            case None => Of(DirLocal, ShowAll(env, cur, plan)) == []
  {
    if o.files.Some? {
      var g :| g in plan && g.LocalFiles? && g.base == o.files.value.base;
      KindOfPlan(env, cur, plan, g, FileLocal);
      EveryGroupOffers(env, cur, g);
    } else {
      KindNotInPlan(env, cur, plan, FileLocal);
    }
    if o.dirs.Some? {
      var g := LocalDirs(o.dirs.value.display, o.dirs.value.base);
      KindOfPlan(env, cur, plan, g, DirLocal);
      EveryGroupOffers(env, cur, g);
    } else {
      KindNotInPlan(env, cur, plan, DirLocal);
    }
  }

  lemma {:induction false} PlanOffersRemoteFiles(env: Env, cur: string, plan: seq<Group>, query: KindFilter, o: Offer)
    requires PlanFor(plan, query, o)
    ensures match o.remoteFiles
            case Some(f) =>
              AreFirstByName(Of(FileRemote, ShowAll(env, cur, plan)), RemoteMatches(env, cur, query, File), cur, File, f)
            case None => Of(FileRemote, ShowAll(env, cur, plan)) == []
  {
    if o.remoteFiles.Some? {
      var g :| g in plan && g.RemoteFiles? && o.remoteFiles == Some(Ranked(Before(g.verb), g.base)) && g.query == query;
      KindOfPlan(env, cur, plan, g, FileRemote);
      EveryGroupOffers(env, cur, g);
    } else {
      KindNotInPlan(env, cur, plan, FileRemote);
    }
  }

  lemma {:induction false} PlanOffersRemoteDirs(env: Env, cur: string, plan: seq<Group>, query: KindFilter, o: Offer)
    requires PlanFor(plan, query, o)
    ensures match o.remoteDirs
            case Some(d) =>
              AreFirstByName(Of(DirRemote, ShowAll(env, cur, plan)), RemoteMatches(env, cur, query, Directory), cur,
                             Directory, d)
            case None => Of(DirRemote, ShowAll(env, cur, plan)) == []
  {
    if o.remoteDirs.Some? {
      var g :| g in plan && g.RemoteDirs? && o.remoteDirs == Some(Ranked(Before(g.verb), g.base)) && g.query == query;
      KindOfPlan(env, cur, plan, g, DirRemote);
      EveryGroupOffers(env, cur, g);
    } else {
      KindNotInPlan(env, cur, plan, DirRemote);
    }
  }

  lemma {:induction false} PlanOffersWords(env: Env, cur: string, plan: seq<Group>, query: KindFilter, o: Offer)
    requires PlanFor(plan, query, o)
    ensures forall v :: OffersWord(ShowAll(env, cur, plan), v) <==> v in o.words && cur <= v
  {
    forall v ensures OffersWord(ShowAll(env, cur, plan), v) <==> v in o.words && cur <= v {
      WordsOfPlan(env, cur, plan, v);
    }
  }

  lemma {:induction false} PlanOffers(env: Env, cur: string, plan: seq<Group>, query: KindFilter, o: Offer)
    requires PlanFor(plan, query, o)
    ensures OffersExactly(env, cur, query, ShowAll(env, cur, plan), o)
  {
    PlanOffersLocal(env, cur, plan, query, o);
    PlanOffersRemoteFiles(env, cur, plan, query, o);
    PlanOffersRemoteDirs(env, cur, plan, query, o);
    PlanOffersWords(env, cur, plan, query, o);
  }

  /** A whole run. */
  lemma {:induction false} RunOffers(env: Env, state: SacsState, tokens: seq<string>, query: KindFilter, o: Offer)
    requires Describes(Plan(state, PreviousTokens(tokens), CurrentWord(tokens)), query, o)
    ensures OffersExactly(env, CurrentWord(tokens), query, Offered(env, state, tokens), o)
  {
    var prev, cur := PreviousTokens(tokens), CurrentWord(tokens);
    PlanIsPlain(state, prev, cur);
    PlanNamesNoKindTwice(state, prev, cur);
    PlanOffers(env, cur, Plan(state, prev, cur), query, o);
  }

  // ----- position by position -----

  function Plain(base: nat): Ranked { Ranked("zz ", base) }

  function Behind(verb: string, base: nat): Ranked { Ranked("zz " + verb + " ", base) }

  ghost predicate ValuesAre(words: seq<Word>, vs: set<string>) { forall v :: v in vs <==> exists w | w in words :: w.value == v }

  lemma {:induction false} OneTable(words: seq<Word>, vs: set<string>, query: KindFilter)
    requires ValuesAre(words, vs)
    ensures Describes([Words(words)], query, Offer(None, None, None, None, vs))
  {
    forall v ensures v in vs <==> HasWord([Words(words)], v) {
      if v in vs {
        var w :| w in words && w.value == v;
        assert Words(words) in [Words(words)];
      }
    }
  }

  lemma SetupValues()
    ensures ValuesAre(FreshWords(), {"c", "--help"})
  {
    var ws := FreshWords();
    assert ws[0] in ws && ws[1] in ws;
  }

  lemma DownValues()
    ensures ValuesAre(DownWords(), {"z", "c", "q", "w", "f"})
  {
    var ws := DownWords();
    assert ws[0] in ws && ws[1] in ws && ws[2] in ws && ws[3] in ws && ws[4] in ws;
  }

  lemma LockedValues()
    ensures ValuesAre(LockedWords(), {"z", "c", "q", "w", "f"})
  {
    var ws := LockedWords();
    assert ws[0] in ws && ws[1] in ws && ws[2] in ws && ws[3] in ws && ws[4] in ws;
  }

  /** Before the agent is ready only the words of the state are offered, whatever was typed before. */
  lemma {:induction false} BeforeReady(env: Env, state: SacsState, tokens: seq<string>, query: KindFilter)
    requires !state.S3Ready? && !state.S4ReadyDual?
    ensures OffersExactly(env, CurrentWord(tokens), query, Offered(env, state, tokens),
                          NOTHING.(words := if state.S0Fresh? then {"c", "--help"} else {"z", "c", "q", "w", "f"}))
  {
    SetupValues();
    DownValues();
    LockedValues();
    var vs := if state.S0Fresh? then {"c", "--help"} else {"z", "c", "q", "w", "f"};
    OneTable(SetupWords(state), vs, query);
    RunOffers(env, state, tokens, query, NOTHING.(words := vs));
  }

  lemma VerbTableHasNoOther()
    ensures forall w | w in VerbWords() :: w.value in VERBS
  {
  }

  lemma VerbTableHasAll()
    ensures forall v | v in VERBS :: exists w | w in VerbWords() :: w.value == v
  {
    var ws := VerbWords();
    assert ws[0] in ws && ws[1] in ws && ws[2] in ws && ws[3] in ws && ws[4] in ws && ws[5] in ws && ws[6] in ws;
  }

  lemma VerbTableValues()
    ensures ValuesAre(VerbWords(), VERBS)
  {
    VerbTableHasNoOther();
    VerbTableHasAll();
  }

  lemma AtomValues()
    ensures ValuesAre(ReadyAtoms(), {"q", "c", "f"})
  {
    var ws := ReadyAtoms();
    assert ws[0] in ws && ws[1] in ws && ws[2] in ws;
  }

  lemma UnlockValues(state: SacsState)
    ensures ValuesAre(UnlockWords(state), if state.S4ReadyDual? then {"z", "z local", "z remote"} else {"z"})
  {
    var ws := UnlockWords(state);
    assert ws[0] in ws;
    if state.S4ReadyDual? {
      assert ws[1] in ws && ws[2] in ws;
    }
  }

  lemma {:induction false} ThreeTables(groups: seq<Group>, a: seq<Word>, b: seq<Word>, c: seq<Word>, x: set<string>,
                                       y: set<string>, z: set<string>)
    requires ValuesAre(a, x) && ValuesAre(b, y) && ValuesAre(c, z) && forall g | g in groups :: !g.Words?
    ensures forall v :: v in x + y + z <==> HasWord(groups + [Words(a), Words(b), Words(c)], v)
  {
    var plan := groups + [Words(a), Words(b), Words(c)];
    assert plan[|groups|] == Words(a) && plan[|groups| + 1] == Words(b) && plan[|groups| + 2] == Words(c);
    assert Words(a) in plan && Words(b) in plan && Words(c) in plan;
    forall v ensures v in x + y + z <==> HasWord(plan, v) {
      if v in x {
        var w :| w in a && w.value == v;
      }
      if v in y {
        var w :| w in b && w.value == v;
      }
      if v in z {
        var w :| w in c && w.value == v;
      }
      if HasWord(plan, v) {
        var g, w :| g in plan && g.Words? && w in g.words && w.value == v;
        assert g in groups || g == Words(a) || g == Words(b) || g == Words(c);
      }
    }
  }

  const VERBS: set<string> := {"s", "d", "sa", "sx", "dx", "sarx", "darx"}

  function FirstWords(state: SacsState): set<string>
  {
    VERBS + {"q", "c", "f"} + if state.S4ReadyDual? then {"z", "z local", "z remote"} else {"z"}
  }

  /** First position, agent ready: local files and directories unless a verb is being composed, and the words. */
  lemma {:induction false} FirstPosition(env: Env, state: SacsState, tokens: seq<string>, query: KindFilter)
    requires (state.S3Ready? || state.S4ReadyDual?) && |tokens| <= 1
    ensures var cur := CurrentWord(tokens);
            var o := NOTHING.(words := FirstWords(state));
            OffersExactly(env, cur, query, Offered(env, state, tokens),
                          if Grammar.IsComposite(cur) then o
                          else o.(files := Some(Plain(1)), dirs := Some(Plain(50))))
  {
    var cur := CurrentWord(tokens);
    VerbTableValues();
    AtomValues();
    UnlockValues(state);
    CompositeIffToken(cur);
    var locals := FirstLocals(cur);
    ThreeTables(locals, VerbWords(), ReadyAtoms(), UnlockWords(state), VERBS, {"q", "c", "f"},
                if state.S4ReadyDual? then {"z", "z local", "z remote"} else {"z"});
    var o := NOTHING.(words := FirstWords(state));
    var offer := if Grammar.IsComposite(cur) then o else o.(files := Some(Plain(1)), dirs := Some(Plain(50)));
    LocalsDescribe(cur, VerbWords(), ReadyAtoms(), UnlockWords(state), query, offer);
    assert PreviousTokens(tokens) == [];
    RunOffers(env, state, tokens, query, offer);
  }

  lemma CompositeIffToken(cur: string)
    ensures Grammar.IsComposite(cur) <==> cur != "" && IsCompositeToken(cur)
  {
    if cur != "" {
      AllCompositeMeans(cur[1..]);
    }
  }

  lemma {:induction false} LocalsDescribe(cur: string, a: seq<Word>, b: seq<Word>, c: seq<Word>, query: KindFilter, o: Offer)
    requires o == (if Grammar.IsComposite(cur) then NOTHING
                   else NOTHING.(files := Some(Plain(1)), dirs := Some(Plain(50)))).(words := o.words)
    requires forall v :: v in o.words <==> HasWord(FirstLocals(cur) + [Words(a), Words(b), Words(c)], v)
    ensures Describes(FirstLocals(cur) + [Words(a), Words(b), Words(c)], query, o)
  {
    CompositeIffToken(cur);
    var plan := FirstLocals(cur) + [Words(a), Words(b), Words(c)];
    if !Grammar.IsComposite(cur) {
      assert plan[0] == LocalFiles(UploadIt, 1, true) && plan[1] == LocalDirs("zz ", 50);
      assert plan[0] in plan && plan[1] in plan;
    }
  }

  /** No words at all in a plan without tables. */
  lemma NoWords(plan: seq<Group>)
    requires forall g | g in plan :: !g.Words?
    ensures forall v :: !HasWord(plan, v)
  {
  }

  lemma {:induction false} OneRanked(g: Group, query: KindFilter)
    requires g.LocalDirs? || (g.RemoteDirs? && g.query == query)
    ensures Describes([g], query, if g.LocalDirs? then NOTHING.(dirs := Some(Ranked(g.display, g.base)))
                                  else NOTHING.(remoteDirs := Some(Ranked(Before(g.verb), g.base))))
  {
    NoWords([g]);
    assert g in [g];
  }

  /** After `sa`, `sar` and the like, and after `da` and the like: a local directory, then a remote one. */
  lemma {:induction false} AfterBulkVerb(env: Env, state: SacsState, tokens: seq<string>)
    requires (state.S3Ready? || state.S4ReadyDual?) && |tokens| >= 2
    requires Grammar.IsComposite(tokens[0]) && 'a' in tokens[0][1..]
    ensures OffersExactly(env, CurrentWord(tokens), DirectoryOnly, Offered(env, state, tokens),
                          if |tokens| == 2 then NOTHING.(dirs := Some(Ranked("zz sa ", 1)))
                          else NOTHING.(remoteDirs := Some(Behind(tokens[0], 1))))
  {
    var head, after := HeadAndAfter(tokens);
    var g := BulkGroup(head, after);
    OneRanked(g, DirectoryOnly);
    PlanAfterComposite(state, tokens);
    assert AfterSPlan(head, after) == [g] && AfterDPlan(head, after) == [g];
    RunOffers(env, state, tokens, DirectoryOnly,
              if |tokens| == 2 then NOTHING.(dirs := Some(Ranked("zz sa ", 1)))
              else NOTHING.(remoteDirs := Some(Behind(tokens[0], 1))));
  }

  /** The verb, and the tokens between it and the word under the cursor. */
  lemma {:induction false} HeadAndAfter(tokens: seq<string>) returns (head: string, after: seq<string>)
    requires |tokens| >= 2
    ensures head == tokens[0] && after == PreviousTokens(tokens)[1..] && PreviousTokens(tokens)[0] == head
    ensures PreviousTokens(tokens) != [] && (after == [] <==> |tokens| == 2)
  {
    head, after := tokens[0], tokens[..|tokens| - 1][1..];
  }

  lemma {:induction false} PlanAfterComposite(state: SacsState, tokens: seq<string>)
    requires (state.S3Ready? || state.S4ReadyDual?) && |tokens| >= 2 && Grammar.IsComposite(tokens[0])
    ensures var (prev, cur) := (PreviousTokens(tokens), CurrentWord(tokens));
            prev != [] && Plan(state, prev, cur) ==
                          if tokens[0][0] == 's' then AfterSPlan(tokens[0], prev[1..]) else AfterDPlan(tokens[0], prev[1..])
    ensures ModifiersIn(tokens[0]).a <==> 'a' in tokens[0][1..]
  {
    var head, after := HeadAndAfter(tokens);
    CompositeIffToken(head);
    assert AfterVerbByte(head) == head[1..];
  }

  /** After `s` and `sx`: local files and directories, and from the second argument on remote directories too. */
  lemma {:induction false} AfterSave(env: Env, state: SacsState, tokens: seq<string>)
    requires (state.S3Ready? || state.S4ReadyDual?) && |tokens| >= 2
    requires Grammar.IsComposite(tokens[0]) && tokens[0][0] == 's' && 'a' !in tokens[0][1..]
    ensures OffersExactly(env, CurrentWord(tokens), DirectoryOnly, Offered(env, state, tokens),
                          if |tokens| == 2 then NOTHING.(files := Some(Plain(1)), dirs := Some(Plain(100)))
                          else NOTHING.(files := Some(Plain(1)), dirs := Some(Plain(25)),
                                        remoteDirs := Some(Behind(tokens[0], 50))))
  {
    var head, after := HeadAndAfter(tokens);
    PlanAfterComposite(state, tokens);
    var plan := AfterSPlan(head, after);
    var offer := if |tokens| == 2 then NOTHING.(files := Some(Plain(1)), dirs := Some(Plain(100)))
                 else NOTHING.(files := Some(Plain(1)), dirs := Some(Plain(25)), remoteDirs := Some(Behind(head, 50)));
    SavePlanDescribes(head, after, offer);
    RunOffers(env, state, tokens, DirectoryOnly, offer);
  }

  lemma {:induction false} SavePlanDescribes(verb: string, after: seq<string>, o: Offer)
    requires verb != "" && !ModifiersIn(verb).a
    requires o == if after == [] then NOTHING.(files := Some(Plain(1)), dirs := Some(Plain(100)))
                  else NOTHING.(files := Some(Plain(1)), dirs := Some(Plain(25)), remoteDirs := Some(Behind(verb, 50)))
    ensures Describes(AfterSPlan(verb, after), DirectoryOnly, o)
  {
    var plan := AfterSPlan(verb, after);
    NoWords(plan);
    assert plan[0] in plan && plan[1] in plan && (|plan| > 2 ==> plan[2] in plan);
  }

  /** After `d` and `dx`: remote files and directories, and from the second argument on local directories instead. */
  lemma {:induction false} AfterDownload(env: Env, state: SacsState, tokens: seq<string>)
    requires (state.S3Ready? || state.S4ReadyDual?) && |tokens| >= 2
    requires Grammar.IsComposite(tokens[0]) && tokens[0][0] == 'd' && 'a' !in tokens[0][1..]
    ensures OffersExactly(env, CurrentWord(tokens), Both, Offered(env, state, tokens),
                          if |tokens| == 2 then NOTHING.(remoteFiles := Some(Behind(tokens[0], 1)),
                                                         remoteDirs := Some(Behind(tokens[0], 50)))
                          else NOTHING.(remoteFiles := Some(Behind(tokens[0], 1)), dirs := Some(Ranked("zz sa ", 51))))
  {
    var head, after := HeadAndAfter(tokens);
    PlanAfterComposite(state, tokens);
    var offer := if |tokens| == 2 then NOTHING.(remoteFiles := Some(Behind(head, 1)),
                                                remoteDirs := Some(Behind(head, 50)))
                 else NOTHING.(remoteFiles := Some(Behind(head, 1)), dirs := Some(Ranked("zz sa ", 51)));
    DownloadPlanDescribes(head, after, offer);
    RunOffers(env, state, tokens, Both, offer);
  }

  lemma {:induction false} DownloadPlanDescribes(verb: string, after: seq<string>, o: Offer)
    requires verb != "" && !ModifiersIn(verb).a
    requires o == if after == [] then NOTHING.(remoteFiles := Some(Behind(verb, 1)),
                                               remoteDirs := Some(Behind(verb, 50)))
                  else NOTHING.(remoteFiles := Some(Behind(verb, 1)), dirs := Some(Ranked("zz sa ", 51)))
    ensures Describes(AfterDPlan(verb, after), Both, o)
  {
    var plan := AfterDPlan(verb, after);
    NoWords(plan);
    assert plan[0] in plan && plan[1] in plan;
  }

  lemma ContainerValues(state: SacsState)
    ensures ValuesAre(ContainerWords(state), if state.S4ReadyDual? then {"local", "remote"} else {"local"})
  {
    var ws := ContainerWords(state);
    assert ws[0] in ws && (state.S4ReadyDual? ==> ws[1] in ws);
  }

  /** After `z` the containers, once; after every other word command nothing. */
  lemma {:induction false} AfterAtom(env: Env, state: SacsState, tokens: seq<string>, query: KindFilter)
    requires (state.S3Ready? || state.S4ReadyDual?) && |tokens| >= 2 && Grammar.IsAtom(tokens[0])
    ensures OffersExactly(env, CurrentWord(tokens), query, Offered(env, state, tokens),
                          if tokens[0] == "z" && |tokens| == 2
                          then NOTHING.(words := if state.S4ReadyDual? then {"local", "remote"} else {"local"})
                          else NOTHING)
  {
    var head, after := HeadAndAfter(tokens);
    var prev := PreviousTokens(tokens);
    Grammar.AtomsAreNotComposite(head);
    assert !IsCompositeToken(head);
    ContainerValues(state);
    NoWords([]);
    if head == "z" && |tokens| == 2 {
      OneTable(ContainerWords(state), if state.S4ReadyDual? then {"local", "remote"} else {"local"}, query);
      RunOffers(env, state, tokens, query,
                NOTHING.(words := if state.S4ReadyDual? then {"local", "remote"} else {"local"}));
    } else {
      RunOffers(env, state, tokens, query, NOTHING);
    }
  }

  /** After a file without a verb: more files, or a remote directory to end with. */
  lemma {:induction false} AfterFile(env: Env, state: SacsState, tokens: seq<string>)
    requires (state.S3Ready? || state.S4ReadyDual?) && |tokens| >= 2 && !Grammar.IsReserved(tokens[0])
    ensures OffersExactly(env, CurrentWord(tokens), DirectoryOnly, Offered(env, state, tokens),
                          NOTHING.(files := Some(Plain(1)), remoteDirs := Some(Plain(50))))
  {
    var head, after := HeadAndAfter(tokens);
    CompositeIffToken(head);
    var plan := [LocalFiles(AddAsSource, 1, false), RemoteDirs("", 50, DirectoryOnly)];
    NoWords(plan);
    assert plan[0] in plan && plan[1] in plan;
    RunOffers(env, state, tokens, DirectoryOnly, NOTHING.(files := Some(Plain(1)), remoteDirs := Some(Plain(50))));
  }
}
