/** The names tried for a file whose own name is taken (core/src/providers/nextcloud/collision.rs). */
module Collisions {
  import opened Basics
  import opened Text
  import opened Sorting
  import opened Decimal
  import opened CivilDate
  import opened RemoteTrees

  /** Digits of a fixed width that tell the time, highest first, with `T` before the clock and `Z` at the end. */
  function BasicStamp(secs: nat): string
  {
    var t := StampOf(secs);
    YearIsPositive(secs / 86_400);
    Padded(t.date.year, 4) + Padded(t.date.month, 2) + Padded(t.date.day, 2) + "T" +
    Padded(t.hour, 2) + Padded(t.minute, 2) + Padded(t.second, 2) + "Z"
  }

  /** The name before its last dot and what follows it; a name whose only dot leads has no extension. */
  function StemAndExtension(name: string): (string, Option<string>)
  {
    match LastIndex(name, '.')
    case Some(i) => if i == 0 || name == ".." then (name, None) else (name[..i], Some(name[i + 1..]))
    case None => (name, None)
  }

  function Mark(n: nat, secs: nat): string
  {
    if n == 1 then "-" + BasicStamp(secs) else "-" + BasicStamp(secs) + "-" + Print(n)
  }

  function Dotted(extension: Option<string>): string { if extension.Some? then "." + extension.value else "" }

  /** `rename_with_suffix_at`. */
  function RenamedAt(name: string, n: nat, secs: nat): string
  {
    if n == 0 then name
    else
      var (stem, extension) := StemAndExtension(name);
      stem + Mark(n, secs) + Dotted(extension)
  }

  // ----- no two attempts try the same name -----

  lemma {:induction false} PrintInjective(m: nat, n: nat)
    requires Print(m) == Print(n)
    ensures m == n
  {
    ParsePrint(m);
    ParsePrint(n);
  }

  lemma {:induction false} LastOf(a: string, c: char, b: string)
    requires Free(b, c)
    ensures LastIndex(a + [c] + b, c) == Some(|a|)
    decreases |b|
  {
    var s := a + [c] + b;
    if b == "" {
      assert s[|s| - 1] == c;
    } else {
      var m := |b| - 1;
      assert b[m] in b && forall d | d in b[..m] :: d in b;
      assert s[|s| - 1] == b[m] && s[..|s| - 1] == a + [c] + b[..m];
      LastOf(a, c, b[..m]);
    }
  }

  lemma {:induction false} NumberIsLast(a: string, m: nat, b: string, n: nat)
    requires a + "-" + Print(m) == b + "-" + Print(n)
    ensures m == n
  {
    PrintedDigits(m);
    PrintedDigits(n);
    LastOf(a, '-', Print(m));
    LastOf(b, '-', Print(n));
    assert a + ['-'] + Print(m) == b + ['-'] + Print(n);
    assert Print(m) == (a + "-" + Print(m))[|a| + 1..];
    assert Print(n) == (b + "-" + Print(n))[|b| + 1..];
    PrintInjective(m, n);
  }

  lemma {:induction false} MarksDiffer(m: nat, s: nat, n: nat, t: nat)
    requires 0 < m < n
    ensures Mark(m, s) != Mark(n, t)
  {
    PrintedDigits(n);
    var x, y := Mark(m, s), Mark(n, t);
    assert y[|y| - 1] == Print(n)[|Print(n)| - 1] && Print(n)[|Print(n)| - 1] in Print(n);
    if m == 1 {
      assert x[|x| - 1] == 'Z';
    } else if x == y {
      NumberIsLast("-" + BasicStamp(s), m, "-" + BasicStamp(t), n);
    }
  }

  lemma MarkIsSomething(n: nat, secs: nat)
    ensures Mark(n, secs) != ""
  {
  }

  lemma StemRejoins(name: string)
    ensures var (stem, extension) := StemAndExtension(name); stem + Dotted(extension) == name
  {
    var i := LastIndex(name, '.');
    if i.Some? {
      assert name == name[..i.value] + "." + name[i.value + 1..];
    }
  }

  /** Whatever the clock does between two attempts, they try different names. */
  lemma {:induction false} AttemptsDiffer(name: string, m: nat, s: nat, n: nat, t: nat)
    requires m < n
    ensures RenamedAt(name, m, s) != RenamedAt(name, n, t)
  {
    var (stem, extension) := StemAndExtension(name);
    StemRejoins(name);
    if m == 0 {
      MarkIsSomething(n, t);
      assert |RenamedAt(name, n, t)| > |name|;
    } else {
      MarksDiffer(m, s, n, t);
      if RenamedAt(name, m, s) == RenamedAt(name, n, t) {
        SameBetween(stem, Mark(m, s), Mark(n, t), Dotted(extension));
      }
    }
  }

  lemma SameBetween(a: string, x: string, y: string, b: string)
    requires a + x + b == a + y + b
    ensures x == y
  {
    assert |x| == |y|;
    assert x == (a + x + b)[|a|..|a| + |x|] && y == (a + y + b)[|a|..|a| + |y|];
  }

  lemma {:induction false} SplitAtLastDot(front: string, extension: string)
    requires |front| > 1 && Free(extension, '.')
    ensures StemAndExtension(front + ['.'] + extension) == (front, Some(extension))
  {
    LastOf(front, '.', extension);
    var s := front + ['.'] + extension;
    assert s[..|front|] == front && s[|front| + 1..] == extension;
  }

  lemma {:induction false} StemIsSomething(name: string)
    requires StemAndExtension(name).1.Some?
    ensures StemAndExtension(name).0 != "" && Free(StemAndExtension(name).1.value, '.')
  {
  }

  /** The name keeps its extension, and the mark stands right before it. */
  lemma {:induction false} ExtensionIsKept(name: string, n: nat, secs: nat)
    requires n > 0 && StemAndExtension(name).1.Some?
    ensures StemAndExtension(RenamedAt(name, n, secs)) ==
            (StemAndExtension(name).0 + Mark(n, secs), StemAndExtension(name).1)
  {
    var (stem, extension) := StemAndExtension(name);
    StemIsSomething(name);
    MarkIsSomething(n, secs);
    MarkedSplits(stem, Mark(n, secs), extension.value);
    assert RenamedAt(name, n, secs) == stem + Mark(n, secs) + ("." + extension.value);
  }

  lemma MarkedSplits(stem: string, mark: string, extension: string)
    requires stem != "" && mark != "" && Free(extension, '.')
    ensures StemAndExtension(stem + mark + ("." + extension)) == (stem + mark, Some(extension))
  {
    SplitAtLastDot(stem + mark, extension);
    assert stem + mark + ("." + extension) == (stem + mark) + ['.'] + extension;
  }

  // ----- when renaming gives up -----

  /** The names tried in one upload, each at its own time. */
  function Attempts(clock: nat -> nat): (string, nat) -> string
  {
    (leaf: string, n: nat) => RenamedAt(leaf, n, clock(n))
  }

  ghost function FilesBeside(r: Remote, key: Path): set<Path>
    requires key != []
  {
    set k | k in r.files && |k| == |key| && k[..|k| - 1] == key[..|key| - 1]
  }

  /** The places of the first `n` names. */
  ghost function Places(parent: Path, names: nat -> string, n: nat): set<Path>
  {
    if n == 0 then {} else Places(parent, names, n - 1) + {parent + [names(n - 1)]}
  }

  lemma {:induction false} PlaceIsOfAName(parent: Path, names: nat -> string, n: nat, k: Path)
    requires k in Places(parent, names, n)
    ensures exists i | 0 <= i < n :: k == parent + [names(i)]
  {
    if k in Places(parent, names, n - 1) {
      PlaceIsOfAName(parent, names, n - 1, k);
    }
  }

  lemma {:induction false} DifferentNamesAreMany(parent: Path, names: nat -> string, n: nat)
    requires forall i, j | 0 <= i < j < n :: names(i) != names(j)
    ensures |Places(parent, names, n)| == n
  {
    if n > 0 {
      DifferentNamesAreMany(parent, names, n - 1);
      var last := parent + [names(n - 1)];
      forall i | 0 <= i < n - 1 ensures parent + [names(i)] != last {
        OtherLeaf(parent, names(i), names(n - 1));
      }
      if last in Places(parent, names, n - 1) {
        PlaceIsOfAName(parent, names, n - 1, last);
      }
    }
  }

  lemma OtherLeaf(parent: Path, a: string, b: string)
    requires a != b
    ensures parent + [a] != parent + [b]
  {
    assert (parent + [a])[|parent|] == a && (parent + [b])[|parent|] == b;
  }

  function Names(leaf: string, clock: nat -> nat): nat -> string { (i: nat) => RenamedAt(leaf, i, clock(i)) }

  lemma {:induction false} NamesDiffer(leaf: string, clock: nat -> nat, i: nat, j: nat)
    requires i < j
    ensures Names(leaf, clock)(i) != Names(leaf, clock)(j)
  {
    AttemptsDiffer(leaf, i, clock(i), j, clock(j));
  }

  lemma {:induction false} TakenIsThere(files: map<Path, Bytes>, parent: Path, leaf: string, clock: nat -> nat, i: nat)
    requires Taken(files, parent, leaf, Attempts(clock), i)
    ensures parent + [Names(leaf, clock)(i)] in files
  {
    assert i == 0 ==> RenamedAt(leaf, i, clock(i)) == leaf;
  }

  /** An upload gives up renaming only in a directory that holds a hundred and one files at least. */
  lemma {:induction false} GivingUpNeedsManyFiles(r: Remote, key: Path, body: Bytes, clock: nat -> nat)
    requires key != []
    requires AfterUpload(r, key, body, Rename, Attempts(clock)).1 == Err(TooManyConflicts)
    ensures |FilesBeside(r, key)| >= 101
  {
    var parent, leaf := key[..|key| - 1], key[|key| - 1];
    RenamePolicy(r, key, body, Attempts(clock));
    ManyTakenNames(r.files, parent, leaf, clock);
    forall k | k in Places(parent, Names(leaf, clock), 101) ensures k in FilesBeside(r, key) {
      PlaceIsOfAName(parent, Names(leaf, clock), 101, k);
      assert k[..|k| - 1] == parent;
    }
    SubsetIsSmaller(Places(parent, Names(leaf, clock), 101), FilesBeside(r, key));
  }

  lemma {:induction false} ManyTakenNames(files: map<Path, Bytes>, parent: Path, leaf: string, clock: nat -> nat)
    requires AllTaken(files, parent, leaf, Attempts(clock))
    ensures |Places(parent, Names(leaf, clock), 101)| == 101
    ensures forall k | k in Places(parent, Names(leaf, clock), 101) :: k in files
  {
    forall i: nat, j: nat | i < j < 101 ensures Names(leaf, clock)(i) != Names(leaf, clock)(j) {
      NamesDiffer(leaf, clock, i, j);
    }
    DifferentNamesAreMany(parent, Names(leaf, clock), 101);
    forall k | k in Places(parent, Names(leaf, clock), 101) ensures k in files {
      PlaceIsOfAName(parent, Names(leaf, clock), 101, k);
      var i :| 0 <= i < 101 && k == parent + [Names(leaf, clock)(i)];
      TakenIsThere(files, parent, leaf, clock, i);
    }
  }

  lemma {:induction false} SubsetIsSmaller<T>(a: set<T>, b: set<T>)
    requires a <= b
    ensures |a| <= |b|
  {
    if a != {} {
      var x :| x in a;
      SubsetIsSmaller(a - {x}, b - {x});
    }
  }

  // ----- renamed files sort by time -----

  predicate LowerAt(a: string, b: string, k: nat) { k < |a| && k < |b| && a[..k] == b[..k] && a[k] < b[k] }

  /** They differ, and at the first difference `a` has the lower character. */
  ghost predicate Lower(a: string, b: string) { exists k: nat :: LowerAt(a, b, k) }

  lemma {:induction false} LowerIsBefore(a: string, b: string)
    requires Lower(a, b)
    ensures StringLe(a, b) && a != b
  {
    var k: nat :| LowerAt(a, b, k);
    assert DecidedAt(a, b, k);
    StringLeIsFirstDifference(a, b);
  }

  lemma LowerBehind(p: string, a: string, b: string)
    requires Lower(a, b)
    ensures Lower(p + a, p + b)
  {
    var k: nat :| LowerAt(a, b, k);
    assert (p + a)[..|p| + k] == p + a[..k] && (p + b)[..|p| + k] == p + b[..k];
    assert LowerAt(p + a, p + b, |p| + k);
  }

  lemma LowerInFront(a: string, x: string, b: string, y: string)
    requires Lower(a, b)
    ensures Lower(a + x, b + y)
  {
    var k: nat :| LowerAt(a, b, k);
    assert (a + x)[..k] == a[..k] && (b + y)[..k] == b[..k];
    assert LowerAt(a + x, b + y, k);
  }

  /** The first field that differs decides, whatever follows. */
  lemma FieldsDecide(a: string, x: string, b: string, y: string)
    requires Lower(a, b) || (a == b && Lower(x, y))
    ensures Lower(a + x, b + y)
  {
    if Lower(a, b) {
      LowerInFront(a, x, b, y);
    } else {
      LowerBehind(a, x, y);
    }
  }

  lemma TwoDecide(m: nat, n: nat)
    requires m < n < 100
    ensures Lower(TwoOf(m), TwoOf(n))
  {
    assert LowerAt(TwoOf(m), TwoOf(n), if m / 10 < n / 10 then 0 else 1);
  }

  lemma LowHundred(m: nat)
    ensures TwoOf(m % 100) == TwoOf(m)
  {
    var q, r := m / 100, m % 100;
    assert m == 10 * (10 * q + r / 10) + r % 10;
    assert m / 10 == 10 * q + r / 10 && m % 10 == r % 10;
  }

  lemma HundredsDecide(m: nat, n: nat)
    requires m < n
    ensures m / 100 < n / 100 || (m / 100 == n / 100 && m % 100 < n % 100)
  {
  }

  lemma YearsDecide(m: nat, n: nat)
    requires m < n < 10_000
    ensures Lower(Year(m), Year(n))
  {
    HundredsDecide(m, n);
    if m / 100 < n / 100 {
      TwoDecide(m / 100, n / 100);
    } else {
      TwoDecide(m % 100, n % 100);
      LowHundred(m);
      LowHundred(n);
    }
    FieldsDecide(TwoOf(m / 100), TwoOf(m), TwoOf(n / 100), TwoOf(n));
  }

  function Year(y: nat): string { TwoOf(y / 100) + TwoOf(y) }

  function DayText(d: Date): string
    requires d.year >= 0
  {
    Year(d.year) + (TwoOf(d.month) + TwoOf(d.day))
  }

  lemma DaysDecide(d: Date, e: Date)
    requires ValidDate(d) && ValidDate(e) && 0 <= d.year < 10_000 && 0 <= e.year < 10_000 && Earlier(d, e)
    ensures Lower(DayText(d), DayText(e))
  {
    if d.year < e.year {
      YearsDecide(d.year, e.year);
    } else {
      if d.month < e.month {
        TwoDecide(d.month, e.month);
      } else {
        TwoDecide(d.day, e.day);
      }
      FieldsDecide(TwoOf(d.month), TwoOf(d.day), TwoOf(e.month), TwoOf(e.day));
    }
    FieldsDecide(Year(d.year), TwoOf(d.month) + TwoOf(d.day), Year(e.year), TwoOf(e.month) + TwoOf(e.day));
  }

  function ClockText(t: Stamp): string { TwoOf(t.hour) + (TwoOf(t.minute) + TwoOf(t.second)) }

  lemma ClocksDecide(t: Stamp, u: Stamp)
    requires t.hour < 24 && t.minute < 60 && t.second < 60 && u.hour < 24 && u.minute < 60 && u.second < 60
    requires t.hour * 3600 + t.minute * 60 + t.second < u.hour * 3600 + u.minute * 60 + u.second
    ensures Lower(ClockText(t), ClockText(u))
  {
    if t.hour < u.hour {
      TwoDecide(t.hour, u.hour);
    } else {
      if t.minute < u.minute {
        TwoDecide(t.minute, u.minute);
      } else {
        TwoDecide(t.second, u.second);
      }
      FieldsDecide(TwoOf(t.minute), TwoOf(t.second), TwoOf(u.minute), TwoOf(u.second));
    }
    FieldsDecide(TwoOf(t.hour), TwoOf(t.minute) + TwoOf(t.second), TwoOf(u.hour), TwoOf(u.minute) + TwoOf(u.second));
  }

  lemma {:induction false} BasicStampIsSpelled(secs: nat)
    requires StampOf(secs).date.year < 10_000
    ensures var t := StampOf(secs);
            t.date.year >= 0 && BasicStamp(secs) == DayText(t.date) + ("T" + (ClockText(t) + "Z"))
  {
    var t := StampOf(secs);
    StampIsExact(secs);
    YearIsLate(secs);
    PaddedFour(t.date.year);
    PaddedTwo(t.date.month);
    PaddedTwo(t.date.day);
    PaddedTwo(t.hour);
    PaddedTwo(t.minute);
    PaddedTwo(t.second);
    SixFields(Year(t.date.year), TwoOf(t.date.month), TwoOf(t.date.day), TwoOf(t.hour), TwoOf(t.minute), TwoOf(t.second));
  }

  lemma SixFields(y: string, mo: string, d: string, h: string, mi: string, sec: string)
    ensures y + mo + d + "T" + h + mi + sec + "Z" == (y + (mo + d)) + ("T" + ((h + (mi + sec)) + "Z"))
  {
  }

  lemma {:induction false} StampsDecide(s: nat, t: nat)
    requires s < t && StampOf(s).date.year < 10_000 && StampOf(t).date.year < 10_000
    ensures Lower(BasicStamp(s), BasicStamp(t))
  {
    var a, b := StampOf(s), StampOf(t);
    StampIsExact(s);
    StampIsExact(t);
    BasicStampIsSpelled(s);
    BasicStampIsSpelled(t);
    if s / 86_400 < t / 86_400 {
      DatesIncrease(s / 86_400, t / 86_400);
      DaysDecide(a.date, b.date);
    } else {
      assert s / 86_400 == t / 86_400;
      ClocksDecide(a, b);
      LowerInFront(ClockText(a), "Z", ClockText(b), "Z");
      LowerBehind("T", ClockText(a) + "Z", ClockText(b) + "Z");
    }
    FieldsDecide(DayText(a.date), "T" + (ClockText(a) + "Z"), DayText(b.date), "T" + (ClockText(b) + "Z"));
  }

  /** What follows the stamp in a mark. */
  function Counter(n: nat): string { if n == 1 then "" else "-" + Print(n) }

  lemma MarkParts(stem: string, n: nat, secs: nat, rest: string)
    ensures stem + Mark(n, secs) + rest == stem + ("-" + (BasicStamp(secs) + (Counter(n) + rest)))
  {
    assert Mark(n, secs) == "-" + BasicStamp(secs) + Counter(n);
    Regroup(stem, "-", BasicStamp(secs), Counter(n), rest);
  }

  lemma Regroup(a: string, b: string, c: string, d: string, e: string)
    ensures a + (b + c + d) + e == a + (b + (c + (d + e)))
  {
  }

  /** Until the year 9999, renames of a name made in different seconds sort by time, whatever their numbers. */
  lemma {:induction false} RenamesSortByTime(name: string, m: nat, s: nat, n: nat, t: nat)
    requires m > 0 && n > 0 && s < t && StampOf(s).date.year < 10_000 && StampOf(t).date.year < 10_000
    ensures StringLe(RenamedAt(name, m, s), RenamedAt(name, n, t)) && RenamedAt(name, m, s) != RenamedAt(name, n, t)
  {
    var (stem, extension) := StemAndExtension(name);
    var x, y := Counter(m) + Dotted(extension), Counter(n) + Dotted(extension);
    StampsDecide(s, t);
    LowerInFront(BasicStamp(s), x, BasicStamp(t), y);
    LowerBehind("-", BasicStamp(s) + x, BasicStamp(t) + y);
    LowerBehind(stem, "-" + (BasicStamp(s) + x), "-" + (BasicStamp(t) + y));
    MarkParts(stem, m, s, Dotted(extension));
    MarkParts(stem, n, t, Dotted(extension));
    LowerIsBefore(RenamedAt(name, m, s), RenamedAt(name, n, t));
  }

  lemma {:induction false} SameBeginning(p: string, a: string, b: string)
    ensures StringLe(p + a, p + b) <==> StringLe(a, b)
  {
    if p == "" {
      assert p + a == a && p + b == b;
    } else {
      SameBeginning(p[1..], a, b);
      assert (p + a)[1..] == p[1..] + a && (p + b)[1..] == p[1..] + b;
    }
  }

  /** Two renames of a name in one second are compared by what follows the stamp. */
  lemma {:induction false} WithinASecond(name: string, m: nat, n: nat, secs: nat)
    requires m > 0 && n > 0
    ensures var rest := Dotted(StemAndExtension(name).1);
            StringLe(RenamedAt(name, m, secs), RenamedAt(name, n, secs)) <==>
            StringLe(Counter(m) + rest, Counter(n) + rest)
  {
    var (stem, extension) := StemAndExtension(name);
    var x, y := Counter(m) + Dotted(extension), Counter(n) + Dotted(extension);
    MarkParts(stem, m, secs, Dotted(extension));
    MarkParts(stem, n, secs, Dotted(extension));
    SameBeginning(BasicStamp(secs), x, y);
    SameBeginning("-", BasicStamp(secs) + x, BasicStamp(secs) + y);
    SameBeginning(stem, "-" + (BasicStamp(secs) + x), "-" + (BasicStamp(secs) + y));
  }

  /**
   Within one second it is not the time that decides: the first rename sorts before a later one iff the name has no
   extension, because the dot comes after the hyphen.
   */
  lemma {:induction false} FirstRenameSortsFirst(name: string, n: nat, secs: nat)
    requires n > 1
    ensures StringLe(RenamedAt(name, 1, secs), RenamedAt(name, n, secs)) <==> StemAndExtension(name).1.None?
  {
    WithinASecond(name, 1, n, secs);
    var rest := Dotted(StemAndExtension(name).1);
    assert Counter(1) + rest == rest;
    assert (Counter(n) + rest)[0] == '-';
  }

  /** And two later ones sort as their numbers do when read as text, so the tenth comes before the ninth. */
  lemma {:induction false} LaterRenamesSortAsText(name: string, m: nat, n: nat, secs: nat)
    requires 1 < m && 1 < n && m != n
    ensures StringLe(RenamedAt(name, m, secs), RenamedAt(name, n, secs)) <==> StringLe(Print(m), Print(n))
  {
    WithinASecond(name, m, n, secs);
    CountersSortAsText(m, n, Dotted(StemAndExtension(name).1));
  }

  lemma {:induction false} CountersSortAsText(m: nat, n: nat, rest: string)
    requires 1 < m && 1 < n && m != n && (rest == "" || rest[0] == '.')
    ensures StringLe(Counter(m) + rest, Counter(n) + rest) <==> StringLe(Print(m), Print(n))
  {
    SameBeginning("-", Print(m) + rest, Print(n) + rest);
    HyphenFirst(Print(m), rest);
    HyphenFirst(Print(n), rest);
    PrintedAreDigits(m);
    PrintedAreDigits(n);
    if Print(m) == Print(n) {
      PrintInjective(m, n);
    }
    DigitsThenRest(Print(m), Print(n), rest);
  }

  lemma HyphenFirst(digits: string, rest: string)
    ensures "-" + digits + rest == "-" + (digits + rest)
  {
  }

  lemma PrintedAreDigits(n: nat)
    ensures forall i | 0 <= i < |Print(n)| :: '0' <= Print(n)[i] <= '9'
  {
    PrintedDigits(n);
    assert forall i | 0 <= i < |Print(n)| :: Print(n)[i] in Print(n);
  }

  lemma {:induction false} DigitsThenRest(a: string, b: string, rest: string)
    requires (forall i | 0 <= i < |a| :: '0' <= a[i] <= '9') && (forall i | 0 <= i < |b| :: '0' <= b[i] <= '9') && a != b
    requires rest == "" || rest[0] == '.'
    ensures StringLe(a + rest, b + rest) <==> StringLe(a, b)
  {
    if a == "" {
      assert a + rest == rest && (b + rest)[0] == b[0];
    } else if b == "" {
      assert b + rest == rest && (a + rest)[0] == a[0];
    } else if a[0] == b[0] {
      assert a == [a[0]] + a[1..] && b == [b[0]] + b[1..];
      DigitsThenRest(a[1..], b[1..], rest);
      assert (a + rest)[1..] == a[1..] + rest && (b + rest)[1..] == b[1..] + rest;
    }
  }

  lemma {:induction false} TenthSortsBeforeNinth(name: string, ninth: nat, secs: nat)
    requires ninth == 9
    ensures !StringLe(RenamedAt(name, ninth, secs), RenamedAt(name, ninth + 1, secs))
  {
    LaterRenamesSortAsText(name, ninth, ninth + 1, secs);
    assert Print(ninth) == ['9'] && Print(1) == ['1'] && Print(ninth + 1)[0] == '1';
  }

  /** A file, its second and the name it gets. */
  lemma {:induction false} KnownRename(name: string, secs: nat)
    requires name == "foo.md" && secs == 1_700_000_000
    ensures RenamedAt(name, 1, secs) == "foo-20231114T221320Z.md"
  {
    KnownFields(secs);
    BasicStampIsSpelled(secs);
    KnownBasicStamp(StampOf(secs));
    LastOf("foo", '.', "md");
    assert name == "foo" + ['.'] + "md" && name[..3] == "foo" && name[4..] == "md";
    KnownParts(BasicStamp(secs));
  }

  lemma KnownBasicStamp(t: Stamp)
    requires t == Stamp(Date(2023, 11, 14), 22, 13, 20)
    ensures DayText(t.date) + ("T" + (ClockText(t) + "Z")) == "20231114T221320Z"
  {
  }

  lemma KnownParts(stamp: string)
    requires stamp == "20231114T221320Z"
    ensures "foo" + ("-" + stamp) + ("." + "md") == "foo-20231114T221320Z.md"
  {
  }
}
