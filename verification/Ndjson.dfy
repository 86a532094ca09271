/** The NDJSON printer of completion candidates (src/sacs/render.rs) and a decoder to read it back. */
module Ndjson {
  import opened Basics
  import opened Text
  import opened Decimal
  import opened Sorting

  datatype Kind = Verb | Atomic | FileLocal | DirLocal | FileRemote | DirRemote | Help | Footer

  datatype Candidate = Candidate(value: string, display: string, description: string, kind: Kind, rank: nat)

  function KindName(k: Kind): string
  {
    match k
    case Verb => "verb"
    case Atomic => "atomic"
    case FileLocal => "file_local"
    case DirLocal => "dir_local"
    case FileRemote => "file_remote"
    case DirRemote => "dir_remote"
    case Help => "help"
    case Footer => "footer"
  }

  predicate CandidateLe(a: Candidate, b: Candidate)
  {
    a.rank < b.rank || (a.rank == b.rank && StringLe(a.value, b.value))
  }

  // ----- printing -----

  function HexDigit(d: nat): char
    requires d < 16
  {
    "0123456789abcdef"[d]
  }

  function Hex4(n: nat): string
    requires n < 0x10000
  {
    [HexDigit(n / 4096), HexDigit((n / 256) % 16), HexDigit((n / 16) % 16), HexDigit(n % 16)]
  }

  function EscapeChar(c: char): (e: string)
    ensures e != ""
  {
    if c == '"' then "\\\""
    else if c == '\\' then "\\\\"
    else if c == '\n' then "\\n"
    else if c == '\r' then "\\r"
    else if c == '\t' then "\\t"
    else if c as int < 0x20 || c as int == 0x7F then "\\u" + Hex4(c as int)
    else [c]
  }

  /** `f` of every character, one after the other. */
  function ConcatMap(f: char -> string, s: string): string
  {
    if s == "" then "" else ConcatMap(f, s[..|s| - 1]) + f(s[|s| - 1])
  }

  function Escape(s: string): string { ConcatMap(c => EscapeChar(c), s) }

  /** The fixed text around the parts of a record; every member starts with its key and ends with the quote. */
  datatype Syntax = Syntax(open: string, comma: string, quote: string, value: string, display: string,
                           description: string, kind: string, rank: string, close: string)

  const SYNTAX := Syntax("{", ", ", "\"", "\"value\": \"", "\"display\": \"", "\"description\": \"",
                         "\"kind\": \"", "\"rank\": ", "}")

  function Member(x: Syntax, key: string, text: string): string { key + text + x.quote }

  function Shape(x: Syntax, value: string, display: string, description: string, kind: string, rank: string): string
  {
    x.open + Member(x, x.value, value) + x.comma + Member(x, x.display, display) + x.comma +
    Member(x, x.description, description) + x.comma + Member(x, x.kind, kind) + x.comma + x.rank + rank + x.close
  }

  function Record(c: Candidate): string
  {
    Shape(SYNTAX, Escape(c.value), Escape(c.display), Escape(c.description), KindName(c.kind), Print(c.rank))
  }

  /** One line for each candidate. */
  function Lines(f: Candidate -> string, cs: seq<Candidate>): string
  {
    if cs == [] then "" else Lines(f, cs[..|cs| - 1]) + f(cs[|cs| - 1]) + ['\n']
  }

  function Rendered(cs: seq<Candidate>): string { Lines(c => Record(c), cs) }

  method EscapeOne(buf: string, c: char) returns (out: string)
    ensures out == buf + EscapeChar(c)
  {
    if c == '"' {
      out := buf + "\\\"";
    } else if c == '\\' {
      out := buf + "\\\\";
    } else if c == '\n' {
      out := buf + "\\n";
    } else if c == '\r' {
      out := buf + "\\r";
    } else if c == '\t' {
      out := buf + "\\t";
    } else if c as int < 0x20 || c as int == 0x7F {
      out := buf + ("\\u" + Hex4(c as int));
    } else {
      out := buf + [c];
    }
  }

  lemma ConcatMapNext(f: char -> string, s: string, i: nat, buf: string)
    requires i < |s|
    ensures buf + ConcatMap(f, s[..i + 1]) == buf + ConcatMap(f, s[..i]) + f(s[i])
  {
    assert s[..i + 1][..i] == s[..i];
  }

  method EscapeInto(buf: string, s: string) returns (out: string)
    ensures out == buf + Escape(s)
  {
    out := buf;
    for i := 0 to |s|
      invariant out == buf + Escape(s[..i])
    {
      ConcatMapNext(c => EscapeChar(c), s, i, buf);
      out := EscapeOne(out, s[i]);
    }
    assert s[..|s|] == s;
  }

  method WriteKeyValue(buf: string, key: string, value: string) returns (out: string)
    ensures out == buf + Member(SYNTAX, key, Escape(value))
  {
    out := buf + key;
    out := EscapeInto(out, value);
    out := out + SYNTAX.quote;
  }

  method EmitOne(buf: string, c: Candidate) returns (out: string)
    ensures out == buf + Record(c)
  {
    var x := SYNTAX;
    out := buf + x.open;
    out := WriteKeyValue(out, x.value, c.value);
    out := out + x.comma;
    out := WriteKeyValue(out, x.display, c.display);
    out := out + x.comma;
    out := WriteKeyValue(out, x.description, c.description);
    out := out + x.comma;
    out := out + x.kind + KindName(c.kind) + x.quote + x.comma;
    out := out + x.rank + Print(c.rank) + x.close;
    ShapeAppends(x, buf, Escape(c.value), Escape(c.display), Escape(c.description), KindName(c.kind), Print(c.rank));
  }

  lemma ShapeAppends(x: Syntax, buf: string, v: string, d: string, e: string, k: string, r: string)
    ensures buf + x.open + Member(x, x.value, v) + x.comma + Member(x, x.display, d) + x.comma
            + Member(x, x.description, e) + x.comma + (x.kind + k + x.quote + x.comma) + (x.rank + r + x.close)
            == buf + Shape(x, v, d, e, k, r)
  {
  }

  method Render(candidates: seq<Candidate>) returns (buf: string)
    ensures buf == Rendered(Sort(candidates, CandidateLe))
  {
    var cs := Sort(candidates, CandidateLe);
    buf := "";
    for i := 0 to |cs|
      invariant buf == Rendered(cs[..i])
    {
      LinesNext(c => Record(c), cs, i);
      buf := EmitOne(buf, cs[i]);
      buf := buf + ['\n'];
    }
    assert cs[..|cs|] == cs;
  }

  lemma LinesNext(f: Candidate -> string, cs: seq<Candidate>, i: nat)
    requires i < |cs|
    ensures Lines(f, cs[..i + 1]) == Lines(f, cs[..i]) + f(cs[i]) + ['\n']
  {
    assert cs[..i + 1][..i] == cs[..i];
  }

  // ----- a decoder of JSON strings (RFC 8259, section 7) -----

  function HexValue(c: char): Option<nat>
  {
    if '0' <= c <= '9' then Some(c as int - '0' as int)
    else if 'a' <= c <= 'f' then Some(c as int - 'a' as int + 10)
    else if 'A' <= c <= 'F' then Some(c as int - 'A' as int + 10)
    else None
  }

  /** The four hexadecimal digits at the start of `s`. */
  function ReadHex4(s: string): (r: Option<nat>)
    ensures r.Some? ==> r.value < 0x10000 && |s| >= 4
  {
    if |s| < 4 then None
    else
      var a :- HexValue(s[0]);
      var b :- HexValue(s[1]);
      var c :- HexValue(s[2]);
      var d :- HexValue(s[3]);
      Some(a * 4096 + b * 256 + c * 16 + d)
  }

  /** What an escape sequence stands for, and how long it is; a high surrogate needs its low half. */
  function ReadEscape(s: string): (r: Option<(char, nat)>)
    requires s != "" && s[0] == '\\'
    ensures r.Some? ==> 2 <= r.value.1 <= |s|
  {
    if |s| < 2 then None
    else
      match s[1]
      case '"' => Some(('"', 2))
      case '\\' => Some(('\\', 2))
      case '/' => Some(('/', 2))
      case 'b' => Some((8 as char, 2))
      case 'f' => Some((12 as char, 2))
      case 'n' => Some(('\n', 2))
      case 'r' => Some(('\r', 2))
      case 't' => Some(('\t', 2))
      case 'u' =>
        var n :- ReadHex4(s[2..]);
        if n < 0xD800 || n >= 0xE000 then Some((n as char, 6))
        else if n >= 0xDC00 || |s| < 12 || s[6] != '\\' || s[7] != 'u' then None
        else
          var low :- ReadHex4(s[8..]);
          if 0xDC00 <= low < 0xE000 then Some(((0x10000 + (n - 0xD800) * 1024 + (low - 0xDC00)) as char, 12)) else None
      case _ => None
  }

  /** Reads up to the closing quote; returns the decoded text and what follows. Raw control characters are refused. */
  function ReadString(s: string): Option<(string, string)>
    decreases |s|
  {
    if s == "" then None
    else if s[0] == '"' then Some(("", s[1..]))
    else if s[0] == '\\' then
      var e :- ReadEscape(s);
      var rest :- ReadString(s[e.1..]);
      Some(([e.0] + rest.0, rest.1))
    else if s[0] as int < 0x20 then None
    else
      var rest :- ReadString(s[1..]);
      Some(([s[0]] + rest.0, rest.1))
  }

  function Expect(s: string, literal: string): Option<string>
  {
    if literal <= s then Some(s[|literal|..]) else None
  }

  const KINDS: seq<Kind> := [Verb, Atomic, FileLocal, DirLocal, FileRemote, DirRemote, Help, Footer]

  function KindNamed(name: string, kinds: seq<Kind>): Option<Kind>
  {
    if kinds == [] then None
    else if KindName(kinds[0]) == name then Some(kinds[0])
    else KindNamed(name, kinds[1..])
  }

  type TextReader = string -> Option<(string, string)>

  function ReadMember(read: TextReader, s: string, key: string): Option<(string, string)>
  {
    var body :- Expect(s, key);
    read(body)
  }

  datatype Parts = Parts(value: string, display: string, description: string, kind: string, rank: string)

  /** A member and the comma after it. */
  function ReadField(read: TextReader, x: Syntax, s: string, key: string): Option<(string, string)>
  {
    var text :- ReadMember(read, s, key);
    var rest :- Expect(text.1, x.comma);
    Some((text.0, rest))
  }

  function ReadShape(read: TextReader, x: Syntax, line: string): Option<Parts>
  {
    var s0 :- Expect(line, x.open);
    var value :- ReadField(read, x, s0, x.value);
    var display :- ReadField(read, x, value.1, x.display);
    var description :- ReadField(read, x, display.1, x.description);
    var kind :- ReadField(read, x, description.1, x.kind);
    var end :- Expect(kind.1, x.rank);
    if |end| < |x.close| || end[|end| - |x.close|..] != x.close then None
    else Some(Parts(value.0, display.0, description.0, kind.0, end[..|end| - |x.close|]))
  }

  function ReadRecord(line: string): Option<Candidate>
  {
    var parts :- ReadShape(s => ReadString(s), SYNTAX, line);
    var kind :- KindNamed(parts.kind, KINDS);
    var rank :- Parse(parts.rank);
    Some(Candidate(parts.value, parts.display, parts.description, kind, rank))
  }

  /** One record per line; a last line without text closes the output. */
  function ReadLines(read: string -> Option<Candidate>, lines: seq<string>): Option<seq<Candidate>>
  {
    if lines == [] then None
    else if lines == [""] then Some([])
    else
      var c :- read(lines[0]);
      var rest :- ReadLines(read, lines[1..]);
      Some([c] + rest)
  }

  // ----- the round trip -----

  lemma HexDigitValue(d: nat)
    requires d < 16
    ensures HexValue(HexDigit(d)) == Some(d)
  {
  }

  lemma HexSum(n: nat)
    ensures n == (n / 4096) * 4096 + ((n / 256) % 16) * 256 + ((n / 16) % 16) * 16 + n % 16
  {
    var a, b, c := n / 16, n / 256, n / 4096;
    assert n == a * 16 + n % 16;
    assert a / 16 == b && b / 16 == c;
    assert a == b * 16 + a % 16;
    assert b == c * 16 + b % 16;
  }

  lemma ReadHexOfDigits(a: nat, b: nat, c: nat, d: nat, tail: string)
    requires a < 16 && b < 16 && c < 16 && d < 16
    ensures ReadHex4([HexDigit(a), HexDigit(b), HexDigit(c), HexDigit(d)] + tail) ==
            Some(a * 4096 + b * 256 + c * 16 + d)
  {
    HexDigitValue(a);
    HexDigitValue(b);
    HexDigitValue(c);
    HexDigitValue(d);
  }

  lemma ReadHexOfHex(n: nat, tail: string)
    requires n < 0x10000
    ensures ReadHex4(Hex4(n) + tail) == Some(n)
  {
    ReadHexOfDigits(n / 4096, (n / 256) % 16, (n / 16) % 16, n % 16, tail);
    HexSum(n);
  }

  /** What reading `tail` gives, with `s` put before it. */
  function Before(s: string, r: Option<(string, string)>): Option<(string, string)>
  {
    if r.None? then None else Some((s + r.value.0, r.value.1))
  }

  lemma {:induction false} ReadTwo(k: char, c: char, tail: string)
    requires ReadEscape(['\\', k] + tail) == Some((c, 2))
    ensures ReadString(['\\', k] + tail) == Before([c], ReadString(tail))
  {
    assert (['\\', k] + tail)[2..] == tail;
  }

  lemma {:induction false} ReadSix(n: nat, tail: string)
    requires n < 0x80
    ensures ReadString(['\\', 'u'] + Hex4(n) + tail) == Before([n as char], ReadString(tail))
  {
    var s := ['\\', 'u'] + Hex4(n) + tail;
    assert s[2..] == Hex4(n) + tail && s[6..] == tail;
    ReadHexOfHex(n, tail);
  }

  lemma {:induction false} ReadEscapedChar(c: char, tail: string)
    ensures ReadString(EscapeChar(c) + tail) == Before([c], ReadString(tail))
  {
    if c == '"' {
      ReadTwo('"', c, tail);
    } else if c == '\\' {
      ReadTwo('\\', c, tail);
    } else if c == '\n' {
      ReadTwo('n', c, tail);
    } else if c == '\r' {
      ReadTwo('r', c, tail);
    } else if c == '\t' {
      ReadTwo('t', c, tail);
    } else if c as int < 0x20 || c as int == 0x7F {
      ReadSix(c as int, tail);
      assert "\\u" == ['\\', 'u'];
    } else {
      assert ([c] + tail)[1..] == tail;
    }
  }

  lemma {:induction false} ReadMapped(read: TextReader, f: char -> string, s: string, tail: string)
    requires forall c, t :: read(f(c) + t) == Before([c], read(t))
    ensures read(ConcatMap(f, s) + tail) == Before(s, read(tail))
    decreases |s|
  {
    if s == "" {
      assert "" + tail == tail;
      assert read(tail).Some? ==> "" + read(tail).value.0 == read(tail).value.0;
    } else {
      var n := |s| - 1;
      var inner := f(s[n]) + tail;
      ReadMapped(read, f, s[..n], inner);
      assert ConcatMap(f, s) + tail == ConcatMap(f, s[..n]) + inner;
      assert s[..n] + [s[n]] == s;
      if read(tail).Some? {
        var text := read(tail).value.0;
        assert s[..n] + ([s[n]] + text) == s + text;
      }
    }
  }

  /** Written text followed by the quote reads back, whatever comes after. */
  ghost predicate ReadsBack(read: TextReader, x: Syntax, written: string, text: string)
  {
    forall tail :: read(written + (x.quote + tail)) == Some((text, tail))
  }

  lemma QuoteCloses(tail: string)
    ensures ReadString("\"" + tail) == Some(("", tail))
  {
    assert ("\"" + tail)[1..] == tail;
  }

  lemma {:induction false} EscapedReadsBack(s: string)
    ensures ReadsBack(t => ReadString(t), SYNTAX, Escape(s), s)
  {
    var f := (c: char) => EscapeChar(c);
    forall c, t ensures ReadString(f(c) + t) == Before([c], ReadString(t)) {
      ReadEscapedChar(c, t);
    }
    forall tail ensures ReadString(Escape(s) + (SYNTAX.quote + tail)) == Some((s, tail)) {
      ReadMapped(t => ReadString(t), f, s, SYNTAX.quote + tail);
      QuoteCloses(tail);
      assert s + "" == s;
    }
  }

  predicate PlainChar(c: char) { 'a' <= c <= 'z' || c == '_' }

  lemma {:induction false} PlainReadsBack(s: string)
    requires forall i | 0 <= i < |s| :: PlainChar(s[i])
    ensures ReadsBack(t => ReadString(t), SYNTAX, s, s)
  {
    forall tail ensures ReadString(s + (SYNTAX.quote + tail)) == Some((s, tail)) {
      QuoteCloses(tail);
      PlainReads(s, SYNTAX.quote + tail);
      assert s + "" == s;
    }
  }

  lemma {:induction false} PlainReads(s: string, tail: string)
    requires forall i | 0 <= i < |s| :: PlainChar(s[i])
    ensures ReadString(s + tail) == Before(s, ReadString(tail))
    decreases |s|
  {
    if s == "" {
      assert s + tail == tail;
      assert ReadString(tail).Some? ==> "" + ReadString(tail).value.0 == ReadString(tail).value.0;
    } else {
      PlainReads(s[1..], tail);
      assert PlainChar(s[0]) && (s + tail)[0] == s[0] && (s + tail)[1..] == s[1..] + tail;
      if ReadString(tail).Some? {
        assert [s[0]] + (s[1..] + ReadString(tail).value.0) == s + ReadString(tail).value.0;
      }
    }
  }

  lemma KindNameIsPlain(k: Kind)
    ensures forall i | 0 <= i < |KindName(k)| :: PlainChar(KindName(k)[i])
  {
  }

  lemma KindNamesDiffer(a: Kind, b: Kind)
    requires a != b
    ensures KindName(a) != KindName(b)
  {
    var x, y := KindName(a), KindName(b);
    assert |x| != |y| || x[0] != y[0];
  }

  lemma {:induction false} KindIsFound(k: Kind, kinds: seq<Kind>)
    requires k in kinds
    ensures KindNamed(KindName(k), kinds) == Some(k)
  {
    if kinds[0] != k {
      KindNamesDiffer(kinds[0], k);
      KindIsFound(k, kinds[1..]);
    }
  }

  lemma ExpectWritten(literal: string, tail: string)
    ensures Expect(literal + tail, literal) == Some(tail)
  {
    assert (literal + tail)[|literal|..] == tail;
  }

  lemma {:induction false} ReadWrittenMember(read: TextReader, x: Syntax, key: string, written: string, text: string, tail: string)
    requires ReadsBack(read, x, written, text)
    ensures ReadMember(read, Member(x, key, written) + tail, key) == Some((text, tail))
  {
    var body := written + (x.quote + tail);
    assert Member(x, key, written) + tail == key + body;
    ExpectWritten(key, body);
  }

  lemma {:induction false} ReadWrittenField(read: TextReader, x: Syntax, key: string, written: string, text: string,
                                            tail: string)
    requires ReadsBack(read, x, written, text)
    ensures ReadField(read, x, Member(x, key, written) + (x.comma + tail), key) == Some((text, tail))
  {
    ReadWrittenMember(read, x, key, written, text, x.comma + tail);
    ExpectWritten(x.comma, tail);
  }

  lemma ShapeNests(x: Syntax, v: string, d: string, e: string, k: string, r: string)
    ensures Shape(x, v, d, e, k, r) ==
            x.open + (Member(x, x.value, v) + (x.comma + (Member(x, x.display, d) + (x.comma +
            (Member(x, x.description, e) + (x.comma + (Member(x, x.kind, k) + (x.comma + (x.rank + (r + x.close))))))))))
  {
  }

  /** Reading a record of any syntax gives back the texts that were written into it. */
  lemma {:induction false} ReadWrittenShape(read: TextReader, x: Syntax, v: string, d: string, e: string, k: string,
                                            p: Parts)
    requires ReadsBack(read, x, v, p.value) && ReadsBack(read, x, d, p.display)
    requires ReadsBack(read, x, e, p.description) && ReadsBack(read, x, k, p.kind)
    ensures ReadShape(read, x, Shape(x, v, d, e, k, p.rank)) == Some(p)
  {
    var end := p.rank + x.close;
    var s4 := x.rank + end;
    var s3 := Member(x, x.kind, k) + (x.comma + s4);
    var s2 := Member(x, x.description, e) + (x.comma + s3);
    var s1 := Member(x, x.display, d) + (x.comma + s2);
    var s0 := Member(x, x.value, v) + (x.comma + s1);
    ShapeNests(x, v, d, e, k, p.rank);
    ExpectWritten(x.open, s0);
    ReadWrittenField(read, x, x.value, v, p.value, s1);
    ReadWrittenField(read, x, x.display, d, p.display, s2);
    ReadWrittenField(read, x, x.description, e, p.description, s3);
    ReadWrittenField(read, x, x.kind, k, p.kind, s4);
    ExpectWritten(x.rank, end);
    assert end[|end| - |x.close|..] == x.close && end[..|end| - |x.close|] == p.rank;
  }

  lemma {:induction false} ReadWrittenRecord(c: Candidate)
    ensures ReadRecord(Record(c)) == Some(c)
  {
    EscapedReadsBack(c.value);
    EscapedReadsBack(c.display);
    EscapedReadsBack(c.description);
    KindNameIsPlain(c.kind);
    PlainReadsBack(KindName(c.kind));
    KindIsFound(c.kind, KINDS);
    ParsePrint(c.rank);
    ReadWrittenShape(t => ReadString(t), SYNTAX, Escape(c.value), Escape(c.display), Escape(c.description),
                     KindName(c.kind), Parts(c.value, c.display, c.description, KindName(c.kind), Print(c.rank)));
  }

  predicate StandsForItself(c: char) { c != '"' && c != '\\' && c as int >= 0x20 && c as int != 0x7F }

  /** Text without quotes, backslashes and ASCII control characters is written as it is. */
  lemma {:induction false} PlainTextStands(s: string)
    requires forall i | 0 <= i < |s| :: StandsForItself(s[i])
    ensures Escape(s) == s
    decreases |s|
  {
    if s != "" {
      var n := |s| - 1;
      PlainTextStands(s[..n]);
      assert StandsForItself(s[n]) && s == s[..n] + [s[n]];
    }
  }

  /** The line of a candidate, spelled out: its five members in this order, the texts escaped. */
  lemma {:induction false} RecordIsSpelled(c: Candidate, kind: string)
    requires match c.kind
             case Verb => kind == "verb"
             case Atomic => kind == "atomic"
             case FileLocal => kind == "file_local"
             case DirLocal => kind == "dir_local"
             case FileRemote => kind == "file_remote"
             case DirRemote => kind == "dir_remote"
             case Help => kind == "help"
             case Footer => kind == "footer"
    ensures Record(c) ==
            "{\"value\": \"" + Escape(c.value) + "\", \"display\": \"" + Escape(c.display) +
            "\", \"description\": \"" + Escape(c.description) + "\", \"kind\": \"" + kind +
            "\", \"rank\": " + Print(c.rank) + "}"
  {
    var x := SYNTAX;
    assert kind == KindName(c.kind);
    PiecesAreSpelled();
    LaterPiecesAreSpelled();
    ShapeRegrouped(x, Escape(c.value), Escape(c.display), Escape(c.description), kind, Print(c.rank));
  }

  lemma PiecesAreSpelled()
    ensures SYNTAX.open + SYNTAX.value == "{\"value\": \""
    ensures SYNTAX.quote + SYNTAX.comma + SYNTAX.display == "\", \"display\": \""
  {
  }

  lemma LaterPiecesAreSpelled()
    ensures SYNTAX.quote + SYNTAX.comma + SYNTAX.description == "\", \"description\": \""
    ensures SYNTAX.quote + SYNTAX.comma + SYNTAX.kind == "\", \"kind\": \""
    ensures SYNTAX.quote + SYNTAX.comma + SYNTAX.rank == "\", \"rank\": "
    ensures SYNTAX.close == "}"
  {
  }

  lemma ShapeRegrouped(x: Syntax, v: string, d: string, e: string, k: string, r: string)
    ensures Shape(x, v, d, e, k, r) ==
            (x.open + x.value) + v + (x.quote + x.comma + x.display) + d + (x.quote + x.comma + x.description) + e +
            (x.quote + x.comma + x.kind) + k + (x.quote + x.comma + x.rank) + r + x.close
  {
  }

  predicate Printable(s: string) { forall i | 0 <= i < |s| :: s[i] as int >= 0x20 && s[i] as int != 0x7F }

  lemma {:induction false} MappedIsPrintable(f: char -> string, s: string)
    requires forall c :: Printable(f(c))
    ensures Printable(ConcatMap(f, s))
    decreases |s|
  {
    if s != "" {
      MappedIsPrintable(f, s[..|s| - 1]);
      assert Printable(f(s[|s| - 1]));
    }
  }

  lemma {:induction false} EscapedIsPrintable(s: string)
    ensures Printable(Escape(s))
  {
    MappedIsPrintable(c => EscapeChar(c), s);
  }

  predicate PrintableSyntax(x: Syntax)
  {
    && Printable(x.open) && Printable(x.comma) && Printable(x.quote) && Printable(x.value) && Printable(x.display)
    && Printable(x.description) && Printable(x.kind) && Printable(x.rank) && Printable(x.close)
  }

  lemma PrintableAppend(a: string, b: string)
    requires Printable(a) && Printable(b)
    ensures Printable(a + b)
  {
  }

  lemma {:induction false} MemberIsPrintable(x: Syntax, key: string, text: string)
    requires PrintableSyntax(x) && Printable(key) && Printable(text)
    ensures Printable(Member(x, key, text))
  {
  }

  lemma {:induction false} ShapeIsPrintable(x: Syntax, v: string, d: string, e: string, k: string, r: string)
    requires PrintableSyntax(x) && x.open != ""
    requires Printable(v) && Printable(d) && Printable(e) && Printable(k) && Printable(r)
    ensures Printable(Shape(x, v, d, e, k, r)) && Shape(x, v, d, e, k, r) != ""
  {
    MemberIsPrintable(x, x.value, v);
    MemberIsPrintable(x, x.display, d);
    MemberIsPrintable(x, x.description, e);
    MemberIsPrintable(x, x.kind, k);
    var s0 := x.open + Member(x, x.value, v);
    PrintableAppend(x.open, Member(x, x.value, v));
    var s1 := s0 + x.comma + Member(x, x.display, d);
    PrintableAppend(s0, x.comma);
    PrintableAppend(s0 + x.comma, Member(x, x.display, d));
    var s2 := s1 + x.comma + Member(x, x.description, e);
    PrintableAppend(s1, x.comma);
    PrintableAppend(s1 + x.comma, Member(x, x.description, e));
    var s3 := s2 + x.comma + Member(x, x.kind, k);
    PrintableAppend(s2, x.comma);
    PrintableAppend(s2 + x.comma, Member(x, x.kind, k));
    PrintableAppend(s3, x.comma);
    PrintableAppend(s3 + x.comma, x.rank);
    PrintableAppend(s3 + x.comma + x.rank, r);
    PrintableAppend(s3 + x.comma + x.rank + r, x.close);
  }

  /** No record contains a raw control character, so none spans two lines. */
  lemma {:induction false} RecordIsPrintable(c: Candidate)
    ensures Printable(Record(c)) && Record(c) != ""
  {
    EscapedIsPrintable(c.value);
    EscapedIsPrintable(c.display);
    EscapedIsPrintable(c.description);
    PrintedDigits(c.rank);
    assert forall i | 0 <= i < |Print(c.rank)| :: Print(c.rank)[i] in Print(c.rank);
    KindNameIsPlain(c.kind);
    SyntaxIsPrintable();
    ShapeIsPrintable(SYNTAX, Escape(c.value), Escape(c.display), Escape(c.description), KindName(c.kind), Print(c.rank));
  }

  lemma SyntaxIsPrintable()
    ensures PrintableSyntax(SYNTAX) && SYNTAX.open != ""
  {
    KeysArePrintable();
  }

  lemma KeysArePrintable()
    ensures Printable(SYNTAX.value) && Printable(SYNTAX.display) && Printable(SYNTAX.description)
  {
  }

  lemma {:induction false} SplitLines(f: Candidate -> string, cs: seq<Candidate>, tail: string)
    requires forall c :: Free(f(c), '\n')
    ensures Split(Lines(f, cs) + tail, '\n') == Map(f, cs) + Split(tail, '\n')
    decreases |cs|
  {
    if cs == [] {
      assert Lines(f, cs) + tail == tail;
    } else {
      var n := |cs| - 1;
      var line := f(cs[n]);
      SplitPiece(line, tail, '\n');
      SplitLines(f, cs[..n], line + ['\n'] + tail);
      LinesLast(f, cs, tail);
      MapLast(f, cs, Split(tail, '\n'));
    }
  }

  lemma MapLast(f: Candidate -> string, cs: seq<Candidate>, more: seq<string>)
    requires cs != []
    ensures Map(f, cs) + more == Map(f, cs[..|cs| - 1]) + ([f(cs[|cs| - 1])] + more)
  {
    var init, last := cs[..|cs| - 1], cs[|cs| - 1];
    assert cs == init + [last];
    MapAppend(f, init, last);
    Associate(Map(f, init), [f(last)], more);
  }

  lemma Associate(a: seq<string>, b: seq<string>, c: seq<string>)
    ensures (a + b) + c == a + (b + c)
  {
  }

  lemma LinesLast(f: Candidate -> string, cs: seq<Candidate>, tail: string)
    requires cs != []
    ensures Lines(f, cs) + tail == Lines(f, cs[..|cs| - 1]) + (f(cs[|cs| - 1]) + ['\n'] + tail)
  {
    Regroup(Lines(f, cs[..|cs| - 1]), f(cs[|cs| - 1]), ['\n'], tail);
  }

  lemma Regroup(a: string, b: string, c: string, d: string)
    ensures (a + b + c) + d == a + (b + c + d)
  {
  }

  lemma {:induction false} ReadWrittenLines(f: Candidate -> string, read: string -> Option<Candidate>,
                                            cs: seq<Candidate>)
    requires forall c :: f(c) != "" && read(f(c)) == Some(c)
    ensures ReadLines(read, Map(f, cs) + [""]) == Some(cs)
  {
    var lines := Map(f, cs) + [""];
    if cs == [] {
      assert lines == [""];
    } else {
      ReadWrittenLines(f, read, cs[1..]);
      assert lines[0] == f(cs[0]) && lines[1..] == Map(f, cs[1..]) + [""];
      assert lines != [""] && cs == [cs[0]] + cs[1..];
    }
  }

  lemma {:induction false} CandidateOrder()
    ensures TotalPreorder(CandidateLe)
  {
    StringOrder();
  }

  lemma PrintableIsOneLine(s: string)
    requires Printable(s)
    ensures Free(s, '\n')
  {
  }

  lemma {:induction false} RenderedLines(cs: seq<Candidate>)
    ensures ReadLines(s => ReadRecord(s), Split(Rendered(cs), '\n')) == Some(cs)
    ensures |Split(Rendered(cs), '\n')| == |cs| + 1
  {
    var f := (c: Candidate) => Record(c);
    var read := (s: string) => ReadRecord(s);
    forall c ensures Free(f(c), '\n') && f(c) != "" && read(f(c)) == Some(c) {
      RecordIsPrintable(c);
      PrintableIsOneLine(Record(c));
      ReadWrittenRecord(c);
    }
    SplitLines(f, cs, "");
    ReadWrittenLines(f, read, cs);
    assert Lines(f, cs) + "" == Lines(f, cs);
    assert Split("", '\n') == [""];
  }

  /**
   The round trip: reading the rendered text line by line gives back the candidates, as many lines as candidates, all of
   them once, sorted by rank and then value, ties in the order they came in.
   */
  lemma {:induction false} RenderRoundTrip(cs: seq<Candidate>, a: Candidate)
    ensures var sorted := Sort(cs, CandidateLe);
            var lines := Split(Rendered(sorted), '\n');
            && ReadLines(s => ReadRecord(s), lines) == Some(sorted) && |lines| == |cs| + 1
            && multiset(sorted) == multiset(cs)
            && (forall i, j | 0 <= i < j < |sorted| ::
                  || sorted[i].rank < sorted[j].rank
                  || (sorted[i].rank == sorted[j].rank && StringLe(sorted[i].value, sorted[j].value)))
            && Ties(a, sorted, CandidateLe) == Ties(a, cs, CandidateLe)
  {
    CandidateOrder();
    SortPermutes(cs, CandidateLe);
    SortSorts(cs, CandidateLe);
    SortIsStable(a, cs, CandidateLe);
    RenderedLines(Sort(cs, CandidateLe));
  }
}
