/** The plaintext sidecar files that remember the last default profile (core/src/sidecars.rs). */
module Sidecars {
  import opened Basics
  import opened Text
  import opened Utf8

  const MAX_SIDECAR_BYTES := 256
  const MAX_ALIAS_LEN := 64
  const MAX_EMAIL_LEN := 254

  datatype RemoteDefault = RemoteDefault(email: string, alias: Option<string>)

  datatype ReadError = NotFound | Invalid | Io

  /** What reading the path yields. */
  datatype FileState = Missing | Unreadable | Bytes(bytes: seq<byte>)

  predicate HasDoubleDot(s: string) { exists i | 0 <= i < |s| - 1 :: s[i] == '.' && s[i + 1] == '.' }

  predicate IsAsciiGraphic(c: char) { '!' <= c <= '~' }

  predicate ValidateAlias(s: string)
  {
    && s != "" && |Encode(s)| <= MAX_ALIAS_LEN
    && s != "." && !HasDoubleDot(s)
    && '/' !in s && '\0' !in s && '\\' !in s
    && forall c | c in s :: IsAsciiGraphic(c) || c == ' '
  }

  predicate ValidateEmail(s: string)
  {
    && s != "" && |Encode(s)| <= MAX_EMAIL_LEN
    && '@' in s
    && forall c | c in s :: !IsWhitespace(c) && !IsControl(c) && c != '\0'
  }

  predicate ForbiddenByte(b: byte) { b != 10 && (b < 0x20 || b == 0x7F) }

  function Capped(f: FileState): Result<string, ReadError>
  {
    match f
    case Missing => Err(NotFound)
    case Unreadable => Err(Io)
    case Bytes(bytes) =>
      if |bytes| > MAX_SIDECAR_BYTES || exists i | 0 <= i < |bytes| :: ForbiddenByte(bytes[i]) then Err(Invalid)
      else match Decode(bytes) case Some(s) => Ok(s) case None => Err(Invalid)
  }

  function Piece(pieces: seq<string>, i: nat): string { if i < |pieces| then pieces[i] else "" }

  function ParseLocal(f: FileState): Result<string, ReadError>
  {
    match Capped(f)
    case Err(e) => Err(e)
    case Ok(raw) =>
      var lines := Split(raw, '\n');
      if Piece(lines, 1) != "" || |lines| > 2 then Err(Invalid)
      else if !ValidateAlias(lines[0]) then Err(Invalid)
      else Ok(lines[0])
  }

  function ParseRemote(f: FileState): Result<RemoteDefault, ReadError>
  {
    match Capped(f)
    case Err(e) => Err(e)
    case Ok(raw) =>
      var lines := Split(raw, '\n');
      var alias := Piece(lines, 1);
      if Piece(lines, 2) != "" || |lines| > 3 then Err(Invalid)
      else if !ValidateEmail(lines[0]) then Err(Invalid)
      else if alias == "" then Ok(RemoteDefault(lines[0], None))
      else if ValidateAlias(alias) then Ok(RemoteDefault(lines[0], Some(alias)))
      else Err(Invalid)
  }

  function LocalBody(alias: string): string { alias + "\n" }

  function RemoteBody(email: string, alias: Option<string>): string
  {
    if alias.Some? then email + "\n" + alias.value + "\n" else email + "\n"
  }

  // ----- what is written reads back -----

  predicate PlainText(s: string) { forall c | c in s :: c == '\n' || (!IsControl(c)) }

  lemma {:induction false} PlainTextHasNoForbiddenByte(s: string)
    requires PlainText(s)
    ensures forall i | 0 <= i < |Encode(s)| :: !ForbiddenByte(Encode(s)[i])
  {
    if s != "" {
      assert s[0] in s;
      PlainTextHasNoForbiddenByte(s[1..]);
      assert forall i | 0 <= i < |EncodeChar(s[0])| :: !ForbiddenByte(EncodeChar(s[0])[i]);
    }
  }

  lemma {:induction false} CappedOfPlainText(s: string)
    requires PlainText(s)
    ensures Capped(Bytes(Encode(s))) == if |Encode(s)| <= MAX_SIDECAR_BYTES then Ok(s) else Err(Invalid)
  {
    PlainTextHasNoForbiddenByte(s);
    DecodeEncode(s);
  }

  lemma {:induction false} AliasIsPlain(a: string)
    requires ValidateAlias(a)
    ensures Free(a, '\n') && PlainText(a)
  {
  }

  lemma {:induction false} EmailIsPlain(e: string)
    requires ValidateEmail(e)
    ensures Free(e, '\n') && PlainText(e)
  {
    assert IsWhitespace('\n');
  }

  lemma {:induction false} LineLength(s: string)
    ensures |Encode(s + "\n")| == |Encode(s)| + 1
  {
    EncodeAppend(s, "\n");
    AsciiLength("\n");
  }

  lemma {:induction false} OneLine(a: string)
    requires Free(a, '\n')
    ensures Split(a + "\n", '\n') == [a, ""]
  {
    SplitPiece(a, "", '\n');
    assert a + ['\n'] + "" == a + "\n";
  }

  /** Every accepted alias reads back exactly. */
  lemma {:induction false} LocalRoundTrip(alias: string)
    requires ValidateAlias(alias)
    ensures ParseLocal(Bytes(Encode(LocalBody(alias)))) == Ok(alias)
  {
    AliasIsPlain(alias);
    OneLine(alias);
    LineLength(alias);
    CappedOfPlainText(LocalBody(alias));
  }

  /** Every accepted email on its own reads back exactly. */
  lemma {:induction false} EmailRoundTrip(email: string)
    requires ValidateEmail(email)
    ensures ParseRemote(Bytes(Encode(RemoteBody(email, None)))) == Ok(RemoteDefault(email, None))
  {
    EmailIsPlain(email);
    OneLine(email);
    LineLength(email);
    CappedOfPlainText(RemoteBody(email, None));
  }

  /** An accepted pair is always written, and reads back iff the two lengths together leave room for the newlines. */
  lemma {:induction false} PairRoundTrip(email: string, alias: string)
    requires ValidateEmail(email) && ValidateAlias(alias)
    ensures ParseRemote(Bytes(Encode(RemoteBody(email, Some(alias))))) ==
            if |Encode(email)| + |Encode(alias)| <= 254 then Ok(RemoteDefault(email, Some(alias))) else Err(Invalid)
  {
    EmailIsPlain(email);
    AliasIsPlain(alias);
    OneLine(alias);
    SplitPiece(email, alias + "\n", '\n');
    var body := RemoteBody(email, Some(alias));
    assert body == email + ['\n'] + (alias + "\n") == (email + "\n") + (alias + "\n");
    assert Split(body, '\n') == [email, alias, ""];
    LineLength(email);
    LineLength(alias);
    EncodeAppend(email + "\n", alias + "\n");
    CappedOfPlainText(body);
  }

  /** Such an unreadable pair exists: both halves are accepted, the write goes through, the read is refused. */
  lemma {:induction false} AnAcceptedPairCanBeUnreadable()
    ensures var email, alias := seq(200, i => '@'), seq(60, i => 'a');
            && ValidateEmail(email) && ValidateAlias(alias)
            && ParseRemote(Bytes(Encode(RemoteBody(email, Some(alias))))) == Err(Invalid)
  {
    var email, alias := seq(200, i => '@'), seq(60, i => 'a');
    AsciiLength(email);
    AsciiLength(alias);
    assert email[0] == '@';
    PairRoundTrip(email, alias);
  }

  /** Whatever file a reader accepts, its contents pass the checks of the writer. */
  lemma {:induction false} AcceptedReadsAreValid(f: FileState)
    ensures ParseLocal(f).Ok? ==> ValidateAlias(ParseLocal(f).value)
    ensures ParseRemote(f).Ok? ==>
              && ValidateEmail(ParseRemote(f).value.email)
              && (ParseRemote(f).value.alias.Some? ==> ValidateAlias(ParseRemote(f).value.alias.value))
  {
  }

  // ----- what is accepted, exactly -----

  predicate AliasChar(c: char) { ' ' <= c <= '~' && c != '/' && c != '\\' }

  /** An alias: up to 64 printable ASCII characters without a separator, no two dots in a row, and not the dot. */
  lemma {:induction false} AliasRule(s: string)
    ensures ValidateAlias(s) <==>
            && 1 <= |s| <= 64 && (forall i | 0 <= i < |s| :: AliasChar(s[i]))
            && s != "." && (forall i | 0 <= i < |s| - 1 :: !(s[i] == '.' && s[i + 1] == '.'))
  {
    if ValidateAlias(s) {
      assert forall i | 0 <= i < |s| :: s[i] in s;
      AsciiLength(s);
    }
    if forall i | 0 <= i < |s| :: AliasChar(s[i]) {
      forall c | c in s ensures AliasChar(c) {
        var i :| 0 <= i < |s| && s[i] == c;
      }
      AsciiLength(s);
    }
  }

  /** An email in ASCII: up to 254 visible characters with an `@` among them. */
  lemma {:induction false} AsciiEmailRule(s: string)
    requires Ascii(s)
    ensures ValidateEmail(s) <==> 1 <= |s| <= 254 && '@' in s && forall i | 0 <= i < |s| :: '!' <= s[i] <= '~'
  {
    AsciiLength(s);
    if forall c | c in s :: !IsWhitespace(c) && !IsControl(c) {
      assert forall i | 0 <= i < |s| :: s[i] in s;
    }
    if forall i | 0 <= i < |s| :: '!' <= s[i] <= '~' {
      forall c | c in s ensures '!' <= c <= '~' {
        var i :| 0 <= i < |s| && s[i] == c;
      }
    }
  }

  /** A file that is missing or cannot be read says so; any other refusal is for its contents. */
  lemma {:induction false} RefusedReads(f: FileState)
    ensures (ParseLocal(f) == Err(NotFound) <==> f.Missing?) && (ParseRemote(f) == Err(NotFound) <==> f.Missing?)
    ensures (ParseLocal(f) == Err(Io) <==> f.Unreadable?) && (ParseRemote(f) == Err(Io) <==> f.Unreadable?)
  {
  }

  /** The local sidecar is read as an alias exactly when it holds a valid one, with or without a newline behind it. */
  lemma {:induction false} LocalContents(f: FileState, alias: string)
    ensures ParseLocal(f) == Ok(alias) <==>
            && ValidateAlias(alias)
            && (f == FileState.Bytes(Encode(alias)) || f == FileState.Bytes(Encode(alias + "\n")))
  {
    if ParseLocal(f) == Ok(alias) {
      var raw := Capped(f).value;
      JoinSplit(raw, '\n');
      LinesOfOne(Split(raw, '\n'), alias);
      assert Encode(raw) == f.bytes;
    }
    if ValidateAlias(alias) {
      AliasIsPlain(alias);
      OneLine(alias);
      LineLength(alias);
      SplitFreeText(alias);
      CappedOfPlainText(alias);
      CappedOfPlainText(alias + "\n");
    }
  }

  lemma LinesOfOne(lines: seq<string>, first: string)
    requires 1 <= |lines| <= 2 && lines[0] == first && Piece(lines, 1) == ""
    ensures Join(lines, '\n') == first || Join(lines, '\n') == first + "\n"
  {
    if |lines| == 2 {
      assert lines == [first, ""] && [first, ""][1..] == [""];
    } else {
      assert lines == [first];
    }
  }

  lemma {:induction false} SplitFreeText(s: string)
    requires Free(s, '\n')
    ensures Split(s, '\n') == [s]
  {
    assert AllFree([s], '\n') && Join([s], '\n') == s;
    SplitJoin([s], '\n');
  }

  /** The texts that stand for an email, alone or with an alias on the second line. */
  predicate StandsFor(text: string, email: string, alias: Option<string>)
  {
    match alias
    case None => text == email || text == email + "\n" || text == email + "\n\n"
    case Some(a) => text == email + "\n" + a || text == email + "\n" + a + "\n"
  }

  /** The remote sidecar is read as a default exactly when it holds one, in one of these forms and at most 256 bytes. */
  lemma {:induction false} RemoteContents(f: FileState, d: RemoteDefault)
    ensures ParseRemote(f) == Ok(d) <==>
            && ValidateEmail(d.email) && (d.alias.Some? ==> ValidateAlias(d.alias.value))
            && exists text :: StandsFor(text, d.email, d.alias) && |Encode(text)| <= 256
                              && f == FileState.Bytes(Encode(text))
  {
    if ParseRemote(f) == Ok(d) {
      var raw := Capped(f).value;
      JoinSplit(raw, '\n');
      LinesOfTwo(Split(raw, '\n'), d);
      assert Encode(raw) == f.bytes;
    }
    if ValidateEmail(d.email) && (d.alias.Some? ==> ValidateAlias(d.alias.value)) {
      forall text | StandsFor(text, d.email, d.alias) && |Encode(text)| <= 256 && f == FileState.Bytes(Encode(text))
        ensures ParseRemote(f) == Ok(d)
      {
        StandingText(text, d);
        CappedOfPlainText(text);
      }
    }
  }

  lemma LinesOfTwo(lines: seq<string>, d: RemoteDefault)
    requires 1 <= |lines| <= 3 && Piece(lines, 2) == "" && lines[0] == d.email
    requires d.alias == if Piece(lines, 1) == "" then None else Some(lines[1])
    ensures StandsFor(Join(lines, '\n'), d.email, d.alias)
  {
    if |lines| == 1 {
      assert lines == [d.email];
    } else if |lines| == 2 {
      assert lines == [d.email, lines[1]] && lines[1..] == [lines[1]];
      assert d.email + ['\n'] + "" == d.email + "\n";
    } else {
      assert lines == [d.email, lines[1], ""] && lines[1..] == [lines[1], ""] && lines[1..][1..] == [""];
      assert Join(lines[1..], '\n') == lines[1] + "\n";
    }
  }

  lemma {:induction false} StandingEmail(text: string, e: string)
    requires ValidateEmail(e) && StandsFor(text, e, None)
    ensures PlainText(text)
    ensures Split(text, '\n') == [e] || Split(text, '\n') == [e, ""] || Split(text, '\n') == [e, "", ""]
  {
    EmailIsPlain(e);
    SplitFreeText(e);
    SplitFreeText("");
    OneLine("");
    OneLine(e);
    SplitPiece(e, "\n", '\n');
    assert e + "\n\n" == e + ['\n'] + "\n" && "" + "\n" == "\n";
  }

  lemma {:induction false} StandingPair(text: string, e: string, a: string)
    requires ValidateEmail(e) && ValidateAlias(a) && StandsFor(text, e, Some(a))
    ensures PlainText(text)
    ensures Split(text, '\n') == [e, a] || Split(text, '\n') == [e, a, ""]
  {
    EmailIsPlain(e);
    AliasIsPlain(a);
    SplitFreeText(a);
    OneLine(a);
    SplitPiece(e, a, '\n');
    SplitPiece(e, a + "\n", '\n');
    assert e + "\n" + a + "\n" == e + ['\n'] + (a + "\n");
  }

  /** Such a text is plain and splits into its lines. */
  lemma {:induction false} StandingText(text: string, d: RemoteDefault)
    requires ValidateEmail(d.email) && (d.alias.Some? ==> ValidateAlias(d.alias.value))
    requires StandsFor(text, d.email, d.alias)
    ensures PlainText(text)
    ensures var lines := Split(text, '\n');
            && 1 <= |lines| <= 3 && Piece(lines, 2) == "" && lines[0] == d.email
            && d.alias == if Piece(lines, 1) == "" then None else Some(lines[1])
  {
    if d.alias.Some? {
      StandingPair(text, d.email, d.alias.value);
    } else {
      StandingEmail(text, d.email);
    }
  }

  datatype WriteError = Rejected | WriteFailed

  class SidecarFile {
    var state: FileState

    constructor ()
      ensures state == Missing
    {
      state := Missing;
    }

    method ReadCapped() returns (r: Result<string, ReadError>)
      ensures r == Capped(state)
    {
      match state
      case Missing => return Err(NotFound);
      case Unreadable => return Err(Io);
      case Bytes(bytes) =>
        if |bytes| > MAX_SIDECAR_BYTES {
          return Err(Invalid);
        }
        for i := 0 to |bytes|
          invariant forall j | 0 <= j < i :: !ForbiddenByte(bytes[j])
        {
          if ForbiddenByte(bytes[i]) {
            return Err(Invalid);
          }
        }
        var s := Decode(bytes);
        return if s.Some? then Ok(s.value) else Err(Invalid);
    }

    method ReadLocalDefault() returns (r: Result<string, ReadError>)
      ensures r == ParseLocal(state)
    {
      var raw := ReadCapped();
      if raw.Err? {
        return Err(raw.error);
      }
      var lines := Split(raw.value, '\n');
      if Piece(lines, 1) != "" || |lines| > 2 || !ValidateAlias(lines[0]) {
        return Err(Invalid);
      }
      return Ok(lines[0]);
    }

    method ReadRemoteDefault() returns (r: Result<RemoteDefault, ReadError>)
      ensures r == ParseRemote(state)
    {
      var raw := ReadCapped();
      if raw.Err? {
        return Err(raw.error);
      }
      var lines := Split(raw.value, '\n');
      var alias := Piece(lines, 1);
      if Piece(lines, 2) != "" || |lines| > 3 || !ValidateEmail(lines[0]) {
        return Err(Invalid);
      }
      if alias == "" {
        return Ok(RemoteDefault(lines[0], None));
      }
      return if ValidateAlias(alias) then Ok(RemoteDefault(lines[0], Some(alias))) else Err(Invalid);
    }

    /** The whole content is replaced or none of it. */
    method WriteAtomic(body: string, ioFails: bool) returns (error: Option<WriteError>)
      modifies this
      ensures error == if ioFails then Some(WriteFailed) else None
      ensures state == if ioFails then old(state) else Bytes(Encode(body))
    {
      if ioFails {
        return Some(WriteFailed);
      }
      state := Bytes(Encode(body));
      return None;
    }

    method WriteLocalDefault(alias: string, ioFails: bool) returns (error: Option<WriteError>)
      modifies this
      ensures error.None? <==> ValidateAlias(alias) && !ioFails
      ensures error.None? ==> ParseLocal(state) == Ok(alias)
      ensures error.Some? ==> state == old(state)
    {
      if !ValidateAlias(alias) {
        return Some(Rejected);
      }
      LocalRoundTrip(alias);
      error := WriteAtomic(LocalBody(alias), ioFails);
    }

    method WriteRemoteDefault(email: string, alias: Option<string>, ioFails: bool) returns (error: Option<WriteError>)
      modifies this
      ensures error.None? <==> ValidateEmail(email) && (alias.Some? ==> ValidateAlias(alias.value)) && !ioFails
      ensures error.None? ==>
                ParseRemote(state) ==
                if alias.None? || |Encode(email)| + |Encode(alias.value)| <= 254 then Ok(RemoteDefault(email, alias))
                else Err(Invalid)
      ensures error.Some? ==> state == old(state)
    {
      if !ValidateEmail(email) || (alias.Some? && !ValidateAlias(alias.value)) {
        return Some(Rejected);
      }
      if alias.Some? {
        PairRoundTrip(email, alias.value);
      } else {
        EmailRoundTrip(email);
      }
      error := WriteAtomic(RemoteBody(email, alias), ioFails);
    }
  }
}
