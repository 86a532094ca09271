/** UTF-8 (RFC 3629, section 3): the bytes of a string, and the strict decoder. */
module Utf8 {
  import opened Basics

  predicate IsScalar(n: int) { 0 <= n < 0xD800 || 0xE000 <= n < 0x110000 }

  function EncodeChar(c: char): (bytes: seq<byte>)
    ensures 1 <= |bytes| <= 4
  {
    var n := c as int;
    if n < 0x80 then [n]
    else if n < 0x800 then [0xC0 + n / 64, 0x80 + n % 64]
    else if n < 0x10000 then [0xE0 + n / 4096, 0x80 + (n / 64) % 64, 0x80 + n % 64]
    else [0xF0 + n / 262144, 0x80 + (n / 4096) % 64, 0x80 + (n / 64) % 64, 0x80 + n % 64]
  }

  /** `s.as_bytes()`. */
  function Encode(s: string): seq<byte>
  {
    if s == "" then [] else EncodeChar(s[0]) + Encode(s[1..])
  }

  /** The number the first bytes spell, by the class of the first byte. */
  function HeadNumber(b: seq<byte>): int
    requires b != []
  {
    var b0: int := b[0];
    var b1: int := if |b| >= 2 then (b[1] as int) - 0x80 else 0;
    var b2: int := if |b| >= 3 then (b[2] as int) - 0x80 else 0;
    var b3: int := if |b| >= 4 then (b[3] as int) - 0x80 else 0;
    if b0 < 0xC0 then b0
    else if b0 < 0xE0 then (b0 - 0xC0) * 64 + b1
    else if b0 < 0xF0 then (b0 - 0xE0) * 4096 + b1 * 64 + b2
    else (b0 - 0xF0) * 262144 + b1 * 4096 + b2 * 64 + b3
  }

  /** `String::from_utf8`: overlong forms, surrogates and stray bytes are refused. */
  function Decode(b: seq<byte>): (r: Option<string>)
    ensures r.Some? ==> Encode(r.value) == b
  {
    if b == [] then Some("")
    else
      var n := HeadNumber(b);
      if IsScalar(n) && EncodeChar(n as char) <= b then
        var rest := Decode(b[|EncodeChar(n as char)|..]);
        if rest.None? then None else Some([n as char] + rest.value)
      else None
  }

  lemma HeadOfEncodedChar(c: char, tail: seq<byte>)
    ensures HeadNumber(EncodeChar(c) + tail) == c as int
  {
    var n := c as int;
    assert n == (n / 64) * 64 + n % 64;
    assert n == (n / 4096) * 4096 + ((n / 64) % 64) * 64 + n % 64;
    assert n == (n / 262144) * 262144 + ((n / 4096) % 64) * 4096 + ((n / 64) % 64) * 64 + n % 64;
  }

  lemma {:induction false} DecodeEncode(s: string)
    ensures Decode(Encode(s)) == Some(s)
  {
    if s != "" {
      HeadOfEncodedChar(s[0], Encode(s[1..]));
      DecodeEncode(s[1..]);
      assert HeadNumber(Encode(s)) == s[0] as int && EncodeChar(s[0]) <= Encode(s);
      assert s == [s[0]] + s[1..];
      assert Encode(s)[|EncodeChar(s[0])|..] == Encode(s[1..]);
    }
  }

  lemma {:induction false} EncodeAppend(a: string, b: string)
    ensures Encode(a + b) == Encode(a) + Encode(b)
  {
    if a == "" {
      assert a + b == b;
    } else {
      EncodeAppend(a[1..], b);
      assert (a + b)[0] == a[0] && (a + b)[1..] == a[1..] + b;
      Associate(EncodeChar(a[0]), Encode(a[1..]), Encode(b));
    }
  }

  lemma Associate(a: seq<byte>, b: seq<byte>, c: seq<byte>)
    ensures (a + b) + c == a + (b + c)
  {
  }

  /** The forms of one, two, three and four bytes: the payload bits of the bytes together are the code point. */
  lemma EncodedForms(c: char)
    ensures var (n, b) := (c as int, EncodeChar(c));
            match |b|
            case 1 => n <= 0x7F && b[0] as int == n
            case 2 => 0x80 <= n <= 0x7FF && 0xC0 <= b[0] < 0xE0 && 0x80 <= b[1] < 0xC0
                      && (b[0] as int - 0xC0) * 0x40 + (b[1] as int - 0x80) == n
            case 3 => 0x800 <= n <= 0xFFFF && 0xE0 <= b[0] < 0xF0 && 0x80 <= b[1] < 0xC0 && 0x80 <= b[2] < 0xC0
                      && (b[0] as int - 0xE0) * 0x1000 + (b[1] as int - 0x80) * 0x40 + (b[2] as int - 0x80) == n
            case _ => |b| == 4 && 0x10000 <= n && 0xF0 <= b[0] < 0xF8 && 0x80 <= b[1] < 0xC0 && 0x80 <= b[2] < 0xC0
                      && 0x80 <= b[3] < 0xC0
                      && (b[0] as int - 0xF0) * 0x40000 + (b[1] as int - 0x80) * 0x1000 + (b[2] as int - 0x80) * 0x40
                         + (b[3] as int - 0x80) == n
  {
    HeadOfEncodedChar(c, []);
    assert EncodeChar(c) + [] == EncodeChar(c);
  }

  predicate Ascii(s: string) { forall c | c in s :: c as int < 0x80 }

  lemma {:induction false} AsciiLength(s: string)
    requires Ascii(s)
    ensures |Encode(s)| == |s|
  {
    if s != "" {
      assert s[0] in s;
      assert forall c | c in s[1..] :: c in s;
      AsciiLength(s[1..]);
    }
  }
}
