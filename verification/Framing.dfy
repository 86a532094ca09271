/** Length-prefixed frames of the agent protocol (core/src/agent_proto/framing.rs). */
module Framing {
  import opened Basics

  const FRAME_LIMIT: nat := 0x10_0000

  datatype FramingError = FrameTooLarge(size: nat) | Truncated

  /** `u32::to_be_bytes`. */
  function ToBe(n: nat): seq<byte>
    requires n < 0x1_0000_0000
  {
    [n / 0x100_0000, (n / 0x1_0000) % 0x100, (n / 0x100) % 0x100, n % 0x100]
  }

  function FromBe(b: seq<byte>): nat
    requires |b| == 4
  {
    (((b[0] as int * 0x100 + b[1] as int) * 0x100) + b[2] as int) * 0x100 + b[3] as int
  }

  lemma BeRoundTrip(n: nat)
    requires n < 0x1_0000_0000
    ensures FromBe(ToBe(n)) == n
  {
    var a, b := n / 0x100, n / 0x1_0000;
    assert n == a * 0x100 + n % 0x100;
    assert a / 0x100 == b && a == b * 0x100 + a % 0x100;
    assert b / 0x100 == n / 0x100_0000 && b == (b / 0x100) * 0x100 + b % 0x100;
  }

  /** `frame_payload`. */
  function Frame(payload: seq<byte>): Result<seq<byte>, FramingError>
  {
    if |payload| > FRAME_LIMIT then Err(FrameTooLarge(|payload|)) else Ok(ToBe(|payload|) + payload)
  }

  /** `split_frame`: the payload at the front of a buffer. */
  function SplitFrame(frame: seq<byte>): Result<seq<byte>, FramingError>
  {
    if |frame| < 4 then Err(Truncated)
    else
      var len := FromBe(frame[..4]);
      if len > FRAME_LIMIT then Err(FrameTooLarge(len))
      else if |frame| < 4 + len then Err(Truncated)
      else Ok(frame[4..4 + len])
  }

  /** A frame is the payload behind its length, in four bytes with the highest first; a mebibyte is the most. */
  lemma {:induction false} FrameLayout(payload: seq<byte>)
    ensures Frame(payload).Ok? <==> |payload| <= 1_048_576
    ensures Frame(payload).Err? ==> Frame(payload).error == FrameTooLarge(|payload|)
    ensures Frame(payload).Ok? ==>
              var f := Frame(payload).value;
              && |f| == 4 + |payload| && f[4..] == payload
              && f[0] as int * 16_777_216 + f[1] as int * 65_536 + f[2] as int * 256 + f[3] as int == |payload|
  {
    if |payload| <= FRAME_LIMIT {
      BeRoundTrip(|payload|);
      assert (ToBe(|payload|) + payload)[4..] == payload;
    }
  }

  class Stream {
    var data: seq<byte>
    var pos: nat

    constructor (data: seq<byte>)
      ensures this.data == data && pos == 0
    {
      this.data, pos := data, 0;
    }

    ghost function Rest(): seq<byte>
      requires pos <= |data|
      reads this
    {
      data[pos..]
    }

    /** How much a read that meets the end has consumed is left open. */
    method ReadExact(n: nat) returns (bytes: Option<seq<byte>>)
      requires pos <= |data|
      modifies this`pos
      ensures pos <= |data|
      ensures bytes.Some? <==> n <= |old(Rest())|
      ensures bytes.Some? ==> bytes.value == old(Rest())[..n] && Rest() == old(Rest())[n..] && pos == old(pos) + n
    {
      if n <= |data| - pos {
        bytes := Some(data[pos..pos + n]);
        pos := pos + n;
      } else {
        pos := |data|;
        bytes := None;
      }
    }

    /** An oversized frame is refused right after its length: no byte of the body is read. */
    method ReadFrame() returns (r: Result<seq<byte>, FramingError>)
      requires pos <= |data|
      modifies this`pos
      ensures pos <= |data|
      ensures r == SplitFrame(old(Rest()))
      ensures r.Ok? ==> pos == old(pos) + 4 + |r.value| && Rest() == old(Rest())[4 + |r.value|..]
      ensures r.Err? && r.error.FrameTooLarge? ==> pos == old(pos) + 4
    {
      ghost var rest := Rest();
      var lenBytes := ReadExact(4);
      if lenBytes.None? {
        return Err(Truncated);
      }
      var len := FromBe(lenBytes.value);
      if len > FRAME_LIMIT {
        return Err(FrameTooLarge(len));
      }
      var body := ReadExact(len);
      if body.None? {
        return Err(Truncated);
      }
      assert rest[4..][..len] == rest[4..4 + len] && rest[4..][len..] == rest[4 + len..];
      return Ok(body.value);
    }

    /** A refused payload writes nothing. */
    method WriteFrame(payload: seq<byte>) returns (error: Option<FramingError>)
      modifies this`data
      ensures data == old(data) + (if Frame(payload).Ok? then Frame(payload).value else [])
      ensures error == if Frame(payload).Ok? then None else Some(Frame(payload).error)
    {
      if |payload| > FRAME_LIMIT {
        return Some(FrameTooLarge(|payload|));
      }
      data := data + ToBe(|payload|);
      data := data + payload;
      return None;
    }
  }

  // ----- streams of frames -----

  function Frames(payloads: seq<seq<byte>>): seq<byte>
    requires forall p | p in payloads :: |p| <= FRAME_LIMIT
  {
    if payloads == [] then [] else Frame(payloads[0]).value + Frames(payloads[1..])
  }

  /** Reading `n` frames one after the other: the payloads and what is left. */
  function ReadMany(s: seq<byte>, n: nat): Result<(seq<seq<byte>>, seq<byte>), FramingError>
    decreases n
  {
    if n == 0 then Ok(([], s))
    else
      match SplitFrame(s)
      case Err(e) => Err(e)
      case Ok(p) =>
        match ReadMany(s[4 + |p|..], n - 1)
        case Err(e) => Err(e)
        case Ok(rest) => Ok(([p] + rest.0, rest.1))
  }

  lemma {:induction false} FrameThenMore(payload: seq<byte>, more: seq<byte>)
    requires |payload| <= FRAME_LIMIT
    ensures var s := Frame(payload).value + more;
            SplitFrame(s) == Ok(payload) && s[4 + |payload|..] == more
  {
    BeRoundTrip(|payload|);
    var s := Frame(payload).value + more;
    assert s[..4] == ToBe(|payload|) && s[4..4 + |payload|] == payload;
  }

  /** What was written is what is read: every payload in order, every byte consumed, then the end. */
  lemma {:induction false} ReadBackAll(payloads: seq<seq<byte>>)
    requires forall p | p in payloads :: |p| <= FRAME_LIMIT
    ensures ReadMany(Frames(payloads), |payloads|) == Ok((payloads, []))
    ensures ReadMany(Frames(payloads), |payloads| + 1) == Err(Truncated)
    decreases |payloads|
  {
    if payloads != [] {
      assert payloads[0] in payloads;
      FrameThenMore(payloads[0], Frames(payloads[1..]));
      ReadBackAll(payloads[1..]);
      assert payloads == [payloads[0]] + payloads[1..];
    }
  }

  /** Any proper initial part of a frame is recognised as truncated. */
  lemma {:induction false} CutFrameIsTruncated(payload: seq<byte>, k: nat)
    requires |payload| <= FRAME_LIMIT && k < 4 + |payload|
    ensures SplitFrame(Frame(payload).value[..k]) == Err(Truncated)
  {
    if k >= 4 {
      BeRoundTrip(|payload|);
      assert Frame(payload).value[..k][..4] == ToBe(|payload|);
    }
  }

  /** A buffer is accepted exactly when a frame stands at its front. */
  lemma {:induction false} AcceptedIsFramed(s: seq<byte>)
    ensures SplitFrame(s).Ok? <==> exists p :: |p| <= FRAME_LIMIT && Frame(p).value <= s
    ensures SplitFrame(s).Ok? ==> Frame(SplitFrame(s).value).value <= s
  {
    if SplitFrame(s).Ok? {
      var p := SplitFrame(s).value;
      BeUnique(s[..4]);
      assert s[..4 + |p|] == s[..4] + p == Frame(p).value;
    }
    if p: seq<byte> :| |p| <= FRAME_LIMIT && Frame(p).value <= s {
      assert s == Frame(p).value + s[4 + |p|..];
      FrameThenMore(p, s[4 + |p|..]);
    }
  }

  /** A buffer is refused for its length field as soon as that is complete, else for what is missing behind it. */
  lemma {:induction false} RefusedFrames(s: seq<byte>)
    ensures |s| < 4 ==> SplitFrame(s) == Err(Truncated)
    ensures |s| >= 4 ==>
              var n := s[0] as int * 16_777_216 + s[1] as int * 65_536 + s[2] as int * 256 + s[3] as int;
              if n > 1_048_576 then SplitFrame(s) == Err(FrameTooLarge(n))
              else if |s| < 4 + n then SplitFrame(s) == Err(Truncated)
              else SplitFrame(s) == Ok(s[4..4 + n])
  {
    if |s| >= 4 {
      assert s[..4] == [s[0], s[1], s[2], s[3]];
    }
  }

  lemma BeUnique(b: seq<byte>)
    requires |b| == 4
    ensures FromBe(b) < 0x1_0000_0000 && ToBe(FromBe(b)) == b
  {
    var x := (b[0] as int * 0x100 + b[1] as int) * 0x100 + b[2] as int;
    var n := FromBe(b);
    assert n == x * 0x100 + b[3] as int;
    assert n / 0x100 == x && n % 0x100 == b[3] as int;
    var y := b[0] as int * 0x100 + b[1] as int;
    assert x / 0x100 == y && x % 0x100 == b[2] as int;
    assert y / 0x100 == b[0] as int && y % 0x100 == b[1] as int;
    assert n / 0x1_0000 == y && n / 0x100_0000 == b[0] as int;
  }
}
