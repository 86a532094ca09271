/** Decimal numbers as text. */
module Decimal {
  import opened Basics

  function DigitChar(d: nat): char
    requires d < 10
  {
    "0123456789"[d]
  }

  function DigitValue(c: char): Option<nat>
  {
    if '0' <= c <= '9' then Some(c as int - '0' as int) else None
  }

  function Print(n: nat): (s: string)
    ensures s != ""
  {
    if n < 10 then [DigitChar(n)] else Print(n / 10) + [DigitChar(n % 10)]
  }

  /** `{n:0w}`: at least `w` digits. */
  function Padded(n: nat, w: nat): string { Zeros(w - |Print(n)|) + Print(n) }

  function Zeros(k: int): (s: string)
    ensures |s| == if k > 0 then k else 0
  {
    if k <= 0 then "" else "0" + Zeros(k - 1)
  }

  function Parse(s: string): Option<nat> { if s == "" then None else ParseFrom(s, 0) }

  function ParseFrom(s: string, acc: nat): Option<nat>
    decreases |s|
  {
    if s == "" then Some(acc)
    else
      var d := DigitValue(s[0]);
      if d.None? then None else ParseFrom(s[1..], acc * 10 + d.value)
  }

  lemma {:induction false} ParseFromAppend(s: string, c: char, acc: nat)
    requires ParseFrom(s, acc).Some? && DigitValue(c).Some?
    ensures ParseFrom(s + [c], acc) == Some(ParseFrom(s, acc).value * 10 + DigitValue(c).value)
    decreases |s|
  {
    if s == "" {
      assert (s + [c])[1..] == "";
    } else {
      ParseFromAppend(s[1..], c, acc * 10 + DigitValue(s[0]).value);
      assert (s + [c])[1..] == s[1..] + [c];
    }
  }

  lemma {:induction false} ParsePrint(n: nat)
    ensures ParseFrom(Print(n), 0) == Some(n) && Parse(Print(n)) == Some(n)
  {
    if n < 10 {
      assert Print(n)[1..] == "";
    } else {
      ParsePrint(n / 10);
      ParseFromAppend(Print(n / 10), DigitChar(n % 10), 0);
    }
  }

  lemma {:induction false} ParseZeros(k: int, s: string)
    ensures ParseFrom(Zeros(k) + s, 0) == ParseFrom(s, 0)
  {
    if k <= 0 {
      assert Zeros(k) + s == s;
    } else {
      ParseZeros(k - 1, s);
      assert (Zeros(k) + s)[1..] == Zeros(k - 1) + s;
    }
  }

  lemma {:induction false} ParsePadded(n: nat, w: nat)
    ensures Parse(Padded(n, w)) == Some(n)
  {
    ParsePrint(n);
    ParseZeros(w - |Print(n)|, Print(n));
  }

  lemma {:induction false} PrintedDigits(n: nat)
    ensures forall c | c in Print(n) :: '0' <= c <= '9'
  {
    if n >= 10 {
      PrintedDigits(n / 10);
    }
  }

  lemma TwoDigits(n: nat)
    requires n < 100
    ensures |Padded(n, 2)| == 2
  {
    if n >= 10 {
      assert |Print(n / 10)| == 1;
    }
  }
}
