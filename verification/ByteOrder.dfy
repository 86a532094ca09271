/** Strings are compared by their UTF-8 bytes, the model by code points: it is the same order. */
module ByteOrders {
  import opened Basics
  import opened Sorting
  import opened Utf8

  /** Byte strings in lexicographic order, as `str` is compared. */
  predicate BytesLe(a: seq<byte>, b: seq<byte>)
  {
    a == [] || (b != [] && (a[0] < b[0] || (a[0] == b[0] && BytesLe(a[1..], b[1..]))))
  }

  lemma {:induction false} SameFront(p: seq<byte>, a: seq<byte>, b: seq<byte>)
    ensures BytesLe(p + a, p + b) <==> BytesLe(a, b)
  {
    if p == [] {
      assert p + a == a && p + b == b;
    } else {
      SameFront(p[1..], a, b);
      assert (p + a)[1..] == p[1..] + a && (p + b)[1..] == p[1..] + b;
    }
  }

  /** The two differ first at byte `k`, where `x` has the lower one. */
  predicate LowerAt(x: seq<byte>, y: seq<byte>, k: nat)
  {
    k < |x| && k < |y| && x[..k] == y[..k] && x[k] < y[k]
  }

  lemma {:induction false} LowerBytes(x: seq<byte>, y: seq<byte>, k: nat, a: seq<byte>, b: seq<byte>)
    requires LowerAt(x, y, k)
    ensures BytesLe(x + a, y + b) && !BytesLe(y + b, x + a)
    decreases k
  {
    if k > 0 {
      assert x[..k][0] == y[..k][0];
      assert x[1..][..k - 1] == x[..k][1..] && y[1..][..k - 1] == y[..k][1..];
      LowerBytes(x[1..], y[1..], k - 1, a, b);
      assert (x + a)[1..] == x[1..] + a && (y + b)[1..] == y[1..] + b;
    }
  }

  lemma ShorterIsLower(c: char, d: char)
    requires c < d && |EncodeChar(c)| != |EncodeChar(d)|
    ensures LowerAt(EncodeChar(c), EncodeChar(d), 0)
  {
  }

  lemma LowerOfTwo(c: char, d: char) returns (k: nat)
    requires c < d && |EncodeChar(c)| == |EncodeChar(d)| <= 2
    ensures LowerAt(EncodeChar(c), EncodeChar(d), k)
  {
    Digits(c as int);
    Digits(d as int);
    k := if EncodeChar(c)[0] != EncodeChar(d)[0] then 0 else 1;
  }

  lemma LowerOfThree(c: char, d: char) returns (k: nat)
    requires c < d && |EncodeChar(c)| == |EncodeChar(d)| == 3
    ensures LowerAt(EncodeChar(c), EncodeChar(d), k)
  {
    Digits(c as int);
    Digits(d as int);
    var x, y := EncodeChar(c), EncodeChar(d);
    k := if x[0] != y[0] then 0 else if x[1] != y[1] then 1 else 2;
  }

  lemma LowerOfFour(c: char, d: char) returns (k: nat)
    requires c < d && |EncodeChar(c)| == |EncodeChar(d)| == 4
    ensures LowerAt(EncodeChar(c), EncodeChar(d), k)
  {
    Digits(c as int);
    Digits(d as int);
    var x, y := EncodeChar(c), EncodeChar(d);
    k := if x[0] != y[0] then 0 else if x[1] != y[1] then 1 else if x[2] != y[2] then 2 else 3;
  }

  /** The lower of two characters has the lower bytes. */
  lemma LowerChar(c: char, d: char) returns (k: nat)
    requires c < d
    ensures LowerAt(EncodeChar(c), EncodeChar(d), k)
  {
    if |EncodeChar(c)| != |EncodeChar(d)| {
      ShorterIsLower(c, d);
      k := 0;
    } else if |EncodeChar(c)| <= 2 {
      k := LowerOfTwo(c, d);
    } else if |EncodeChar(c)| == 3 {
      k := LowerOfThree(c, d);
    } else {
      k := LowerOfFour(c, d);
    }
  }

  lemma Digits(n: int)
    ensures n == (n / 64) * 64 + n % 64
    ensures n / 64 == (n / 4096) * 64 + (n / 64) % 64
    ensures n / 4096 == (n / 262144) * 64 + (n / 4096) % 64
  {
    assert n / 4096 == (n / 64) / 64 && n / 262144 == (n / 4096) / 64;
  }

  /** The order by code points is the order by bytes. */
  lemma {:induction false} StringOrderIsByteOrder(a: string, b: string)
    ensures StringLe(a, b) <==> BytesLe(Encode(a), Encode(b))
  {
    if a != "" && b != "" {
      var x, y := EncodeChar(a[0]), EncodeChar(b[0]);
      if a[0] == b[0] {
        StringOrderIsByteOrder(a[1..], b[1..]);
        SameFront(x, Encode(a[1..]), Encode(b[1..]));
      } else if a[0] < b[0] {
        var k := LowerChar(a[0], b[0]);
        LowerBytes(x, y, k, Encode(a[1..]), Encode(b[1..]));
      } else {
        var k := LowerChar(b[0], a[0]);
        LowerBytes(y, x, k, Encode(b[1..]), Encode(a[1..]));
      }
    }
  }
}
