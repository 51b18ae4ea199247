/** The UTF-8 form of a text of characters (section 3 of RFC 3629). */
module Utf8 {

  type Octet = x: int | 0 <= x < 256

  function Encode(c: char): (octets: seq<Octet>)
    ensures 1 <= |octets| <= 4
  {
    var x := c as int;
    if x < 0x80 then [x]
    else if x < 0x800 then [0xc0 + x / 64, 0x80 + x % 64]
    else if x < 0x1_0000 then [0xe0 + x / 4096, 0x80 + x / 64 % 64, 0x80 + x % 64]
    else [0xf0 + x / 262144, 0x80 + x / 4096 % 64, 0x80 + x / 64 % 64, 0x80 + x % 64]
  }

  function Bytes(text: string): seq<Octet>
  {
    if text == "" then [] else Encode(text[0]) + Bytes(text[1..])
  }

  lemma {:induction false} BytesConcat(a: string, b: string)
    ensures Bytes(a + b) == Bytes(a) + Bytes(b)
  {
    hide Encode;
    if a == "" {
      assert a + b == b;
    } else {
      BytesConcat(a[1..], b);
      assert (a + b)[1..] == a[1..] + b && (a + b)[0] == a[0];
    }
  }

  lemma {:induction false} BytesAtLeast(a: string)
    ensures |a| <= |Bytes(a)|
  {
    hide Encode;
    if a != "" {
      BytesAtLeast(a[1..]);
    }
  }

  /** The first character of an encoded text can be told from its octets. */
  lemma FirstCharacter(c: char, d: char, x: seq<Octet>, y: seq<Octet>)
    requires Encode(c) + x == Encode(d) + y
    ensures c == d && x == y
  {
    var s, t := Encode(c) + x, Encode(d) + y;
    assert s[0] == Encode(c)[0] && t[0] == Encode(d)[0];
    SameLength(c, d);
    var n := |Encode(c)|;
    assert Encode(c) == s[..n] && Encode(d) == t[..n] && x == s[n..] && y == t[n..];
    EncodeInjective(c, d);
  }

  lemma SameLength(c: char, d: char)
    requires Encode(c)[0] == Encode(d)[0]
    ensures |Encode(c)| == |Encode(d)|
  {
    LeadOctet(c);
    LeadOctet(d);
  }

  lemma LeadOctet(c: char)
    ensures var e := Encode(c);
      && (|e| == 1 <==> e[0] < 0x80) && (|e| == 2 <==> 0xc0 <= e[0] < 0xe0)
      && (|e| == 3 <==> 0xe0 <= e[0] < 0xf0) && (|e| == 4 <==> 0xf0 <= e[0])
  {
  }

  /** The number that some octets stand for. */
  function Scalar(e: seq<int>): int
    requires 1 <= |e| <= 4
  {
    if |e| == 1 then e[0]
    else if |e| == 2 then (e[0] - 0xc0) * 64 + (e[1] - 0x80)
    else if |e| == 3 then (e[0] - 0xe0) * 4096 + (e[1] - 0x80) * 64 + (e[2] - 0x80)
    else (e[0] - 0xf0) * 262144 + (e[1] - 0x80) * 4096 + (e[2] - 0x80) * 64 + (e[3] - 0x80)
  }

  lemma SplitSixBits(x: nat)
    ensures x == x / 64 * 64 + x % 64 && x / 64 / 64 == x / 4096 && x / 4096 / 64 == x / 262144
  {
  }

  lemma ScalarOfEncode(c: char)
    ensures Scalar(Encode(c)) == c as int
  {
    SplitSixBits(c as int);
    SplitSixBits(c as int / 64);
    SplitSixBits(c as int / 4096);
  }

  lemma EncodeInjective(c: char, d: char)
    requires Encode(c) == Encode(d)
    ensures c == d
  {
    hide Encode, Scalar;
    ScalarOfEncode(c);
    ScalarOfEncode(d);
  }

  /** Octets encode at most one text. */
  lemma {:induction false} BytesInjective(a: string, b: string)
    requires Bytes(a) == Bytes(b)
    ensures a == b
  {
    hide Encode;
    if a == "" {
      BytesAtLeast(b);
    } else {
      BytesAtLeast(a);
      assert b != "";
      FirstCharacter(a[0], b[0], Bytes(a[1..]), Bytes(b[1..]));
      BytesInjective(a[1..], b[1..]);
      assert a == [a[0]] + a[1..] && b == [b[0]] + b[1..];
    }
  }
}
