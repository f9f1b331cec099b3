/** Bytes, and UTF-8 as RFC 3629 defines it (section 4). */
module Bytes {

  newtype Byte = b: int | 0 <= b < 256

  predicate Continuation(b: Byte) {
    0x80 <= b < 0xC0
  }

  /** Bytes of the character a text begins with, 0 if it begins with no well-formed one. */
  function CharLength(s: seq<Byte>): (n: nat)
    ensures n <= |s|
    ensures n > 0 ==> !Continuation(s[0]) && forall i | 0 < i < n :: Continuation(s[i])
  {
    if s == [] then 0
    else if s[0] < 0x80 then 1
    else if 0xC2 <= s[0] < 0xE0 && |s| >= 2 && Continuation(s[1]) then 2
    else if 0xE0 <= s[0] < 0xF0 && |s| >= 3 && Continuation(s[1]) && Continuation(s[2])
      && (s[0] == 0xE0 ==> s[1] >= 0xA0) && (s[0] == 0xED ==> s[1] < 0xA0) then 3
    else if 0xF0 <= s[0] < 0xF5 && |s| >= 4 && Continuation(s[1]) && Continuation(s[2]) && Continuation(s[3])
      && (s[0] == 0xF0 ==> s[1] >= 0x90) && (s[0] == 0xF4 ==> s[1] < 0x90) then 4
    else 0
  }

  predicate Utf8(s: seq<Byte>)
    decreases |s|
  {
    s == [] || (CharLength(s) > 0 && Utf8(s[CharLength(s)..]))
  }

  /** `is_char_boundary`. */
  predicate Boundary(s: seq<Byte>, i: nat) {
    i == 0 || i == |s| || (i < |s| && !Continuation(s[i]))
  }

  lemma {:induction false} FirstChar(s: seq<Byte>, t: seq<Byte>)
    requires CharLength(s) > 0
    ensures CharLength(s + t) == CharLength(s)
  {
  }

  lemma {:induction false} Utf8Concat(s: seq<Byte>, t: seq<Byte>)
    requires Utf8(s) && Utf8(t)
    ensures Utf8(s + t)
    decreases |s|
  {
    if s == [] {
      assert s + t == t;
    } else {
      var n := CharLength(s);
      FirstChar(s, t);
      Utf8Concat(s[n..], t);
      assert (s + t)[n..] == s[n..] + t;
    }
  }

  /** A text cut at a character boundary falls into two texts. */
  lemma {:induction false} Utf8Cut(s: seq<Byte>, i: nat)
    requires Utf8(s) && i <= |s| && Boundary(s, i)
    ensures Utf8(s[..i]) && Utf8(s[i..])
    decreases |s|
  {
    hide CharLength;
    if i == 0 {
      assert s[i..] == s;
    } else if i == |s| {
      assert s[..i] == s;
    } else {
      var n := CharLength(s);
      assert i >= n;
      Utf8Cut(s[n..], i - n);
      assert s[n..][..i - n] == s[n..i] && s[n..][i - n..] == s[i..];
      PrefixChar(s, i);
      assert s[..i][n..] == s[n..i];
    }
  }

  lemma {:induction false} PrefixChar(s: seq<Byte>, i: nat)
    requires 0 < CharLength(s) <= i <= |s|
    ensures CharLength(s[..i]) == CharLength(s)
  {
  }

  lemma {:induction false} StartsChar(s: seq<Byte>)
    requires Utf8(s) && s != []
    ensures !Continuation(s[0])
  {
  }

  // ---------------------------------------------------------------- characters

  /** Unicode scalar values: code points that are not surrogates. */
  predicate Scalar(n: int) {
    0 <= n < 0xD800 || 0xE000 <= n < 0x110000
  }

  /** The table of section 3: the bits of a code point, six in each byte but the first. */
  function Encode(n: int): seq<Byte>
    requires Scalar(n)
  {
    if n < 0x80 then [n as Byte]
    else if n < 0x800 then [(0xC0 + n / 0x40) as Byte, (0x80 + n % 0x40) as Byte]
    else if n < 0x10000 then
      [(0xE0 + n / 0x1000) as Byte, (0x80 + n / 0x40 % 0x40) as Byte, (0x80 + n % 0x40) as Byte]
    else
      [(0xF0 + n / 0x40000) as Byte, (0x80 + n / 0x1000 % 0x40) as Byte, (0x80 + n / 0x40 % 0x40) as Byte,
       (0x80 + n % 0x40) as Byte]
  }

  /** The code point a well-formed sequence of one to four bytes stands for. */
  function Decode(s: seq<Byte>): int
    requires 1 <= |s| <= 4
  {
    var b := seq(|s|, i requires 0 <= i < |s| => s[i] as int);
    match |s|
    case 1 => b[0]
    case 2 => (b[0] - 0xC0) * 0x40 + b[1] - 0x80
    case 3 => (b[0] - 0xE0) * 0x1000 + (b[1] - 0x80) * 0x40 + b[2] - 0x80
    case _ => (b[0] - 0xF0) * 0x40000 + (b[1] - 0x80) * 0x1000 + (b[2] - 0x80) * 0x40 + b[3] - 0x80
  }

  /** A number is made up of its parts of six bits. */
  lemma {:induction false} SixBits(n: nat)
    ensures n / 0x40 / 0x40 == n / 0x1000 && n / 0x1000 / 0x40 == n / 0x40000
    ensures n == n / 0x40 * 0x40 + n % 0x40
    ensures n / 0x40 == n / 0x1000 * 0x40 + n / 0x40 % 0x40
    ensures n / 0x1000 == n / 0x40000 * 0x40 + n / 0x1000 % 0x40
  {
  }

  /** ... and of no others. */
  lemma {:induction false} SixBitsOnly(high: nat, low: nat)
    requires low < 0x40
    ensures (high * 0x40 + low) / 0x40 == high && (high * 0x40 + low) % 0x40 == low
  {
  }

  /** Every character is decoded from its encoding ... */
  lemma {:induction false} DecodeEncode(n: int)
    requires Scalar(n)
    ensures 1 <= |Encode(n)| <= 4 && Decode(Encode(n)) == n
  {
    SixBits(n);
  }

  /** ... and starts any text that begins with it. */
  lemma {:induction false} EncodedIsRead(n: int, rest: seq<Byte>)
    requires Scalar(n)
    ensures CharLength(Encode(n) + rest) == |Encode(n)|
  {
    SixBits(n);
    EncodedAlone(n);
    FirstChar(Encode(n), rest);
  }

  lemma {:induction false} EncodedAlone(n: int)
    requires Scalar(n)
    ensures CharLength(Encode(n)) == |Encode(n)|
  {
    SixBits(n);
  }

  /** What is read as a character is the encoding of one. */
  lemma {:induction false} ReadIsEncoded(s: seq<Byte>)
    requires CharLength(s) > 0
    ensures var c := s[..CharLength(s)]; Scalar(Decode(c)) && Encode(Decode(c)) == c
  {
    var c := s[..CharLength(s)];
    PrefixChar(s, CharLength(s));
    match |c|
    case 1 =>
    case 2 => ReadTwo(c);
    case 3 => ReadThree(c);
    case _ => ReadFour(c);
  }

  lemma {:induction false} ReadTwo(c: seq<Byte>)
    requires CharLength(c) == |c| == 2
    ensures Scalar(Decode(c)) && Encode(Decode(c)) == c
  {
    SixBitsOnly(c[0] as int - 0xC0, c[1] as int - 0x80);
  }

  lemma {:induction false} ReadThree(c: seq<Byte>)
    requires CharLength(c) == |c| == 3
    ensures Scalar(Decode(c)) && Encode(Decode(c)) == c
  {
    var high, mid, low := c[0] as int - 0xE0, c[1] as int - 0x80, c[2] as int - 0x80;
    SixBitsOnly(high, mid);
    SixBitsOnly(high * 0x40 + mid, low);
    SixBits(Decode(c));
  }

  lemma {:induction false} ReadFour(c: seq<Byte>)
    requires CharLength(c) == |c| == 4
    ensures Scalar(Decode(c)) && Encode(Decode(c)) == c
  {
    var top, high, mid, low := c[0] as int - 0xF0, c[1] as int - 0x80, c[2] as int - 0x80, c[3] as int - 0x80;
    SixBitsOnly(top, high);
    SixBitsOnly(top * 0x40 + high, mid);
    SixBitsOnly((top * 0x40 + high) * 0x40 + mid, low);
    SixBits(Decode(c));
  }
}
