/**
 UTF-8 as sections 3 and 4 of RFC 3629 define it. A Dafny `char` is a Unicode
 scalar value, so a `string` here is exactly the contents of a Rust `String`.
 */
module Utf8 {
  import opened Bytes

  function EncodeChar(c: char): (s: seq<byte>)
    ensures 1 <= |s| <= 4
  {
    var n := c as int;
    if n < 0x80 then [n]
    else if n < 0x800 then [0xC0 + n / 64, 0x80 + n % 64]
    else if n < 0x1_0000 then [0xE0 + n / 4096, 0x80 + n / 64 % 64, 0x80 + n % 64]
    else [0xF0 + n / 0x4_0000, 0x80 + n / 4096 % 64, 0x80 + n / 64 % 64, 0x80 + n % 64]
  }

  function Encode(s: string): (r: seq<byte>)
    ensures |s| <= |r|
  {
    if s == [] then [] else EncodeChar(s[0]) + Encode(s[1..])
  }

  predicate Tail(b: byte) {
    0x80 <= b <= 0xBF
  }

  predicate SecondOfThree(a: byte, b: byte) {
    && Tail(b)
    && (a == 0xE0 ==> 0xA0 <= b)
    && (a == 0xED ==> b <= 0x9F)
  }

  predicate SecondOfFour(a: byte, b: byte) {
    && Tail(b)
    && (a == 0xF0 ==> 0x90 <= b)
    && (a == 0xF4 ==> b <= 0x8F)
  }

  function Join2(a: int, b: int): int {
    (a - 0xC0) * 64 + (b - 0x80)
  }

  function Join3(a: int, b: int, c: int): int {
    (a - 0xE0) * 4096 + (b - 0x80) * 64 + (c - 0x80)
  }

  function Join4(a: int, b: int, c: int, d: int): int {
    (a - 0xF0) * 0x4_0000 + (b - 0x80) * 4096 + (c - 0x80) * 64 + (d - 0x80)
  }

  /** One character off the front, by the byte ranges of section 4 of RFC 3629. */
  function DecodeChar(s: seq<byte>): (r: Option<(char, nat)>)
    ensures r.Some? ==> 1 <= r.value.1 <= |s|
  {
    if s == [] then None
    else if s[0] < 0x80 then Some((s[0] as char, 1))
    else if 0xC2 <= s[0] <= 0xDF && |s| >= 2 && Tail(s[1]) then
      Some((Join2(s[0], s[1]) as char, 2))
    else if 0xE0 <= s[0] <= 0xEF && |s| >= 3 && SecondOfThree(s[0], s[1]) && Tail(s[2]) then
      Some((Join3(s[0], s[1], s[2]) as char, 3))
    else if 0xF0 <= s[0] <= 0xF4 && |s| >= 4 && SecondOfFour(s[0], s[1]) && Tail(s[2]) && Tail(s[3]) then
      Some((Join4(s[0], s[1], s[2], s[3]) as char, 4))
    else None
  }

  function Decode(s: seq<byte>): Option<string> {
    if s == [] then Some([])
    else match DecodeChar(s)
      case None => None
      case Some((c, n)) =>
        match Decode(s[n..])
        case None => None
        case Some(cs) => Some([c] + cs)
  }

  lemma SplitJoin2(n: int)
    requires 0x80 <= n < 0x800
    ensures Join2(0xC0 + n / 64, 0x80 + n % 64) == n && 0xC2 <= 0xC0 + n / 64 <= 0xDF
  {
  }

  lemma SplitJoin3(n: int)
    requires 0x800 <= n < 0x1_0000 && (n < 0xD800 || 0xE000 <= n)
    ensures Join3(0xE0 + n / 4096, 0x80 + n / 64 % 64, 0x80 + n % 64) == n
    ensures 0xE0 <= 0xE0 + n / 4096 <= 0xEF && SecondOfThree(0xE0 + n / 4096, 0x80 + n / 64 % 64)
  {
    assert n / 64 / 64 == n / 4096;
  }

  lemma SplitJoin4(n: int)
    requires 0x1_0000 <= n < 0x11_0000
    ensures Join4(0xF0 + n / 0x4_0000, 0x80 + n / 4096 % 64, 0x80 + n / 64 % 64, 0x80 + n % 64) == n
    ensures 0xF0 <= 0xF0 + n / 0x4_0000 <= 0xF4 && SecondOfFour(0xF0 + n / 0x4_0000, 0x80 + n / 4096 % 64)
  {
    assert n / 64 / 64 == n / 4096;
    assert n / 4096 / 64 == n / 0x4_0000;
  }

  lemma JoinSplit2(a: int, b: int)
    requires 0xC2 <= a <= 0xDF && 0x80 <= b <= 0xBF
    ensures var n := Join2(a, b); 0x80 <= n < 0x800 && a == 0xC0 + n / 64 && b == 0x80 + n % 64
  {
  }

  lemma JoinSplit3(a: byte, b: byte, c: byte)
    requires 0xE0 <= a <= 0xEF && SecondOfThree(a, b) && Tail(c)
    ensures var n := Join3(a, b, c);
      && 0x800 <= n < 0x1_0000
      && a == 0xE0 + n / 4096 && b == 0x80 + n / 64 % 64 && c == 0x80 + n % 64
  {
    var n := Join3(a, b, c);
    assert n / 64 == (a - 0xE0) * 64 + (b - 0x80);
    assert n / 64 / 64 == n / 4096;
  }

  lemma JoinSplit4(a: byte, b: byte, c: byte, d: byte)
    requires 0xF0 <= a <= 0xF4 && SecondOfFour(a, b) && Tail(c) && Tail(d)
    ensures var n := Join4(a, b, c, d);
      && 0x1_0000 <= n < 0x11_0000
      && a == 0xF0 + n / 0x4_0000 && b == 0x80 + n / 4096 % 64
      && c == 0x80 + n / 64 % 64 && d == 0x80 + n % 64
  {
    var n := Join4(a, b, c, d);
    assert n / 64 == (a - 0xF0) * 4096 + (b - 0x80) * 64 + (c - 0x80);
    assert n / 64 / 64 == (a - 0xF0) * 64 + (b - 0x80);
    assert n / 64 / 64 == n / 4096;
    assert n / 4096 / 64 == n / 0x4_0000;
  }

  lemma DecodeEncodeChar(c: char, t: seq<byte>)
    ensures DecodeChar(EncodeChar(c) + t) == Some((c, |EncodeChar(c)|))
  {
    var n := c as int;
    var s := EncodeChar(c) + t;
    if n < 0x80 {
    } else if n < 0x800 {
      SplitJoin2(n);
      assert s[0] == 0xC0 + n / 64 && s[1] == 0x80 + n % 64;
    } else if n < 0x1_0000 {
      SplitJoin3(n);
      assert s[0] == 0xE0 + n / 4096 && s[1] == 0x80 + n / 64 % 64 && s[2] == 0x80 + n % 64;
    } else {
      SplitJoin4(n);
      assert s[0] == 0xF0 + n / 0x4_0000 && s[1] == 0x80 + n / 4096 % 64;
      assert s[2] == 0x80 + n / 64 % 64 && s[3] == 0x80 + n % 64;
    }
  }

  lemma EncodeDecodeChar(s: seq<byte>)
    requires DecodeChar(s).Some?
    ensures EncodeChar(DecodeChar(s).value.0) == s[..DecodeChar(s).value.1]
  {
    if s[0] < 0x80 {
    } else if s[0] <= 0xDF {
      JoinSplit2(s[0], s[1]);
    } else if s[0] <= 0xEF {
      JoinSplit3(s[0], s[1], s[2]);
    } else {
      JoinSplit4(s[0], s[1], s[2], s[3]);
    }
  }

  /** The UTF-8 form of every string is valid and decodes to that string. */
  lemma {:induction false} DecodeEncode(s: string)
    ensures Decode(Encode(s)) == Some(s)
  {
    if s != [] {
      DecodeEncodeChar(s[0], Encode(s[1..]));
      DecodeEncode(s[1..]);
      assert s == [s[0]] + s[1..];
      assert Encode(s)[|EncodeChar(s[0])|..] == Encode(s[1..]);
    }
  }

  /** Valid UTF-8 has one decoding, and encoding it gives the same bytes. */
  lemma {:induction false} EncodeDecode(b: seq<byte>)
    requires Decode(b).Some?
    ensures Encode(Decode(b).value) == b
  {
    hide DecodeChar, EncodeChar;
    if b != [] {
      var (c, n) := DecodeChar(b).value;
      EncodeDecodeChar(b);
      EncodeDecode(b[n..]);
      assert Decode(b).value[1..] == Decode(b[n..]).value;
      assert b == b[..n] + b[n..];
    }
  }

  lemma EncodeInjective(a: string, b: string)
    requires Encode(a) == Encode(b)
    ensures a == b
  {
    DecodeEncode(a);
    DecodeEncode(b);
  }
}
