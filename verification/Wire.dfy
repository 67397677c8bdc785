/**
 The primitive wire codec: a grammar of pure readers over the unread bytes, the
 cursor class that implements it, and the appending encoders.
 */
module Wire {
  import opened Bytes
  import Utf8

  datatype Invalid =
    | ZlibFailed
    | InflatesPastCap
    | PictureTooLarge(len: nat)
    | UnknownDirection(value: u32)

  datatype DecodeError =
    | UnexpectedEof(needed: nat, remaining: nat)
    | InvalidValue(why: Invalid)

  /** Outcome of reading a value off the front of the unread bytes. */
  datatype Parsed<+T> = Ok(value: T, rest: seq<byte>) | Err(error: DecodeError) {
    predicate IsFailure() {
      Err?
    }

    function PropagateFailure<U>(): Parsed<U>
      requires Err?
    {
      Err(error)
    }

    function Extract(): (T, seq<byte>)
      requires Ok?
    {
      (value, rest)
    }
  }

  // ---- the grammar -------------------------------------------------------

  function Take(n: nat, s: seq<byte>): Parsed<seq<byte>> {
    if |s| < n then Err(UnexpectedEof(n, |s|)) else Ok(s[..n], s[n..])
  }

  function ReadU8(s: seq<byte>): Parsed<byte> {
    var (b, s1) :- Take(1, s);
    Ok(b[0], s1)
  }

  function ReadU32(s: seq<byte>): Parsed<u32> {
    var (b, s1) :- Take(4, s);
    Ok(BytesU32(b), s1)
  }

  function ReadU64(s: seq<byte>): Parsed<u64> {
    var (b, s1) :- Take(8, s);
    Ok(BytesU64(b), s1)
  }

  /** Eight bytes; a top byte of 255 marks a size whose high word is garbage. */
  function ReadFileSize(s: seq<byte>): Parsed<u64> {
    var (b, s1) :- Take(8, s);
    Ok(if b[7] == 255 then BytesU32(b[..4]) else BytesU64(b), s1)
  }

  function ReadBool(s: seq<byte>): Parsed<bool> {
    var (b, s1) :- ReadU8(s);
    Ok(b != 0, s1)
  }

  function Latin1(b: seq<byte>): (s: string)
    ensures |s| == |b|
  {
    seq(|b|, i requires 0 <= i < |b| => b[i] as char)
  }

  /** UTF-8 when the bytes are valid UTF-8, Latin-1 otherwise. */
  function Text(b: seq<byte>): string {
    match Utf8.Decode(b)
    case Some(s) => s
    case None => Latin1(b)
  }

  function ReadString(s: seq<byte>): Parsed<string> {
    var (len, s1) :- ReadU32(s);
    var (b, s2) :- Take(len, s1);
    Ok(Text(b), s2)
  }

  /** `n` consecutive values, each read by `p`. */
  function Many<T>(p: seq<byte> -> Parsed<T>, n: nat, s: seq<byte>): Parsed<seq<T>> {
    if n == 0 then Ok([], s)
    else
      var (x, s1) :- p(s);
      var (xs, s2) :- Many(p, n - 1, s1);
      Ok([x] + xs, s2)
  }

  /** A `u32` count followed by that many values. */
  function ReadList<T>(p: seq<byte> -> Parsed<T>, s: seq<byte>): Parsed<seq<T>> {
    var (n, s1) :- ReadU32(s);
    Many(p, n, s1)
  }

  /** What remains of reading a list when `xs` has been read already. */
  function Prepend<T>(xs: seq<T>, p: Parsed<seq<T>>): Parsed<seq<T>> {
    match p
    case Ok(ys, rest) => Ok(xs + ys, rest)
    case Err(e) => Err(e)
  }

  /** Nothing read yet, and everything read. */
  lemma PrependEnds<T>(p: Parsed<seq<T>>, xs: seq<T>, s: seq<byte>)
    ensures Prepend([], p) == p
    ensures Prepend(xs, Ok([], s)) == Ok(xs, s)
  {
    if p.Ok? {
      assert [] + p.value == p.value;
    }
    assert xs + [] == xs;
  }

  lemma PrependStep<T>(p: seq<byte> -> Parsed<T>, xs: seq<T>, n: nat, s: seq<byte>)
    requires n > 0
    ensures p(s).Ok? ==>
      Prepend(xs, Many(p, n, s)) == Prepend(xs + [p(s).value], Many(p, n - 1, p(s).rest))
    ensures p(s).Err? ==> Prepend(xs, Many(p, n, s)) == Err(p(s).error)
  {
    if p(s).Ok? {
      var m := Many(p, n - 1, p(s).rest);
      if m.Ok? {
        assert xs + ([p(s).value] + m.value) == xs + [p(s).value] + m.value;
      }
    }
  }

  // ---- the encoders as functions -----------------------------------------

  function StringBytes(s: string): (r: seq<byte>)
    ensures |r| == 4 + |Utf8.Encode(s)|
  {
    U32Bytes(Truncate32(|Utf8.Encode(s)|)) + Utf8.Encode(s)
  }

  function BoolBytes(b: bool): seq<byte> {
    [if b then 1 else 0]
  }

  function ManyBytes<T>(enc: T -> seq<byte>, xs: seq<T>): seq<byte> {
    if xs == [] then [] else enc(xs[0]) + ManyBytes(enc, xs[1..])
  }

  function ListBytes<T>(enc: T -> seq<byte>, xs: seq<T>): (r: seq<byte>)
    ensures |r| == 4 + |ManyBytes(enc, xs)|
  {
    U32Bytes(Truncate32(|xs|)) + ManyBytes(enc, xs)
  }

  function MapSeq<T, U>(f: T -> U, xs: seq<T>): (r: seq<U>)
    ensures |r| == |xs|
    ensures forall i :: 0 <= i < |xs| ==> r[i] == f(xs[i])
  {
    if xs == [] then [] else [f(xs[0])] + MapSeq(f, xs[1..])
  }

  lemma AppendAssoc<T>(a: seq<T>, b: seq<T>, c: seq<T>)
    ensures a + (b + c) == a + b + c
  {
  }

  // ---- reading back what was written -------------------------------------

  lemma TakeFront(a: seq<byte>, t: seq<byte>)
    ensures Take(|a|, a + t) == Ok(a, t)
  {
    assert (a + t)[..|a|] == a && (a + t)[|a|..] == t;
  }

  lemma ReadU32Inverts(v: u32, t: seq<byte>)
    ensures ReadU32(U32Bytes(v) + t) == Ok(v, t)
  {
    TakeFront(U32Bytes(v), t);
  }

  lemma ReadU64Inverts(v: u64, t: seq<byte>)
    ensures ReadU64(U64Bytes(v) + t) == Ok(v, t)
  {
    TakeFront(U64Bytes(v), t);
  }

  lemma ReadBoolInverts(b: bool, t: seq<byte>)
    ensures ReadBool(BoolBytes(b) + t) == Ok(b, t)
  {
    TakeFront(BoolBytes(b), t);
  }

  /** What `ReadFileSize` makes of an encoded size. */
  function NormalSize(size: u64): (r: u64)
    ensures NormalSizeFixed(r)
  {
    if size / 0x100_0000_0000_0000 == 255 then size % U32_LIMIT else size
  }

  predicate NormalSizeFixed(size: u64) {
    size / 0x100_0000_0000_0000 != 255
  }

  lemma FromLEStep(b: seq<byte>, k: nat)
    requires k < |b|
    ensures FromLE(b[k..]) == b[k] + 256 * FromLE(b[k + 1..])
  {
    assert b[k..][1..] == b[k + 1..];
  }

  lemma FromLE4(b: seq<byte>)
    requires |b| == 4
    ensures FromLE(b) == b[0] + 0x100 * (b[1] as int) + 0x1_0000 * (b[2] as int) + 0x100_0000 * (b[3] as int)
  {
    assert b[0..] == b;
    FromLEStep(b, 0);
    FromLEStep(b, 1);
    FromLEStep(b, 2);
    FromLEStep(b, 3);
  }

  lemma LowAndHighWord(b: seq<byte>)
    requires |b| == 8
    ensures FromLE(b) == FromLE(b[..4]) + U32_LIMIT * FromLE(b[4..])
  {
    var (lo, hi) := (b[..4], b[4..]);
    FromLE4(lo);
    assert b[0..] == b;
    FromLEStep(b, 0);
    FromLEStep(b, 1);
    FromLEStep(b, 2);
    FromLEStep(b, 3);
  }

  /** The least significant byte comes first, on the wire and off it; any byte but 0 is true. */
  lemma LittleEndian(a: seq<byte>, b: seq<byte>, flag: byte, t: seq<byte>)
    requires |a| == 4 && |b| == 8
    ensures ReadU32(a + t)
         == Ok(a[0] as int + 0x100 * a[1] as int + 0x1_0000 * a[2] as int + 0x100_0000 * a[3] as int, t)
    ensures ReadU64(b + t) == Ok(BytesU32(b[..4]) + U32_LIMIT * BytesU32(b[4..]) as int, t)
    ensures ReadBool([flag] + t) == Ok(flag != 0, t)
  {
    hide FromLE, Pow256;
    TakeFront(a, t);
    TakeFront(b, t);
    TakeFront([flag], t);
    FromLE4(a);
    LowAndHighWord(b);
  }

  lemma TopByte(v: int, q: int, r: int)
    requires v == q * 0x100_0000_0000_0000 + r && 0 <= r < 0x100_0000_0000_0000
    ensures v / 0x100_0000_0000_0000 == q
  {
  }

  lemma LowWord(v: int, q: int, r: int)
    requires v == q * U32_LIMIT + r && 0 <= r < U32_LIMIT
    ensures v % U32_LIMIT == r
  {
  }

  lemma FileSizeParts(b: seq<byte>)
    requires |b| == 8
    ensures BytesU64(b) / 0x100_0000_0000_0000 == b[7]
    ensures BytesU64(b) % U32_LIMIT == BytesU32(b[..4])
  {
    hide FromLE, Pow256;
    LowAndHighWord(b);
    var (v, lo, hi, top: int) := (FromLE(b), FromLE(b[..4]), FromLE(b[4..]), b[7]);
    FromLE4(b[4..]);
    Pow256Values();
    TopByte(v, top, lo + U32_LIMIT * (hi - 0x100_0000 * top));
    LowWord(v, hi, lo);
  }

  lemma ReadFileSizeInverts(size: u64, t: seq<byte>)
    ensures ReadFileSize(U64Bytes(size) + t) == Ok(NormalSize(size), t)
  {
    TakeFront(U64Bytes(size), t);
    BytesOfU64(size);
    FileSizeParts(U64Bytes(size));
  }

  /** A size that was read is one that reads back as itself. */
  lemma ReadSizeIsNormal(s: seq<byte>)
    requires ReadFileSize(s).Ok?
    ensures NormalSize(ReadFileSize(s).value) == ReadFileSize(s).value
  {
    FileSizeParts(s[..8]);
  }

  lemma StringInverts(s: string, t: seq<byte>)
    requires |Utf8.Encode(s)| < U32_LIMIT
    ensures ReadString(StringBytes(s) + t) == Ok(s, t)
  {
    hide ReadU32, U32Bytes, Take, Text, Utf8.Encode, Utf8.Decode;
    var u := Utf8.Encode(s);
    var n := Truncate32(|u|);
    assert n == |u|;
    assert StringBytes(s) + t == U32Bytes(n) + (u + t);
    ReadU32Inverts(n, u + t);
    TakeFront(u, t);
    TextOfEncoded(s);
  }

  lemma TextOfEncoded(s: string)
    ensures Text(Utf8.Encode(s)) == s
  {
    hide Utf8.Encode, Utf8.Decode, Latin1;
    Utf8.DecodeEncode(s);
  }

  lemma LongStringIsCut(s: string, t: seq<byte>)
    requires |Utf8.Encode(s)| >= U32_LIMIT
    ensures ReadString(StringBytes(s) + t).Ok? && |ReadString(StringBytes(s) + t).rest| > |t|
  {
    var u := Utf8.Encode(s);
    var n := Truncate32(|u|);
    assert StringBytes(s) + t == U32Bytes(n) + (u + t);
    ReadU32Inverts(n, u + t);
  }

  /**
   A string survives the codec exactly when its UTF-8 form is shorter than
   2^32 bytes: the length prefix is a truncating cast.
   */
  lemma StringRoundTrip(s: string, t: seq<byte>)
    ensures ReadString(StringBytes(s) + t) == Ok(s, t) <==> |Utf8.Encode(s)| < U32_LIMIT
  {
    if |Utf8.Encode(s)| < U32_LIMIT {
      StringInverts(s, t);
    } else {
      LongStringIsCut(s, t);
    }
  }

  /**
   Bytes that are not UTF-8 stand for the characters of the same numbers. Decoding
   arbitrary bytes, then re-encoding and decoding, is stable even so.
   */
  lemma TextIsStable(b: seq<byte>, t: seq<byte>)
    ensures Utf8.Decode(b).None? ==> |Text(b)| == |b| && forall i :: 0 <= i < |b| ==> Text(b)[i] as int == b[i]
    ensures Text(Utf8.Encode(Text(b))) == Text(b)
    ensures Utf8.Decode(b).Some? <==> Utf8.Encode(Text(b)) == b
    ensures |Utf8.Encode(Text(b))| < U32_LIMIT ==> ReadString(StringBytes(Text(b)) + t) == Ok(Text(b), t)
  {
    Utf8.DecodeEncode(Text(b));
    StringRoundTrip(Text(b), t);
    if Utf8.Decode(b).Some? {
      Utf8.EncodeDecode(b);
    }
  }

  /** Each of `xs` is read back from its encoding as its normal form, whatever follows. */
  ghost predicate Inverts<T(!new)>(p: seq<byte> -> Parsed<T>, enc: T -> seq<byte>, norm: T -> T, xs: seq<T>) {
    forall x, t {:trigger p(enc(x) + t)} :: x in xs ==> p(enc(x) + t) == Ok(norm(x), t)
  }

  lemma {:induction false} ManyInverts<T(!new)>(
    p: seq<byte> -> Parsed<T>, enc: T -> seq<byte>, norm: T -> T, xs: seq<T>, t: seq<byte>)
    requires Inverts(p, enc, norm, xs)
    ensures Many(p, |xs|, ManyBytes(enc, xs) + t) == Ok(MapSeq(norm, xs), t)
  {
    if xs == [] {
      assert ManyBytes(enc, xs) + t == t;
    } else {
      var t1 := ManyBytes(enc, xs[1..]) + t;
      assert ManyBytes(enc, xs) + t == enc(xs[0]) + t1;
      ManyInverts(p, enc, norm, xs[1..], t);
    }
  }

  /** A count-prefixed list is read back in full when its length fits the prefix. */
  lemma ListInverts<T(!new)>(
    p: seq<byte> -> Parsed<T>, enc: T -> seq<byte>, norm: T -> T, xs: seq<T>, t: seq<byte>)
    requires |xs| < U32_LIMIT
    requires Inverts(p, enc, norm, xs)
    ensures ReadList(p, ListBytes(enc, xs) + t) == Ok(MapSeq(norm, xs), t)
  {
    var m := ManyBytes(enc, xs) + t;
    assert ReadList(p, ListBytes(enc, xs) + t) == Many(p, |xs|, m) by {
      CountFirst(p, enc, xs, t);
    }
    assert Many(p, |xs|, m) == Ok(MapSeq(norm, xs), t) by {
      ManyInverts(p, enc, norm, xs, t);
    }
  }

  lemma CountFirst<T, U>(p: seq<byte> -> Parsed<T>, enc: U -> seq<byte>, xs: seq<U>, t: seq<byte>)
    requires |xs| < U32_LIMIT
    ensures ReadList(p, ListBytes(enc, xs) + t) == Many(p, |xs|, ManyBytes(enc, xs) + t)
  {
    var n := Truncate32(|xs|);
    var m := ManyBytes(enc, xs);
    assert n == |xs|;
    assert ListBytes(enc, xs) + t == U32Bytes(n) + (m + t);
    ReadU32Inverts(n, m + t);
  }

  /** An element's encoding is part of the list's. */
  lemma {:induction false} ManyBytesSize<T>(enc: T -> seq<byte>, xs: seq<T>, i: nat)
    requires i < |xs|
    ensures |enc(xs[i])| <= |ManyBytes(enc, xs)|
  {
    if i > 0 {
      assert xs[i] == xs[1..][i - 1];
      ManyBytesSize(enc, xs[1..], i - 1);
    }
  }

  lemma {:induction false} ManyBytesCount<T(!new)>(enc: T -> seq<byte>, xs: seq<T>)
    requires forall x :: |enc(x)| >= 1
    ensures |xs| <= |ManyBytes(enc, xs)|
  {
    if xs != [] {
      ManyBytesCount(enc, xs[1..]);
    }
  }

  lemma {:induction false} ManyBytesAppend<T>(enc: T -> seq<byte>, xs: seq<T>, x: T)
    ensures ManyBytes(enc, xs + [x]) == ManyBytes(enc, xs) + enc(x)
  {
    if xs == [] {
      assert xs + [x] == [x];
      assert ManyBytes(enc, [x]) == enc(x) + ManyBytes(enc, []);
    } else {
      assert (xs + [x])[1..] == xs[1..] + [x];
      ManyBytesAppend(enc, xs[1..], x);
      assert ManyBytes(enc, xs + [x]) == enc(xs[0]) + (ManyBytes(enc, xs[1..]) + enc(x));
    }
  }

  /** Writing one more element extends what the list has contributed to the buffer. */
  lemma WriteStep<T>(enc: T -> seq<byte>, xs: seq<T>, i: nat, before: seq<byte>)
    requires i < |xs|
    ensures before + ManyBytes(enc, xs[..i]) + enc(xs[i]) == before + ManyBytes(enc, xs[..i + 1])
  {
    assert xs[..i + 1] == xs[..i] + [xs[i]];
    ManyBytesAppend(enc, xs[..i], xs[i]);
    assert before + ManyBytes(enc, xs[..i]) + enc(xs[i]) == before + (ManyBytes(enc, xs[..i]) + enc(xs[i]));
  }

  /** Before the first element, and after the last. */
  lemma WriteEnds<T>(enc: T -> seq<byte>, xs: seq<T>, before: seq<byte>)
    ensures before + ManyBytes(enc, xs[..0]) == before
    ensures xs[..|xs|] == xs
  {
    assert before + [] == before;
  }

  // ---- what was read is normal ----------------------------------------------

  /** Whatever `p` reads is left as it is by `norm`. */
  ghost predicate ReadsNormal<T(!new)>(p: seq<byte> -> Parsed<T>, norm: T -> T) {
    forall s :: p(s).Ok? ==> norm(p(s).value) == p(s).value
  }

  lemma {:induction false} ManyIsNormal<T(!new)>(p: seq<byte> -> Parsed<T>, norm: T -> T, n: nat, s: seq<byte>)
    requires ReadsNormal(p, norm) && Many(p, n, s).Ok?
    ensures MapSeq(norm, Many(p, n, s).value) == Many(p, n, s).value
  {
    if n > 0 {
      var (x, xs) := (p(s).value, Many(p, n - 1, p(s).rest).value);
      ManyIsNormal(p, norm, n - 1, p(s).rest);
      assert ([x] + xs)[1..] == xs;
    }
  }

  // ---- locality ----------------------------------------------------------

  /** `p` reads a prefix of its input and its result depends on that prefix alone. */
  ghost predicate Local<T(!new)>(p: seq<byte> -> Parsed<T>) {
    && (forall s :: p(s).Ok? ==> |p(s).rest| <= |s|)
    && (forall s, t :: p(s).Ok? ==> p(s + t) == Ok(p(s).value, p(s).rest + t))
  }

  /** The only way `p` fails is by running out of bytes. */
  ghost predicate OnlyEof<T(!new)>(p: seq<byte> -> Parsed<T>) {
    forall s :: p(s).Err? ==> p(s).error.UnexpectedEof?
  }

  /** Reading a value consumes at least `size` of it. */
  ghost predicate Consumes<T(!new)>(p: seq<byte> -> Parsed<T>, size: T -> nat) {
    forall s :: p(s).Ok? ==> |s| - |p(s).rest| >= size(p(s).value)
  }

  lemma TakeLocal(n: nat, s: seq<byte>, t: seq<byte>)
    requires Take(n, s).Ok?
    ensures Take(n, s + t) == Ok(Take(n, s).value, Take(n, s).rest + t)
  {
    assert (s + t)[..n] == s[..n] && (s + t)[n..] == s[n..] + t;
  }

  lemma {:induction false} ManyLocal<T(!new)>(p: seq<byte> -> Parsed<T>, n: nat, s: seq<byte>, t: seq<byte>)
    requires Local(p)
    requires Many(p, n, s).Ok?
    ensures |Many(p, n, s).rest| <= |s|
    ensures Many(p, n, s + t) == Ok(Many(p, n, s).value, Many(p, n, s).rest + t)
  {
    if n > 0 {
      ManyLocal(p, n - 1, p(s).rest, t);
    }
  }

  lemma {:induction false} ManyOnlyEof<T(!new)>(p: seq<byte> -> Parsed<T>, n: nat, s: seq<byte>)
    requires OnlyEof(p)
    requires Many(p, n, s).Err?
    ensures Many(p, n, s).error.UnexpectedEof?
  {
    if p(s).Ok? {
      ManyOnlyEof(p, n - 1, p(s).rest);
    }
  }

  function Total<T>(size: T -> nat, xs: seq<T>): nat {
    if xs == [] then 0 else size(xs[0]) + Total(size, xs[1..])
  }

  lemma {:induction false} ManyConsumes<T(!new)>(p: seq<byte> -> Parsed<T>, size: T -> nat, n: nat, s: seq<byte>)
    requires Consumes(p, size)
    requires Many(p, n, s).Ok?
    ensures |s| - |Many(p, n, s).rest| >= Total(size, Many(p, n, s).value)
  {
    if n > 0 {
      var m := Many(p, n - 1, p(s).rest);
      ManyConsumes(p, size, n - 1, p(s).rest);
      assert Many(p, n, s).value == [p(s).value] + m.value;
      assert ([p(s).value] + m.value)[1..] == m.value;
    }
  }

  /** A truncated input of a local, end-of-input-only reader always reports the end of input. */
  lemma TruncationIsEof<T(!new)>(p: seq<byte> -> Parsed<T>, s: seq<byte>, k: nat)
    requires Local(p) && OnlyEof(p)
    requires p(s).Ok? && k < |s| - |p(s).rest|
    ensures p(s[..k]).Err? && p(s[..k]).error.UnexpectedEof?
  {
    var (front, back) := (s[..k], s[k..]);
    assert front + back == s;
  }

  lemma ListLocal<T(!new)>(p: seq<byte> -> Parsed<T>, s: seq<byte>, t: seq<byte>)
    requires Local(p)
    requires ReadList(p, s).Ok?
    ensures |ReadList(p, s).rest| <= |s|
    ensures ReadList(p, s + t) == Ok(ReadList(p, s).value, ReadList(p, s).rest + t)
  {
    TakeLocal(4, s, t);
    ManyLocal(p, ReadU32(s).value, ReadU32(s).rest, t);
  }

  // ---- the cursor --------------------------------------------------------

  class Reader {
    const buf: seq<byte>
    var pos: nat

    ghost predicate Valid()
      reads this
    {
      pos <= |buf|
    }

    ghost function Unread(): seq<byte>
      reads this
      requires Valid()
    {
      buf[pos..]
    }

    /** The outcome `r` and the new cursor are those the grammar prescribes. */
    ghost predicate Follows<T>(p: Parsed<T>, r: Result<T, DecodeError>)
      reads this
    {
      && Valid()
      && match p
         case Ok(v, rest) => r == Success(v) && Unread() == rest
         case Err(e) => r == Failure(e)
    }

    constructor (buf: seq<byte>)
      ensures Valid() && pos == 0 && this.buf == buf
    {
      this.buf := buf;
      pos := 0;
    }

    method Remaining() returns (n: nat)
      requires Valid()
      ensures n == |Unread()|
    {
      n := |buf| - pos;
    }

    method IsEmpty() returns (b: bool)
      requires Valid()
      ensures b <==> Unread() == []
    {
      b := |buf| - pos == 0;
    }

    method TakeBytes(n: nat) returns (r: Result<seq<byte>, DecodeError>)
      requires Valid()
      modifies this
      ensures Follows(Take(n, old(Unread())), r)
      ensures r.Failure? ==> pos == old(pos)
    {
      if |buf| - pos < n {
        return Failure(UnexpectedEof(n, |buf| - pos));
      }
      var slice := buf[pos..pos + n];
      pos := pos + n;
      r := Success(slice);
      assert slice == old(buf[pos..])[..n] && buf[pos..] == old(buf[pos..])[n..];
    }

    method U8() returns (r: Result<byte, DecodeError>)
      requires Valid()
      modifies this
      ensures Follows(ReadU8(old(Unread())), r)
    {
      var b :- TakeBytes(1);
      return Success(b[0]);
    }

    method U32() returns (r: Result<u32, DecodeError>)
      requires Valid()
      modifies this
      ensures Follows(ReadU32(old(Unread())), r)
    {
      var b :- TakeBytes(4);
      return Success(BytesU32(b));
    }

    method U64() returns (r: Result<u64, DecodeError>)
      requires Valid()
      modifies this
      ensures Follows(ReadU64(old(Unread())), r)
    {
      var b :- TakeBytes(8);
      return Success(BytesU64(b));
    }

    method FileSize() returns (r: Result<u64, DecodeError>)
      requires Valid()
      modifies this
      ensures Follows(ReadFileSize(old(Unread())), r)
    {
      var b :- TakeBytes(8);
      if b[7] == 255 {
        return Success(BytesU32(b[..4]));
      }
      return Success(BytesU64(b));
    }

    method Bool() returns (r: Result<bool, DecodeError>)
      requires Valid()
      modifies this
      ensures Follows(ReadBool(old(Unread())), r)
    {
      var b :- U8();
      return Success(b != 0);
    }

    method String() returns (r: Result<string, DecodeError>)
      requires Valid()
      modifies this
      ensures Follows(ReadString(old(Unread())), r)
    {
      var len :- U32();
      var b :- TakeBytes(len);
      match Utf8.Decode(b)
      case Some(s) => return Success(s);
      case None => return Success(Latin1(b));
    }

    method Rest() returns (b: seq<byte>)
      requires Valid()
      modifies this
      ensures Valid() && b == old(Unread()) && Unread() == []
    {
      b := buf[pos..];
      pos := |buf|;
    }
  }

  // ---- the appending encoders --------------------------------------------

  class Buffer {
    var data: seq<byte>

    constructor ()
      ensures data == []
    {
      data := [];
    }

    method Extend(b: seq<byte>)
      modifies this
      ensures data == old(data) + b
    {
      data := data + b;
    }

    method PutU8(v: byte)
      modifies this
      ensures data == old(data) + [v]
    {
      data := data + [v];
    }

    method PutU32(v: u32)
      modifies this
      ensures data == old(data) + U32Bytes(v)
    {
      data := data + U32Bytes(v);
    }

    method PutU64(v: u64)
      modifies this
      ensures data == old(data) + U64Bytes(v)
    {
      data := data + U64Bytes(v);
    }

    method PutBool(v: bool)
      modifies this
      ensures data == old(data) + BoolBytes(v)
    {
      data := data + [if v then 1 else 0];
    }

    method PutString(s: string)
      modifies this
      ensures data == old(data) + StringBytes(s)
    {
      PutU32(Truncate32(|Utf8.Encode(s)|));
      Extend(Utf8.Encode(s));
    }
  }
}
